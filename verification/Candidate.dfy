/** The candidate attribute, section 15.1 of RFC 5245: the line a session prints for a local candidate,
and the parser that reads the candidates of the remote peer. */
module Candidates {
  import opened Decimal
  import opened Wrappers

  type Byte = x: int | 0 <= x < 0x100

  type Port = x: int | 0 <= x < 0x10000

  datatype Protocol = Udp | Tcp

  datatype Type = Host | ServerReflexive | PeerReflexive | Relay

  datatype Address = IPv4(a: Byte, b: Byte, c: Byte, d: Byte) | IPv6(bytes: seq<Byte>)

  datatype Candidate = Candidate(protocol: Protocol, priority: Word, address: Address, port: Port, kind: Type)

  datatype Error = NoError | InvalidProtocol | InvalidPriority | IpTooLong | InvalidIp | InvalidPort | InvalidTypeId
                 | InvalidType | LackOfElement

  // ---------- Printing ----------

  function TypeString(t: Type): string {
    match t
    case Host => "host"
    case PeerReflexive => "prflx"
    case ServerReflexive => "srflx"
    case Relay => "relay"
  }

  function PrintAddress(a: Byte, b: Byte, c: Byte, d: Byte): string {
    Print(a) + ("." + (Print(b) + ("." + (Print(c) + ("." + Print(d))))))
  }

  const TAIL := "raddr 0.0.0.0 rport 0 generation 0 network-cost 999"

  /** The line for an IPv4 candidate with the given index among the local ones. */
  function PrintCandidate(index: Word, priority: Word, a: Byte, b: Byte, c: Byte, d: Byte, port: Port, t: Type): string
  {
    ("candidate:" + Print(index)) + (" 1 udp " + (Print(priority)
      + (" " + (PrintAddress(a, b, c, d) + (" " + (Print(port)
      + (" typ " + (TypeString(t) + (" " + TAIL)))))))))
  }

  function Wrap(line: string): string {
    "{\"candidate\":\"" + line + "\",\"sdpMid\":\"0\",\"sdpMLineIndex\":0}"
  }

  const BUFFER_SIZE := 512

  /** Neither the line nor its JSON wrapper reaches the size of the buffer. */
  lemma LineFits(index: Word, priority: Word, a: Byte, b: Byte, c: Byte, d: Byte, port: Port, t: Type)
    ensures |PrintCandidate(index, priority, a, b, c, d, port, t)| <= 121
    ensures |Wrap(PrintCandidate(index, priority, a, b, c, d, port, t))| < BUFFER_SIZE
  {
    hide Print;
    PowersOfTen();
    PrintLength(index, 10);
    PrintLength(priority, 10);
    PrintLength(a, 3);
    PrintLength(b, 3);
    PrintLength(c, 3);
    PrintLength(d, 3);
    PrintLength(port, 5);
  }

  lemma PowersOfTen()
    ensures Pow10(3) == 1000 && Pow10(5) == 100000 && Pow10(10) == 10000000000
  {
    assert Pow10(2) == 100 && Pow10(4) == 10000;
    assert Pow10(6) == 1000000 && Pow10(8) == 100000000;
  }

  // ---------- Tokens ----------

  /** The part of s before the first c. */
  function Before(s: string, c: char): (t: string)
    ensures |t| <= |s| && t == s[..|t|] && c !in t && (|t| < |s| ==> s[|t|] == c)
  {
    if s == [] || s[0] == c then [] else [s[0]] + Before(s[1..], c)
  }

  /** The tokens between single spaces. Nothing after a last space is no token. */
  function Tokens(s: string): seq<string>
    decreases |s|
  {
    if s == [] then []
    else
      var t := Before(s, ' ');
      [t] + (if |t| < |s| then Tokens(s[|t| + 1..]) else [])
  }

  lemma {:induction false} BeforeIs(s: string, c: char, n: nat)
    requires n <= |s| && c !in s[..n] && (n < |s| ==> s[n] == c)
    ensures Before(s, c) == s[..n]
    decreases |s|
  {
    if n > 0 {
      assert s[1..][..n - 1] == s[..n][1..];
      BeforeIs(s[1..], c, n - 1);
      assert s[..n] == [s[0]] + s[1..][..n - 1];
    }
  }

  lemma BeforeSeparator(t: string, c: char, rest: string)
    requires c !in t
    ensures var s := t + ([c] + rest);
      Before(s, c) == t && |t| < |s| && s[|t| + 1..] == rest
  {
    var s := t + ([c] + rest);
    assert s[..|t|] == t && s[|t|] == c;
    BeforeIs(s, c, |t|);
  }

  lemma FirstToken(t: string, rest: string)
    requires ' ' !in t
    ensures Tokens(t + (" " + rest)) == [t] + Tokens(rest)
  {
    BeforeSeparator(t, ' ', rest);
    assert " " == [' '];
  }

  // ---------- Parsing ----------

  /** strncmp(token, literal, length of the token) == 0. */
  predicate Agrees(token: string, literal: string)
    decreases |token|
  {
    if token == [] then true
    else if literal == [] then token[0] == '\0'
    else token[0] == literal[0] && (token[0] == '\0' || Agrees(token[1..], literal[1..]))
  }

  /** Without zero characters: any prefix of the literal will do, the empty one included. */
  lemma {:induction false} AgreesIsPrefix(token: string, literal: string)
    requires '\0' !in token
    ensures Agrees(token, literal) <==> token <= literal
    decreases |token|
  {
    if token != [] && literal != [] {
      AgreesIsPrefix(token[1..], literal[1..]);
      if token[0] == literal[0] && token[1..] <= literal[1..] {
        assert literal == [literal[0]] + literal[1..];
        assert token == [token[0]] + token[1..];
      }
    }
  }

  function ParseProtocol(token: string): Option<Protocol> {
    if Agrees(token, "tcp") || Agrees(token, "TCP") then Some(Tcp)
    else if Agrees(token, "udp") || Agrees(token, "UDP") then Some(Udp)
    else None
  }

  function ParseType(token: string): Option<Type> {
    if Agrees(token, "host") then Some(Host)
    else if Agrees(token, "srflx") then Some(ServerReflexive)
    else if Agrees(token, "prflx") then Some(PeerReflexive)
    else if Agrees(token, "relay") then Some(Relay)
    else None
  }

  /** Which protocol a name without zero characters stands for: any prefix of one of the four names, TCP
      first, so that the empty name is TCP. */
  lemma ProtocolIff(token: string)
    requires '\0' !in token
    ensures ParseProtocol(token) ==
            if token <= "tcp" || token <= "TCP" then Some(Tcp)
            else if token <= "udp" || token <= "UDP" then Some(Udp)
            else None
  {
    AgreesIsPrefix(token, "tcp");
    AgreesIsPrefix(token, "TCP");
    AgreesIsPrefix(token, "udp");
    AgreesIsPrefix(token, "UDP");
  }

  /** Which type a name without zero characters stands for: any prefix of one of the four names, the empty
      one being host. */
  lemma TypeIff(token: string)
    requires '\0' !in token
    ensures ParseType(token) ==
            if token <= "host" then Some(Host)
            else if token <= "srflx" then Some(ServerReflexive)
            else if token <= "prflx" then Some(PeerReflexive)
            else if token <= "relay" then Some(Relay)
            else None
  {
    AgreesIsPrefix(token, "host");
    AgreesIsPrefix(token, "srflx");
    AgreesIsPrefix(token, "prflx");
    AgreesIsPrefix(token, "relay");
  }

  predicate IsOctet(s: string) {
    0 < |s| <= 3 && (forall k :: 0 <= k < |s| ==> IsDigit(s[k])) && Value(s) < 0x100
  }

  function Split(s: string, c: char): (parts: seq<string>)
    ensures |parts| > 0
    decreases |s|
  {
    var t := Before(s, c);
    [t] + (if |t| < |s| then Split(s[|t| + 1..], c) else [])
  }

  /** inet_pton for AF_INET: four numbers below 256 with dots in between. */
  function ParseIPv4(s: string): Option<Address> {
    var p := Split(s, '.');
    if |p| == 4 && IsOctet(p[0]) && IsOctet(p[1]) && IsOctet(p[2]) && IsOctet(p[3]) then
      Some(IPv4(Value(p[0]), Value(p[1]), Value(p[2]), Value(p[3])))
    else
      None
  }

  const IP_LENGTH := 39

  /** inet_pton for AF_INET6 is not part of the model; any function will do. */
  type IPv6Parser = string -> Option<seq<Byte>>

  function ParseAddress(token: string, ipv6: IPv6Parser): (Error, Option<Address>) {
    if |token| > IP_LENGTH then (IpTooLong, None)
    else
      var text := Before(token, '\0');
      if ParseIPv4(text).Some? then (NoError, ParseIPv4(text))
      else if ipv6(text).Some? then (NoError, Some(IPv6(ipv6(text).value)))
      else (InvalidIp, None)
  }

  /** An address text of up to 39 characters is looked at, up to its first zero character: as IPv4 first. */
  lemma AddressIff(token: string, ipv6: IPv6Parser)
    ensures var (e, a) := ParseAddress(token, ipv6); var text := Before(token, '\0');
      && (e == IpTooLong <==> |token| >= 40)
      && (e == NoError <==> |token| < 40 && (ParseIPv4(text).Some? || ipv6(text).Some?))
      && (a.Some? <==> e == NoError)
      && (e == NoError && ParseIPv4(text).Some? ==> a == ParseIPv4(text))
      && (e == NoError && ParseIPv4(text).None? ==> a == Some(IPv6(ipv6(text).value)))
  {
    hide ParseIPv4, Before;
  }

  /** The effect of the k-th token on the candidate. */
  function ParseToken(k: nat, token: string, c: Candidate, ipv6: IPv6Parser): (Error, Candidate) {
    if k == 2 then
      var p := ParseProtocol(token);
      if p.Some? then (NoError, c.(protocol := p.value)) else (InvalidProtocol, c)
    else if k == 3 then
      var n := Read(token);
      if n.Some? then (NoError, c.(priority := n.value)) else (InvalidPriority, c)
    else if k == 4 then
      var (e, a) := ParseAddress(token, ipv6);
      (e, if a.Some? then c.(address := a.value) else c)
    else if k == 5 then
      var n := Read(token);
      if n.Some? then (NoError, c.(port := n.value % 0x10000)) else (InvalidPort, c)
    else if k == 6 then
      (if |token| == 3 && Agrees(token, "typ") then NoError else InvalidTypeId, c)
    else if k == 7 then
      var t := ParseType(token);
      if t.Some? then (NoError, c.(kind := t.value)) else (InvalidType, c)
    else
      (NoError, c)
  }

  /** The tokens from the k-th on. A line that ends before the eighth token, or has an error before
      it, lacks an element. */
  function ParseFrom(k: nat, tokens: seq<string>, c: Candidate, ipv6: IPv6Parser): (Error, Candidate)
    decreases |tokens|
  {
    if tokens == [] then (if k <= 7 then LackOfElement else NoError, c)
    else
      var (e, c') := ParseToken(k, tokens[0], c, ipv6);
      if e.NoError? then ParseFrom(k + 1, tokens[1..], c', ipv6)
      else if k == 7 then (e, c')
      else (LackOfElement, c')
  }

  function Parse(line: string, c: Candidate, ipv6: IPv6Parser): (Error, Candidate) {
    ParseFrom(0, Tokens(line), c, ipv6)
  }

  // ---------- Round trip ----------

  lemma NoSpaceInDigits(n: nat)
    ensures ' ' !in Print(n) && '.' !in Print(n) && '\0' !in Print(n)
  {
    assert !IsDigit(' ') && !IsDigit('.') && !IsDigit('\0');
  }

  lemma OctetPrints(n: Byte)
    ensures IsOctet(Print(n)) && Value(Print(n)) == n && '.' !in Print(n)
  {
    ValueOfPrint(n);
    PowersOfTen();
    PrintLength(n, 3);
    NoSpaceInDigits(n);
  }

  lemma SplitAtSeparator(t: string, c: char, rest: string)
    requires c !in t
    ensures Split(t + ([c] + rest), c) == [t] + Split(rest, c)
  {
    hide Before;
    BeforeSeparator(t, c, rest);
  }

  lemma SplitNothing(t: string, c: char)
    requires c !in t
    ensures Split(t, c) == [t]
  {
    hide Before;
    BeforeNothing(t, c);
  }

  lemma AddressRoundTrip(a: Byte, b: Byte, c: Byte, d: Byte)
    ensures ParseIPv4(PrintAddress(a, b, c, d)) == Some(IPv4(a, b, c, d))
  {
    hide Print, Value, IsOctet, Split;
    OctetPrints(a);
    OctetPrints(b);
    OctetPrints(c);
    OctetPrints(d);
    var s2 := Print(c) + (['.'] + Print(d));
    var s1 := Print(b) + (['.'] + s2);
    assert "." == ['.'];
    SplitAtSeparator(Print(a), '.', s1);
    SplitAtSeparator(Print(b), '.', s2);
    SplitAtSeparator(Print(c), '.', Print(d));
    SplitNothing(Print(d), '.');
  }

  lemma BeforeNothing(t: string, c: char)
    requires c !in t
    ensures Before(t, c) == t
  {
    assert t[..|t|] == t;
    BeforeIs(t, c, |t|);
  }

  lemma AddressText(a: Byte, b: Byte, c: Byte, d: Byte)
    ensures var s := PrintAddress(a, b, c, d); |s| <= 15 && ' ' !in s && '\0' !in s
  {
    hide Print;
    PowersOfTen();
    PrintLength(a, 3);
    PrintLength(b, 3);
    PrintLength(c, 3);
    PrintLength(d, 3);
    NoSpaceInDigits(a);
    NoSpaceInDigits(b);
    NoSpaceInDigits(c);
    NoSpaceInDigits(d);
  }

  lemma Literals(x: string)
    ensures " 1 udp " + x == " " + ("1" + (" " + ("udp" + (" " + x))))
    ensures " typ " + x == " " + ("typ" + (" " + x))
  {
  }

  lemma EightTokens(f0: string, f1: string, f2: string, f3: string, f4: string, f5: string, f6: string, f7: string,
                    rest: string)
    requires ' ' !in f0 && ' ' !in f1 && ' ' !in f2 && ' ' !in f3
    requires ' ' !in f4 && ' ' !in f5 && ' ' !in f6 && ' ' !in f7
    ensures Tokens(f0 + (" " + (f1 + (" " + (f2 + (" " + (f3 + (" "
                   + (f4 + (" " + (f5 + (" " + (f6 + (" " + (f7 + (" " + rest))))))))))))))))
            == [f0, f1, f2, f3, f4, f5, f6, f7] + Tokens(rest)
  {
    hide Tokens;
    var r7 := f7 + (" " + rest);
    var r6 := f6 + (" " + r7);
    var r5 := f5 + (" " + r6);
    var r4 := f4 + (" " + r5);
    var r3 := f3 + (" " + r4);
    var r2 := f2 + (" " + r3);
    var r1 := f1 + (" " + r2);
    FirstToken(f7, rest);
    FirstToken(f6, r7);
    FirstToken(f5, r6);
    FirstToken(f4, r5);
    FirstToken(f3, r4);
    FirstToken(f2, r3);
    FirstToken(f1, r2);
    FirstToken(f0, r1);
  }

  function Fields(index: Word, priority: Word, a: Byte, b: Byte, c: Byte, d: Byte, port: Port, t: Type): seq<string> {
    ["candidate:" + Print(index), "1", "udp", Print(priority), PrintAddress(a, b, c, d), Print(port), "typ",
     TypeString(t)]
  }

  lemma NoSpaces(index: Word, t: Type)
    ensures ' ' !in "candidate:" + Print(index) && ' ' !in "1" && ' ' !in "udp" && ' ' !in "typ"
    ensures ' ' !in TypeString(t)
  {
    hide Print;
    NoSpaceInDigits(index);
  }

  /** The eight tokens the parser looks at, and what follows them. */
  lemma LineTokens(index: Word, priority: Word, a: Byte, b: Byte, c: Byte, d: Byte, port: Port, t: Type)
    ensures Tokens(PrintCandidate(index, priority, a, b, c, d, port, t)) ==
            Fields(index, priority, a, b, c, d, port, t) + Tokens(TAIL)
  {
    hide Print, PrintAddress, Tokens, TypeString;
    var x := TypeString(t) + (" " + TAIL);
    Literals(x);
    Literals(Print(priority) + (" " + (PrintAddress(a, b, c, d) + (" " + (Print(port) + (" typ " + x))))));
    NoSpaces(index, t);
    NoSpaceInDigits(priority);
    NoSpaceInDigits(port);
    AddressText(a, b, c, d);
    EightTokens("candidate:" + Print(index), "1", "udp", Print(priority), PrintAddress(a, b, c, d), Print(port), "typ",
                TypeString(t), TAIL);
  }

  lemma CutProtocol(p: string)
    requires p <= "udp"
    ensures ' ' !in p && ParseProtocol(p) == Some(if p == "" then Tcp else Udp)
  {
    assert forall k :: 0 <= k < |p| ==> p[k] == "udp"[k];
    AgreesIsPrefix(p, "tcp");
    AgreesIsPrefix(p, "TCP");
    AgreesIsPrefix(p, "udp");
    assert "udp"[0] == 'u' && "tcp"[0] == 't' && "TCP"[0] == 'T';
  }

  lemma KnownTokens(t: Type)
    ensures ParseProtocol("udp") == Some(Udp) && Agrees("typ", "typ") && ParseType(TypeString(t)) == Some(t)
  {
    CutProtocol("udp");
    AgreesIsPrefix("typ", "typ");
    AgreesIsPrefix(TypeString(t), "host");
    AgreesIsPrefix(TypeString(t), "srflx");
    AgreesIsPrefix(TypeString(t), "prflx");
    AgreesIsPrefix(TypeString(t), "relay");
  }

  /** Parsing the printed line gives back the priority, the address, the port and the type, over UDP,
      whatever the candidate structure held before. */
  lemma RoundTrip(index: Word, priority: Word, a: Byte, b: Byte, c: Byte, d: Byte, port: Port, t: Type,
                  before: Candidate, ipv6: IPv6Parser)
    ensures Parse(PrintCandidate(index, priority, a, b, c, d, port, t), before, ipv6) ==
            (NoError, Candidate(Udp, priority, IPv4(a, b, c, d), port, t))
  {
    hide Print, PrintAddress, Tokens, TypeString, PrintCandidate;
    hide ParseFrom, ParseProtocol, ParseType, Agrees, Read, Before;
    LineTokens(index, priority, a, b, c, d, port, t);
    KnownTokens(t);
    ReadPrint(priority);
    ReadPrint(port);
    AddressParses(a, b, c, d, ipv6);
    TokensParse(Fields(index, priority, a, b, c, d, port, t), Tokens(TAIL), before,
                Candidate(Udp, priority, IPv4(a, b, c, d), port, t), ipv6);
  }

  lemma AddressParses(a: Byte, b: Byte, c: Byte, d: Byte, ipv6: IPv6Parser)
    ensures ParseAddress(PrintAddress(a, b, c, d), ipv6) == (NoError, Some(IPv4(a, b, c, d)))
  {
    hide PrintAddress, ParseIPv4, Before;
    AddressText(a, b, c, d);
    AddressRoundTrip(a, b, c, d);
    BeforeNothing(PrintAddress(a, b, c, d), '\0');
  }

  /** Tokens past the eighth change nothing. */
  lemma {:induction false} RestIsIgnored(k: nat, tokens: seq<string>, c: Candidate, ipv6: IPv6Parser)
    requires k > 7
    ensures ParseFrom(k, tokens, c, ipv6) == (NoError, c)
    decreases |tokens|
  {
    if tokens != [] {
      RestIsIgnored(k + 1, tokens[1..], c, ipv6);
    }
  }

  predicate TokenOk(k: nat, token: string, ipv6: IPv6Parser) {
    match k
    case 2 => ParseProtocol(token).Some?
    case 3 => Read(token).Some?
    case 4 => ParseAddress(token, ipv6).0.NoError?
    case 5 => Read(token).Some?
    case 6 => |token| == 3 && Agrees(token, "typ")
    case 7 => ParseType(token).Some?
    case _ => true
  }

  lemma TokenOkIff(k: nat, token: string, c: Candidate, ipv6: IPv6Parser)
    ensures ParseToken(k, token, c, ipv6).0.NoError? <==> TokenOk(k, token, ipv6)
  {
    hide Agrees, Read, ParseAddress, ParseProtocol, ParseType;
  }

  /** The parser accepts exactly the lines of at least eight tokens whose fields are all good, and
      names the reason only when the type is bad: any other defect is a lack of an element. */
  lemma {:induction false} AcceptedIff(k: nat, tokens: seq<string>, c: Candidate, ipv6: IPv6Parser)
    requires k <= 8
    ensures var e := ParseFrom(k, tokens, c, ipv6).0;
      && (e == NoError <==>
          k + |tokens| >= 8 && forall j :: 0 <= j < |tokens| && k + j <= 7 ==> TokenOk(k + j, tokens[j], ipv6))
      && e in {NoError, InvalidType, LackOfElement}
    decreases |tokens|
  {
    hide ParseToken, TokenOk;
    if tokens != [] {
      TokenOkIff(k, tokens[0], c, ipv6);
      var (e, c') := ParseToken(k, tokens[0], c, ipv6);
      assert forall j :: 0 < j < |tokens| ==> tokens[j] == tokens[1..][j - 1];
      if k == 8 {
        NeverFails(tokens[0], c, ipv6);
        RestIsIgnored(9, tokens[1..], c', ipv6);
      } else if e.NoError? {
        AcceptedIff(k + 1, tokens[1..], c', ipv6);
        forall j | 0 < j < |tokens| && k + j <= 7
          ensures TokenOk(k + j, tokens[j], ipv6) == TokenOk(k + 1 + (j - 1), tokens[1..][j - 1], ipv6)
        {
        }
      } else {
        SeventhError(k, tokens[0], c, ipv6);
      }
    }
  }

  /** A defect leaves in the structure what the tokens before it have stored there, and what comes behind it
      is not looked at. */
  lemma {:induction false} StoredUpToDefect(k: nat, good: seq<string>, bad: string, rest: seq<string>, c: Candidate,
                                            ipv6: IPv6Parser)
    requires forall j :: 0 <= j < |good| ==> TokenOk(k + j, good[j], ipv6)
    requires !TokenOk(k + |good|, bad, ipv6)
    ensures ParseFrom(k, good + [bad] + rest, c, ipv6).1 == ParseFrom(k, good, c, ipv6).1
    decreases |good|
  {
    hide ParseToken, TokenOk;
    if good == [] {
      assert good + [bad] + rest == [bad] + rest && ([bad] + rest)[1..] == rest;
      TokenOkIff(k, bad, c, ipv6);
      DefectStoresNothing(k, bad, c, ipv6);
    } else {
      var c' := ParseToken(k, good[0], c, ipv6).1;
      TokenOkIff(k, good[0], c, ipv6);
      assert TokenOk(k + 0, good[0], ipv6);
      assert (good + [bad] + rest)[1..] == good[1..] + [bad] + rest;
      forall j | 0 <= j < |good[1..]| ensures TokenOk(k + 1 + j, good[1..][j], ipv6) {
        assert TokenOk(k + (j + 1), good[j + 1], ipv6);
      }
      StoredUpToDefect(k + 1, good[1..], bad, rest, c', ipv6);
    }
  }

  lemma DefectStoresNothing(k: nat, token: string, c: Candidate, ipv6: IPv6Parser)
    requires ParseToken(k, token, c, ipv6).0 != NoError
    ensures ParseToken(k, token, c, ipv6).1 == c
  {
    hide Agrees, Read, ParseProtocol, ParseType;
  }

  lemma NeverFails(token: string, c: Candidate, ipv6: IPv6Parser)
    ensures ParseToken(8, token, c, ipv6).0 == NoError
  {
  }

  lemma SeventhError(k: nat, token: string, c: Candidate, ipv6: IPv6Parser)
    ensures k == 7 ==> ParseToken(k, token, c, ipv6).0 in {NoError, InvalidType}
  {
  }

  /** A line is read as a candidate when each of the six fields is. */
  lemma TokensParse(f: seq<string>, rest: seq<string>, before: Candidate, c: Candidate, ipv6: IPv6Parser)
    requires |f| == 8
    requires ParseProtocol(f[2]) == Some(c.protocol)
    requires Read(f[3]) == Some(c.priority)
    requires ParseAddress(f[4], ipv6) == (NoError, Some(c.address))
    requires Read(f[5]).Some? && Read(f[5]).value % 0x10000 == c.port
    requires |f[6]| == 3 && Agrees(f[6], "typ")
    requires ParseType(f[7]) == Some(c.kind)
    ensures ParseFrom(0, f + rest, before, ipv6) == (NoError, c)
  {
    hide ParseFrom, ParseProtocol, ParseType, ParseAddress, Agrees, Read;
    var c2 := before.(protocol := c.protocol);
    var c3 := c2.(priority := c.priority);
    var c4 := c3.(address := c.address);
    var c5 := c4.(port := c.port);
    RestIsIgnored(8, rest, c, ipv6);
    ParseStep(7, f, rest, c5, c, ipv6);
    ParseStep(6, f, rest, c5, c5, ipv6);
    ParseStep(5, f, rest, c4, c5, ipv6);
    ParseStep(4, f, rest, c3, c4, ipv6);
    ParseStep(3, f, rest, c2, c3, ipv6);
    ParseStep(2, f, rest, before, c2, ipv6);
    ParseStep(1, f, rest, before, before, ipv6);
    ParseStep(0, f, rest, before, before, ipv6);
    assert f[0..] + rest == f + rest && f[8..] + rest == rest;
  }

  lemma ParseStep(k: nat, f: seq<string>, rest: seq<string>, c: Candidate, c': Candidate, ipv6: IPv6Parser)
    requires k < |f| && ParseToken(k, f[k], c, ipv6) == (NoError, c')
    ensures ParseFrom(k, f[k..] + rest, c, ipv6) == ParseFrom(k + 1, f[k + 1..] + rest, c', ipv6)
  {
    assert (f[k..] + rest)[0] == f[k] && (f[k..] + rest)[1..] == f[k + 1..] + rest;
  }

  // ---------- Names cut short ----------

  /** The line of a candidate, with any strings for the names of the protocol and of the type. */
  function NamedLine(p: string, priority: Word, a: Byte, b: Byte, c: Byte, d: Byte, port: Port, q: string): string {
    "candidate:0" + (" " + ("1" + (" " + (p + (" " + (Print(priority) + (" " + (PrintAddress(a, b, c, d)
      + (" " + (Print(port) + (" " + ("typ" + (" " + (q + (" " + TAIL)))))))))))))))
  }

  lemma CutType(q: string)
    requires q <= "relay"
    ensures ' ' !in q && ParseType(q) == Some(if q == "" then Host else Relay)
  {
    assert forall k :: 0 <= k < |q| ==> q[k] == "relay"[k];
    AgreesIsPrefix(q, "host");
    AgreesIsPrefix(q, "srflx");
    AgreesIsPrefix(q, "prflx");
    AgreesIsPrefix(q, "relay");
    assert "relay"[0] == 'r' && "host"[0] == 'h' && "srflx"[0] == 's' && "prflx"[0] == 'p';
  }

  /** A line whose protocol is any prefix of "udp" and whose type is any prefix of "relay" is accepted.
      An empty protocol is read as TCP, an empty type as host. */
  lemma PrefixesAreAccepted(p: string, priority: Word, a: Byte, b: Byte, c: Byte, d: Byte, port: Port, q: string,
                            before: Candidate, ipv6: IPv6Parser)
    requires p <= "udp" && q <= "relay"
    ensures Parse(NamedLine(p, priority, a, b, c, d, port, q), before, ipv6) ==
            (NoError, Candidate(if p == "" then Tcp else Udp, priority, IPv4(a, b, c, d), port,
                                if q == "" then Host else Relay))
  {
    hide Print, PrintAddress, Tokens, ParseFrom, ParseProtocol, ParseType, Agrees, Read, Before;
    CutProtocol(p);
    CutType(q);
    NoSpaceInDigits(priority);
    NoSpaceInDigits(port);
    AddressText(a, b, c, d);
    NoSpaces(0, Host);
    EightTokens("candidate:0", "1", p, Print(priority), PrintAddress(a, b, c, d), Print(port), "typ", q, TAIL);
    KnownTokens(Host);
    ReadPrint(priority);
    ReadPrint(port);
    AddressParses(a, b, c, d, ipv6);
    TokensParse(["candidate:0", "1", p, Print(priority), PrintAddress(a, b, c, d), Print(port), "typ", q], Tokens(TAIL),
                before, Candidate(if p == "" then Tcp else Udp, priority, IPv4(a, b, c, d), port,
                                  if q == "" then Host else Relay), ipv6);
  }

  // ---------- In place ----------

  method MemChr(s: string, from: nat, c: char) returns (i: nat)
    requires from <= |s|
    ensures from <= i <= |s| && s[from..i] == Before(s[from..], c)
  {
    i := from;
    while i < |s| && s[i] != c
      invariant from <= i <= |s| && forall j :: from <= j < i ==> s[j] != c
    {
      i := i + 1;
    }
    assert s[from..][..i - from] == s[from..i];
    BeforeIs(s[from..], c, i - from);
  }

  /** The tokens of a line from a position on; past the end there are none. */
  function TokensAt(line: string, from: nat): seq<string> {
    if from <= |line| then Tokens(line[from..]) else []
  }

  lemma NextToken(line: string, from: nat, next: nat)
    requires from < |line| && from <= next <= |line| && line[from..next] == Before(line[from..], ' ')
    ensures TokensAt(line, from) == [line[from..next]] + TokensAt(line, next + 1)
  {
    if next < |line| {
      assert line[from..][next - from + 1..] == line[next + 1..];
    }
  }

  /** The switch over the state of the parser. */
  method StoreToken(state: nat, token: string, before: Candidate, ipv6: IPv6Parser) returns (ret: Error, c: Candidate)
    ensures (ret, c) == ParseToken(state, token, before, ipv6)
    ensures state > 7 ==> ret == NoError
  {
    ret, c := NoError, before;
    if state == 2 {
      if Agrees(token, "tcp") || Agrees(token, "TCP") {
        c := c.(protocol := Tcp);
      } else if Agrees(token, "udp") || Agrees(token, "UDP") {
        c := c.(protocol := Udp);
      } else {
        ret := InvalidProtocol;
      }
    } else if state == 3 {
      var priority := ConvertStringToUl(token);
      if priority.Some? {
        c := c.(priority := priority.value);
      } else {
        ret := InvalidPriority;
      }
    } else if state == 4 {
      var (e, a) := ParseAddress(token, ipv6);
      ret := e;
      if a.Some? {
        c := c.(address := a.value);
      }
    } else if state == 5 {
      var port := ConvertStringToUl(token);
      if port.Some? {
        c := c.(port := port.value % 0x10000);
      } else {
        ret := InvalidPort;
      }
    } else if state == 6 {
      if |token| != 3 || !Agrees(token, "typ") {
        ret := InvalidTypeId;
      }
    } else if state == 7 {
      if Agrees(token, "host") {
        c := c.(kind := Host);
      } else if Agrees(token, "srflx") {
        c := c.(kind := ServerReflexive);
      } else if Agrees(token, "prflx") {
        c := c.(kind := PeerReflexive);
      } else if Agrees(token, "relay") {
        c := c.(kind := Relay);
      } else {
        ret := InvalidType;
      }
    }
  }

  lemma ParseUnfolds(k: nat, token: string, rest: seq<string>, c: Candidate, ipv6: IPv6Parser)
    ensures var (e, c') := ParseToken(k, token, c, ipv6);
      ParseFrom(k, [token] + rest, c, ipv6) ==
      if e.NoError? then ParseFrom(k + 1, rest, c', ipv6) else (if k == 7 then e else LackOfElement, c')
  {
    hide ParseToken;
    assert ([token] + rest)[1..] == rest;
  }

  lemma ParseReadsTokens(line: string, c: Candidate, ipv6: IPv6Parser)
    ensures Parse(line, c, ipv6) == ParseFrom(0, TokensAt(line, 0), c, ipv6)
  {
    hide ParseFrom, Tokens;
    assert line[0..] == line;
  }

  /** The token at a position goes to the switch over the state; next is where the token behind it begins. */
  method ReadToken(line: string, curr: nat, state: nat, before: Candidate, ipv6: IPv6Parser)
    returns (ret: Error, c: Candidate, next: nat)
    requires curr < |line|
    ensures curr < next <= |line| + 1
    ensures ParseFrom(state, TokensAt(line, curr), before, ipv6) ==
            if ret == NoError then ParseFrom(state + 1, TokensAt(line, next), c, ipv6)
            else (if state == 7 then ret else LackOfElement, c)
    ensures state > 7 ==> ret == NoError
  {
    hide ParseToken, ParseFrom, TokensAt, Before;
    var end := MemChr(line, curr, ' ');
    NextToken(line, curr, end);
    ret, c := StoreToken(state, line[curr..end], before, ipv6);
    ParseUnfolds(state, line[curr..end], TokensAt(line, end + 1), before, ipv6);
    next := end + 1;
  }

  /** The parsing loop over the text of the candidate. The structure keeps what was stored in it even
      when the parse fails. */
  method DeserializeIceCandidate(line: string, before: Candidate, ipv6: IPv6Parser) returns (ret: Error, c: Candidate)
    ensures (ret, c) == Parse(line, before, ipv6)
  {
    hide Parse, ParseFrom, TokensAt;
    c, ret := before, NoError;
    var curr: nat, state: nat, isAllElementsParsed := 0, 0, false;
    ParseReadsTokens(line, before, ipv6);
    while ret == NoError && curr < |line| && state <= 8
      invariant curr <= |line| + 1 && state <= 9
      invariant ret == NoError ==> isAllElementsParsed == (state > 7)
      invariant ret == NoError ==> ParseFrom(state, TokensAt(line, curr), c, ipv6) == Parse(line, before, ipv6)
      invariant ret != NoError ==>
        Parse(line, before, ipv6) == (if isAllElementsParsed then ret else LackOfElement, c)
      decreases |line| + 1 - curr
    {
      ret, c, curr := ReadToken(line, curr, state, c, ipv6);
      if state == 7 {
        isAllElementsParsed := true;
      }
      state := state + 1;
    }
    LastTokens(line, curr, state, c, ipv6);
    if !isAllElementsParsed {
      ret := LackOfElement;
    }
  }

  lemma LastTokens(line: string, from: nat, k: nat, c: Candidate, ipv6: IPv6Parser)
    ensures from >= |line| && k <= 7 ==> ParseFrom(k, TokensAt(line, from), c, ipv6) == (LackOfElement, c)
    ensures k > 7 ==> ParseFrom(k, TokensAt(line, from), c, ipv6) == (NoError, c)
  {
    if k > 7 {
      RestIsIgnored(k, TokensAt(line, from), c, ipv6);
    }
  }
}
