/** Which socket context is nominated, when the connection is announced as found, and which packets
are handed up, while ICE may be started anew at any moment.

One listener thread receives packets; another thread may start the controller between any two of its
steps. A step is what happens without a chance for the other thread: reading the nominated context, the
section under the socket mutex, the found callback, the hand-over of a packet. */
module Nomination {
  import opened Wrappers

  type Context = nat

  type Pair = nat

  datatype CandidateType = Host | ServerReflexive | PeerReflexive | Relay

  datatype Code = Ok | FoundConnection | ConnectionClosed | InvalidPacket | BadParameter | OtherFailure

  /** A received packet by its first byte, with what the ICE library says of a STUN packet. */
  datatype Kind = NonStun | Stun(result: Code) | Unknown

  /** turn: the pair a TURN header leads to; lookup: the pair of the two endpoints. */
  datatype Packet = Packet(kind: Kind, local: CandidateType, turn: Option<Pair>, lookup: Option<Pair>)

  /** Where the listener is. deliver: the packet is handed up afterwards. */
  datatype Place = Idle | Nominating(c: Context, q: Pair, deliver: bool) | Announcing(c: Context, deliver: bool)
                 | Delivering(c: Context)

  /** A packet handed up: the context it came from, the nominated one then, and whether the
      controller was started since the listener last compared or set it. */
  datatype Delivery = Delivery(c: Context, nominated: Option<Context>, restarted: bool)

  /** ret and pair are the variables of the receive loop that survive from packet to packet. decided
      and announced count since the last start; late: an announcement was on its way at that start. */
  datatype System = System(nominated: Option<Context>, pairs: map<Context, Pair>, place: Place,
                           ret: Code, pair: Option<Pair>, decided: nat, announced: nat, late: bool,
                           restarted: bool, deliveries: seq<Delivery>)

  datatype Action = Arrive(from: Context, packet: Packet) | EndCall | Nominate | Announce | Deliver | StartController

  /** The pair to nominate: a host or server-reflexive context must bring none and have one found, any
      other must bring one. */
  function Resolve(local: CandidateType, pair: Option<Pair>, lookup: Option<Pair>): (Code, Option<Pair>) {
    if local.Host? || local.ServerReflexive? then
      if pair.Some? then (BadParameter, None)
      else if lookup.None? then (InvalidPacket, None)
      else (Ok, lookup)
    else if pair.None? then (BadParameter, None)
    else (Ok, pair)
  }

  /** One packet of the receive loop, up to the mutex if it comes to that. */
  function Receive(s: System, c: Context, p: Packet): System {
    var pair := if p.local.Relay? && p.turn.Some? then p.turn else s.pair;
    var s1 := s.(pair := pair, restarted := false);
    var (code, q) := Resolve(p.local, pair, p.lookup);
    match p.kind
    case NonStun =>
      if s.nominated == Some(c) then
        if s.ret.Ok? then s1.(place := Delivering(c)) else s1
      else if code.Ok? then
        s1.(ret := Ok, place := Nominating(c, q.value, true))
      else
        s1.(ret := code)
    case Stun(result) =>
      if result.FoundConnection? && s.nominated.None? then
        if code.Ok? then s1.(ret := result, place := Nominating(c, q.value, false)) else s1.(ret := result)
      else if result.ConnectionClosed? then
        s1.(ret := Ok, pair := None)
      else
        s1.(ret := result)
    case Unknown => s1
  }

  function Step(s: System, a: Action): System {
    match a
    case Arrive(c, p) =>
      if s.place.Idle? then Receive(s, c, p) else s
    case EndCall =>
      if s.place.Idle? then s.(ret := Ok, pair := None) else s
    case Nominate =>
      if s.place.Nominating? then
        var c, d := s.place.c, s.place.deliver;
        var s1 := s.(nominated := Some(c), pairs := s.pairs[c := s.place.q], restarted := false);
        if s.nominated.None? || s.nominated.value !in s.pairs then
          s1.(decided := s.decided + 1, place := Announcing(c, d))
        else
          s1.(place := if d then Delivering(c) else Idle)
      else
        s
    case Announce =>
      if s.place.Announcing? then
        s.(announced := s.announced + 1, place := if s.place.deliver then Delivering(s.place.c) else Idle)
      else
        s
    case Deliver =>
      if s.place.Delivering? then
        s.(place := Idle, deliveries := s.deliveries + [Delivery(s.place.c, s.nominated, s.restarted)])
      else
        s
    case StartController =>
      s.(nominated := None, decided := 0, announced := 0, late := s.place.Announcing?, restarted := true)
  }

  function Run(s: System, actions: seq<Action>): System
    decreases |actions|
  {
    if actions == [] then s else Run(Step(s, actions[0]), actions[1..])
  }

  const FRESH := System(None, map[], Idle, Ok, None, 0, 0, false, false, [])

  // ---------- Safety over all runs ----------

  ghost predicate Inv(s: System) {
    && (s.nominated.Some? ==> s.nominated.value in s.pairs)
    && s.decided == (if s.nominated.Some? then 1 else 0)
    && s.announced + (if s.place.Announcing? then 1 else 0) == s.decided + (if s.late then 1 else 0)
    && (s.place.Announcing? || s.place.Delivering? ==> (s.nominated == Some(s.place.c) <==> !s.restarted))
    && (forall d :: d in s.deliveries ==> (d.nominated == Some(d.c) <==> !d.restarted))
  }

  lemma ReceiveKeepsInv(s: System, c: Context, p: Packet)
    requires Inv(s) && s.place.Idle?
    ensures Inv(Receive(s, c, p))
  {
    hide Resolve;
  }

  lemma DeliverKeepsInv(s: System)
    requires Inv(s) && s.place.Delivering?
    ensures Inv(Step(s, Deliver))
  {
    var d := Delivery(s.place.c, s.nominated, s.restarted);
    assert d.nominated == Some(d.c) <==> !d.restarted;
  }

  lemma StepKeepsInv(s: System, a: Action)
    requires Inv(s)
    ensures Inv(Step(s, a))
  {
    hide Receive;
    if a.Arrive? && s.place.Idle? {
      ReceiveKeepsInv(s, a.from, a.packet);
    } else if a.Deliver? && s.place.Delivering? {
      DeliverKeepsInv(s);
    }
  }

  lemma {:induction false} RunKeepsInv(s: System, actions: seq<Action>)
    requires Inv(s)
    ensures Inv(Run(s, actions))
    decreases |actions|
  {
    if actions != [] {
      StepKeepsInv(s, actions[0]);
      RunKeepsInv(Step(s, actions[0]), actions[1..]);
    }
  }

  /** Under any packets and any starts. Since the last start the connection was decided to be found
      exactly once if a context is nominated and never otherwise; the announcements made and the one on
      its way add up to that decision and the one that was on its way at the start. The nominated
      context has a pair. A packet is handed up while its context is nominated, except for a start that
      fell between the check and the hand-over. */
  lemma NominationIsSafe(actions: seq<Action>)
    ensures var s := Run(FRESH, actions);
      && s.decided == (if s.nominated.Some? then 1 else 0)
      && s.announced + (if s.place.Announcing? then 1 else 0) == s.decided + (if s.late then 1 else 0)
      && (s.nominated.Some? ==> s.nominated.value in s.pairs)
      && (forall d :: d in s.deliveries ==> (d.nominated == Some(d.c) <==> !d.restarted))
  {
    RunKeepsInv(FRESH, actions);
  }

  /** Two found events come in one epoch exactly when an announcement was on its way at the start, a
      context has been nominated since, and neither announcement is still to be made. */
  lemma AnnouncedTwiceIff(actions: seq<Action>)
    ensures var s := Run(FRESH, actions);
      && s.announced <= 2
      && (s.announced == 2 <==> s.late && s.nominated.Some? && !s.place.Announcing?)
  {
    RunKeepsInv(FRESH, actions);
  }

  function Steps(s: System, a: Action, b: Action, c: Action, d: Action): System {
    Step(Step(Step(Step(s, a), b), c), d)
  }

  lemma {:induction false} RunConcat(s: System, first: seq<Action>, second: seq<Action>)
    ensures Run(s, first + second) == Run(Run(s, first), second)
    decreases |first|
  {
    if first == [] {
      assert first + second == second;
    } else {
      assert (first + second)[1..] == first[1..] + second;
      RunConcat(Step(s, first[0]), first[1..], second);
    }
  }

  lemma RunFour(s: System, a: Action, b: Action, c: Action, d: Action)
    ensures Run(s, [a, b, c, d]) == Steps(s, a, b, c, d)
  {
    hide Step;
    assert [a, b, c, d][1..] == [b, c, d] && [b, c, d][1..] == [c, d] && [c, d][1..] == [d] && [d][1..] == [];
    var s2 := Step(Step(s, a), b);
    assert Run(s2, [c, d]) == Run(Step(s2, c), [d]);
    assert Run(Step(s2, c), [d]) == Run(Step(Step(s2, c), d), []);
    assert Run(s, [a, b, c, d]) == Run(Step(s, a), [b, c, d]);
  }

  /** A run that does it: the controller is started after the decision and before the callback, and the
      next packet of the same context is announced again. */
  lemma AnnouncedTwice(q: Pair)
    ensures var media := Packet(NonStun, Host, None, Some(q));
      Run(FRESH, [Arrive(0, media), Nominate, StartController, Announce]
                 + [Deliver, Arrive(0, media), Nominate, Announce]).announced == 2
  {
    var arrive := Arrive(0, Packet(NonStun, Host, None, Some(q)));
    var first, second := [arrive, Nominate, StartController, Announce], [Deliver, arrive, Nominate, Announce];
    RunConcat(FRESH, first, second);
    RunFour(FRESH, arrive, Nominate, StartController, Announce);
    RunFour(Run(FRESH, first), Deliver, arrive, Nominate, Announce);
  }

  /** The deliveries since a point of the run all came from the nominated context. */
  ghost predicate CleanSince(s: System, from: nat) {
    && from <= |s.deliveries|
    && forall k :: from <= k < |s.deliveries| ==> s.deliveries[k].nominated == Some(s.deliveries[k].c)
  }

  lemma StepStaysClean(s: System, a: Action, from: nat)
    requires Inv(s) && a != StartController && !s.late && (s.place.Idle? || !s.restarted) && CleanSince(s, from)
    ensures var s' := Step(s, a);
      !s'.late && (s'.place.Idle? || !s'.restarted) && CleanSince(s', from)
  {
  }

  lemma {:induction false} RunStaysClean(s: System, actions: seq<Action>, from: nat)
    requires Inv(s) && StartController !in actions && !s.late && (s.place.Idle? || !s.restarted) && CleanSince(s, from)
    ensures var s' := Run(s, actions);
      Inv(s') && !s'.late && CleanSince(s', from)
    decreases |actions|
  {
    hide Step, Inv, CleanSince;
    if actions != [] {
      StepKeepsInv(s, actions[0]);
      StepStaysClean(s, actions[0], from);
      RunStaysClean(Step(s, actions[0]), actions[1..], from);
    }
  }

  /** One epoch: after a start that found the listener idle, and up to the next start, the found event
      fires at most once, whatever happened before, and every packet handed up comes from the nominated
      context. */
  lemma EpochIsSafe(before: seq<Action>, actions: seq<Action>)
    requires Run(FRESH, before).place.Idle? && StartController !in actions
    ensures var s0 := Run(FRESH, before);
      var s := Run(Step(s0, StartController), actions);
      && s.announced == (if s.nominated.Some? && !s.place.Announcing? then 1 else 0)
      && CleanSince(s, |s0.deliveries|)
  {
    var s0 := Run(FRESH, before);
    RunKeepsInv(FRESH, before);
    StepKeepsInv(s0, StartController);
    RunStaysClean(Step(s0, StartController), actions, |s0.deliveries|);
  }

  // ---------- The gate ----------

  /** One packet with no start in between. */
  function Handle(s: System, c: Context, p: Packet): System {
    Step(Step(Step(Step(s, Arrive(c, p)), Nominate), Announce), Deliver)
  }

  /** What the mutex section and the announcement make of a nomination. */
  function Nominated(s: System, c: Context, q: Pair): System {
    var first := if s.nominated.None? || s.nominated.value !in s.pairs then 1 else 0;
    s.(nominated := Some(c), pairs := s.pairs[c := q], decided := s.decided + first, announced := s.announced + first)
  }

  function PairFor(s: System, p: Packet): Option<Pair> {
    if p.local.Relay? && p.turn.Some? then p.turn else s.pair
  }

  function HandedUp(s: System, c: Context): System {
    s.(deliveries := s.deliveries + [Delivery(c, Some(c), false)])
  }

  /** A packet that is not STUN, with no start in between: it is handed up exactly when its context is
      nominated and no earlier packet of the call left a code behind, or when its context can be
      nominated now. */
  lemma NonStunGate(s: System, c: Context, p: Packet)
    requires s.place.Idle? && p.kind.NonStun?
    ensures var s1 := s.(pair := PairFor(s, p), restarted := false);
      var (code, q) := Resolve(p.local, PairFor(s, p), p.lookup);
      Handle(s, c, p) ==
        if s.nominated == Some(c) then if s.ret.Ok? then HandedUp(s1, c) else s1
        else if code.Ok? then HandedUp(Nominated(s1.(ret := Ok), c, q.value), c)
        else s1.(ret := code)
  {
    hide Resolve;
  }

  lemma StunGate(s: System, c: Context, p: Packet)
    requires s.place.Idle? && p.kind.Stun?
    ensures var s1 := s.(pair := PairFor(s, p), restarted := false, ret := p.kind.result);
      var (code, q) := Resolve(p.local, PairFor(s, p), p.lookup);
      Handle(s, c, p) ==
        if p.kind.result.FoundConnection? && s.nominated.None? && code.Ok? then Nominated(s1, c, q.value)
        else if p.kind.result.ConnectionClosed? then s1.(ret := Ok, pair := None)
        else s1
  {
    hide Resolve;
  }

  lemma UnknownPasses(s: System, c: Context, p: Packet)
    requires s.place.Idle? && p.kind.Unknown?
    ensures Handle(s, c, p) == s.(pair := PairFor(s, p), restarted := false)
  {
  }

  /** A packet that makes the listener nominate its context: any media packet of a context that is not the
      nominated one, or a STUN packet that found the connection while none is nominated. */
  predicate Asks(s: System, c: Context, p: Packet) {
    || (p.kind.NonStun? && s.nominated != Some(c))
    || (p.kind == Stun(FoundConnection) && s.nominated.None?)
  }

  /** The nomination goes through with this pair, and a media packet is handed up. */
  ghost predicate NominatedWith(s: System, s': System, c: Context, p: Packet, q: Pair) {
    && s'.nominated == Some(c) && s'.pairs == s.pairs[c := q] && s'.place.Idle?
    && s'.deliveries == s.deliveries + (if p.kind.NonStun? then [Delivery(c, Some(c), false)] else [])
    && s'.ret == if p.kind.NonStun? then Ok else FoundConnection
  }

  /** The nomination is refused, and nothing is handed up. */
  ghost predicate RefusedWith(s: System, s': System, p: Packet, code: Code) {
    && s'.nominated == s.nominated && s'.pairs == s.pairs && s'.place.Idle?
    && s'.deliveries == s.deliveries && s'.announced == s.announced
    && s'.ret == if p.kind.NonStun? then code else FoundConnection
  }

  /** A host or server-reflexive context is nominated exactly when no pair is left over from an earlier
      packet of the call and the lookup finds one: with the one found. */
  lemma HostNominatesIff(s: System, c: Context, p: Packet)
    requires s.place.Idle? && Asks(s, c, p) && (p.local.Host? || p.local.ServerReflexive?)
    ensures var s' := Handle(s, c, p);
      && s'.pair == s.pair
      && if s.pair.None? && p.lookup.Some? then NominatedWith(s, s', c, p, p.lookup.value)
         else RefusedWith(s, s', p, if s.pair.Some? then BadParameter else InvalidPacket)
  {
    hide Handle;
    if p.kind.NonStun? {
      NonStunGate(s, c, p);
    } else {
      StunGate(s, c, p);
    }
  }

  /** A relay or peer-reflexive context is nominated exactly when there is a pair: the one the TURN header
      of a relayed packet leads to, or else the one left over. Either stays for the next packet. */
  lemma RelayNominatesIff(s: System, c: Context, p: Packet)
    requires s.place.Idle? && Asks(s, c, p) && (p.local.Relay? || p.local.PeerReflexive?)
    ensures var s' := Handle(s, c, p);
      && s'.pair == (if p.local.Relay? && p.turn.Some? then p.turn else s.pair)
      && if p.local.Relay? && p.turn.Some? then NominatedWith(s, s', c, p, p.turn.value)
         else if s.pair.Some? then NominatedWith(s, s', c, p, s.pair.value)
         else RefusedWith(s, s', p, BadParameter)
  {
    hide Handle;
    if p.kind.NonStun? {
      NonStunGate(s, c, p);
    } else {
      StunGate(s, c, p);
    }
  }

  /** The code left behind by the STUN packet that nominated a context shuts the gate for the media
      packets that follow it in the same call, until the call ends. */
  lemma NominatingPacketShutsGate(c: Context, q: Pair)
    ensures var stun := Packet(Stun(FoundConnection), Host, None, Some(q));
      var media := Packet(NonStun, Host, None, Some(q));
      var s := Handle(FRESH, c, stun);
      && s.nominated == Some(c)
      && Handle(s, c, media).deliveries == []
      && Handle(Step(s, EndCall), c, media).deliveries == [Delivery(c, Some(c), false)]
  {
  }

  // ---------- In place ----------

  class IceController {
    var nominated: Option<Context>
    var pairs: map<Context, Pair>
    var decided: nat
    var announced: nat
    var deliveries: seq<Delivery>

    /** The controller as seen between two packets of a call. */
    ghost function Value(ret: Code, pair: Option<Pair>): System
      reads this
    {
      System(nominated, pairs, Idle, ret, pair, decided, announced, false, false, deliveries)
    }

    constructor ()
      ensures Value(Ok, None) == FRESH
    {
      nominated, pairs, decided, announced, deliveries := None, map[], 0, 0, [];
    }

    /** The section under the socket mutex, and the announcement after it. */
    method NominateAndAnnounce(c: Context, q: Pair, ghost ret: Code, ghost pair: Option<Pair>)
      modifies this
      ensures nominated == Some(c) && Value(ret, pair) == Nominated(old(Value(ret, pair)), c, q)
    {
      var original := if nominated.Some? && nominated.value in pairs then Some(pairs[nominated.value]) else None;
      nominated := Some(c);
      pairs := pairs[c := q];
      if original == None {
        decided := decided + 1;
        announced := announced + 1;
      }
    }

    method UpdateNominated(c: Context, local: CandidateType, pair: Option<Pair>, lookup: Option<Pair>, ghost code: Code)
      returns (ret: Code)
      modifies this
      ensures ret == Resolve(local, pair, lookup).0 && (ret.Ok? ==> nominated == Some(c))
      ensures Value(code, pair) ==
        if ret.Ok? then Nominated(old(Value(code, pair)), c, Resolve(local, pair, lookup).1.value)
        else old(Value(code, pair))
    {
      hide Nominated;
      var candidatePair := pair;
      ret := Ok;
      if local == Host || local == ServerReflexive {
        if pair == None {
          candidatePair := lookup;
          if candidatePair == None {
            ret := InvalidPacket;
          }
        } else {
          ret := BadParameter;
        }
      } else if pair == None {
        ret := BadParameter;
      }
      if ret == Ok {
        NominateAndAnnounce(c, candidatePair.value, code, pair);
      }
    }

    /** One packet of the receive loop; the loop ends when the connection was closed. */
    method HandlePacket(c: Context, p: Packet, ret0: Code, pair0: Option<Pair>)
      returns (ret: Code, pair: Option<Pair>, closed: bool)
      modifies this
      ensures closed <==> p.kind == Stun(ConnectionClosed)
      ensures Value(if closed then Ok else ret, if closed then None else pair) == Handle(old(Value(ret0, pair0)), c, p)
    {
      hide Resolve, Handle, Nominated;
      ret, pair, closed := ret0, pair0, false;
      if p.local == Relay && p.turn.Some? {
        pair := p.turn;
      }
      match p.kind
      case NonStun =>
        NonStunGate(Value(ret0, pair0), c, p);
        if nominated != Some(c) {
          ret := UpdateNominated(c, p.local, pair, p.lookup, Ok);
        }
        if ret == Ok {
          deliveries := deliveries + [Delivery(c, nominated, false)];
        }
      case Stun(result) =>
        StunGate(Value(ret0, pair0), c, p);
        ret := result;
        if ret == FoundConnection && nominated == None {
          var _ := UpdateNominated(c, p.local, pair, p.lookup, ret);
        } else if ret == ConnectionClosed {
          closed := true;
        }
      case Unknown =>
        UnknownPasses(Value(ret0, pair0), c, p);
    }

    /** The receive loop over the packets that are there. */
    method HandleRxPackets(c: Context, packets: seq<Packet>)
      modifies this
      ensures Value(Ok, None) == Step(HandleAll(old(Value(Ok, None)), c, packets), EndCall)
    {
      hide Handle;
      var ret, pair := Ok, None;
      var i := 0;
      assert packets[0..] == packets;
      while i < |packets|
        invariant i <= |packets|
        invariant HandleAll(Value(ret, pair), c, packets[i..]) == HandleAll(old(Value(Ok, None)), c, packets)
      {
        var closed;
        ghost var before := Value(ret, pair);
        ret, pair, closed := HandlePacket(c, packets[i], ret, pair);
        assert packets[i..][1..] == packets[i + 1..];
        if closed {
          return;
        }
        i := i + 1;
      }
    }

    method Start()
      modifies this
      ensures Value(Ok, None) == Step(old(Value(Ok, None)), StartController).(restarted := false)
    {
      nominated := None;
      decided, announced := 0, 0;
    }
  }

  /** The packets of one call; the rest is left unread once the connection was closed. */
  function HandleAll(s: System, c: Context, packets: seq<Packet>): System
    decreases |packets|
  {
    if packets == [] then s
    else if packets[0].kind == Stun(ConnectionClosed) then Handle(s, c, packets[0])
    else HandleAll(Handle(s, c, packets[0]), c, packets[1..])
  }

  /** The packets of a call are handled one by one, as long as none closes the connection. */
  lemma {:induction false} CallComposes(s: System, c: Context, first: seq<Packet>, rest: seq<Packet>)
    requires forall p :: p in first ==> p.kind != Stun(ConnectionClosed)
    ensures HandleAll(s, c, first + rest) == HandleAll(HandleAll(s, c, first), c, rest)
    decreases |first|
  {
    hide Handle;
    if first == [] {
      assert first + rest == rest;
    } else {
      assert (first + rest)[1..] == first[1..] + rest;
      CallComposes(Handle(s, c, first[0]), c, first[1..], rest);
    }
  }

  /** What comes after a packet that closes the connection is not read, and the next call starts with
      no code and no pair. */
  lemma CloseEndsCall(s: System, c: Context, first: seq<Packet>, close: Packet, rest: seq<Packet>)
    requires s.place.Idle? && close.kind == Stun(ConnectionClosed)
    requires forall p :: p in first ==> p.kind != Stun(ConnectionClosed)
    ensures HandleAll(s, c, first + ([close] + rest)) == HandleAll(s, c, first + [close])
    ensures var s1 := HandleAll(s, c, first);
      HandleAll(s, c, first + [close]) == s1.(ret := Ok, pair := None, restarted := false)
  {
    hide Handle;
    CallComposes(s, c, first, [close] + rest);
    CallComposes(s, c, first, [close]);
    AllIdle(s, c, first);
    StunGate(HandleAll(s, c, first), c, close);
  }

  lemma {:induction false} AllIdle(s: System, c: Context, packets: seq<Packet>)
    requires s.place.Idle?
    ensures HandleAll(s, c, packets).place.Idle?
    decreases |packets|
  {
    hide Handle;
    if packets != [] {
      HandleIdles(s, c, packets[0]);
      if packets[0].kind != Stun(ConnectionClosed) {
        AllIdle(Handle(s, c, packets[0]), c, packets[1..]);
      }
    }
  }

  lemma HandleIdles(s: System, c: Context, p: Packet)
    requires s.place.Idle?
    ensures Handle(s, c, p).place.Idle?
  {
    hide Handle, Resolve;
    match p.kind
    case NonStun => NonStunGate(s, c, p);
    case Stun(_) => StunGate(s, c, p);
    case Unknown => UnknownPasses(s, c, p);
  }
}
