/** The reflected CRC-32 of section 15.5 of RFC 5389, one message bit at a time, and what a receiver
relies on: it can be computed in pieces, and it never misses a burst of at most 32 bits. */
module Crc32Reference {
  import opened ShiftRegister

  /** The lowest bit. */
  function Low(c: bv32): bool {
    c & 1 != 0
  }

  function Half(c: bv32): bv32 {
    c >> 1
  }

  /** One shift of the reflected register, with polynomial 0xEDB88320. */
  function Shift(c: bv32): bv32 {
    if Low(c) then (c >> 1) ^ 0xEDB88320 else c >> 1
  }

  /** The register with its lowest bit flipped. */
  function Flip(c: bv32): bv32 {
    c ^ 1
  }

  /** One step on one message bit: the bit is added to the lowest register bit, then the register
      shifts. */
  function BitStep(c: bv32, bit: bool): bv32 {
    if bit then Shift(Flip(c)) else Shift(c)
  }

  function Xor(a: bv32, b: bv32): bv32 {
    a ^ b
  }

  /** The bits of a byte in transmission order, least significant first. */
  function ByteBits(b: bv8): seq<bool> {
    LowBits(Low, Half, b as bv32, 8)
  }

  function Complement(c: bv32): bv32 {
    c ^ 0xFFFFFFFF
  }

  function Crc(initial: bv32, message: seq<bv8>): bv32 {
    Checksum(BitStep, Complement, ByteBits, initial, message)
  }

  // ---------- Laws of the 32-bit register ----------

  lemma XorZero(a: bv32, z: bv32)
    requires z & 0 == z
    ensures Xor(a, z) == a
  {
  }

  lemma XorCancels(a: bv32, b: bv32)
    ensures Xor(Xor(a, b), a) == b && Xor(b, Xor(a, b)) == a
  {
  }

  lemma LowOfXor(c: bv32, w: bv32)
    requires !Low(w)
    ensures Low(Xor(c, w)) == Low(c)
  {
  }

  /** Registers with the same lowest bit keep their difference, shifted. */
  lemma SameLow(c: bv32, d: bv32)
    requires Low(c) == Low(d)
    ensures Xor(Shift(c), Shift(d)) == Half(Xor(c, d))
  {
  }

  lemma FlipOdd(w: bv32)
    requires Low(w)
    ensures !Low(Flip(w))
  {
  }

  lemma FlipKeepsHalf(w: bv32)
    ensures Half(Flip(w)) == Half(w)
  {
  }

  lemma FlipBoth(c: bv32, w: bv32)
    ensures Xor(Flip(c), Flip(w)) == Xor(c, w)
  {
  }

  lemma RegisterWaits()
    ensures Waits(BitStep, Xor, Low, Half)
  {
    forall c, d | Low(c) == Low(d) ensures Xor(Shift(c), Shift(d)) == Half(Xor(c, d)) {
      SameLow(c, d);
    }
    forall a, b ensures Xor(Xor(a, b), a) == b && Xor(b, Xor(a, b)) == a {
      XorCancels(a, b);
    }
    forall c, w | !Low(w) ensures Low(Xor(c, w)) == Low(c) {
      LowOfXor(c, w);
    }
    ShiftWaits(Shift, Xor, Low, Half);
    forall w | Low(w) ensures !Low(Flip(w)) {
      FlipOdd(w);
    }
    forall w ensures Half(Flip(w)) == Half(w) {
      FlipKeepsHalf(w);
    }
    forall c, w ensures Xor(Flip(c), Flip(w)) == Xor(c, w) {
      FlipBoth(c, w);
    }
    StepWaits(BitStep, Shift, Flip, Xor, Low, Half);
  }

  lemma DropByte(w: bv32)
    ensures Drop(Half, w, 8) == w >> 8
  {
    Drop8(Half, w);
    EightHalves(w);
  }

  lemma EightHalves(w: bv32)
    ensures Half(Half(Half(Half(Half(Half(Half(Half(w)))))))) == w >> 8
  {
  }

  function Shift8(c: bv32): bv32 {
    Shift(Shift(Shift(Shift(Shift(Shift(Shift(Shift(c))))))))
  }

  lemma Shift8IsZeroSteps(c: bv32)
    ensures Shift8(c) == Feed(BitStep, c, Zeros(8))
  {
    FeedZeros8(BitStep, c);
  }

  function Mix(c: bv32, b: bv8): bv32 {
    c ^ (b as bv32)
  }

  function LowByte(x: bv32): bv8 {
    (x & 0xFF) as bv8
  }

  function UpperBytes(x: bv32): bv32 {
    x & 0xFFFFFF00
  }

  /** A whole byte may be xored into the register before eight zero steps. */
  lemma FeedByte(c: bv32, b: bv8)
    ensures Feed(BitStep, c, ByteBits(b)) == Feed(BitStep, Mix(c, b), Zeros(8))
  {
    RegisterWaits();
    WaitingBits(BitStep, Xor, Low, Half, c, b as bv32, 8);
    DropByte(b as bv32);
    ByteFits(b);
    XorZero(Feed(BitStep, c, ByteBits(b)), (b as bv32) >> 8);
  }

  lemma ByteFits(b: bv8)
    ensures ((b as bv32) >> 8) & 0 == (b as bv32) >> 8
  {
  }

  /** The upper bytes of a word only wait during eight zero steps. */
  lemma UpperBytesWait(low: bv32, upper: bv32)
    requires UpperBytes(upper) == upper
    ensures Feed(BitStep, Xor(low, upper), Zeros(8)) == Xor(Feed(BitStep, low, Zeros(8)), upper >> 8)
  {
    RegisterWaits();
    LowByteClear(upper);
    ZerosWait8(BitStep, Xor, Low, Half, low, upper);
    DropByte(upper);
  }

  lemma LowByteClear(w: bv32)
    requires UpperBytes(w) == w
    ensures var w1 := Half(w); var w2 := Half(w1); var w3 := Half(w2); var w4 := Half(w3);
            var w5 := Half(w4); var w6 := Half(w5); var w7 := Half(w6);
            !Low(w) && !Low(w1) && !Low(w2) && !Low(w3) && !Low(w4) && !Low(w5) && !Low(w6) && !Low(w7)
  {
  }

  lemma WordParts(x: bv32) returns (low: bv8, upper: bv32)
    ensures low == LowByte(x) && upper == UpperBytes(x) && x == Xor(low as bv32, upper)
  {
    low, upper := LowByte(x), UpperBytes(x);
  }

  lemma UpperBytesOfMix(c: bv32, b: bv8, upper: bv32)
    requires upper == UpperBytes(Mix(c, b))
    ensures UpperBytes(upper) == upper && upper >> 8 == c >> 8
  {
  }

  /** The register update of a byte-wise CRC, for any table: the low byte of c ^ b selects an entry,
      the upper bytes of c move down. */
  function TableStep(entry: bv8 -> bv32, c: bv32, b: bv8): bv32 {
    Xor(entry(LowByte(Mix(c, b))), c >> 8)
  }

  lemma FeedParts(c: bv32, b: bv8, low: bv32, upper: bv32)
    requires Mix(c, b) == Xor(low, upper) && UpperBytes(upper) == upper && upper >> 8 == c >> 8
    ensures Feed(BitStep, c, ByteBits(b)) == Xor(Feed(BitStep, low, Zeros(8)), c >> 8)
  {
    FeedByte(c, b);
    UpperBytesWait(low, upper);
  }

  lemma TableStepIsFeed(entry: bv8 -> bv32, c: bv32, b: bv8)
    requires entry(LowByte(Mix(c, b))) == Feed(BitStep, LowByte(Mix(c, b)) as bv32, Zeros(8))
    ensures TableStep(entry, c, b) == Feed(BitStep, c, ByteBits(b))
  {
    var low, upper := WordParts(Mix(c, b));
    UpperBytesOfMix(c, b, upper);
    FeedParts(c, b, low as bv32, upper);
  }

  /** A table whose entries are eight zero steps consumes the next byte of a message. */
  lemma NextByte(entry: bv8 -> bv32, c: bv32, message: seq<bv8>, i: nat)
    requires i < |message|
    requires forall x :: entry(x) == Feed(BitStep, x as bv32, Zeros(8))
    ensures Feed(BitStep, c, Bits(ByteBits, message[..i + 1])) ==
            TableStep(entry, Feed(BitStep, c, Bits(ByteBits, message[..i])), message[i])
  {
    assert message[..i + 1] == message[..i] + [message[i]];
    AppendSymbol(BitStep, ByteBits, c, message[..i], message[i]);
    TableStepIsFeed(entry, Feed(BitStep, c, Bits(ByteBits, message[..i])), message[i]);
  }

  // ---------- Resumption ----------

  /** A CRC can be computed in pieces. */
  lemma Resumable(initial: bv32, a: seq<bv8>, b: seq<bv8>)
    ensures Crc(initial, a + b) == Crc(Crc(initial, a), b)
  {
    ComplementTwice();
    ChecksumResumes(BitStep, Complement, ByteBits, initial, a, b);
  }

  lemma ComplementTwice()
    ensures forall c :: Complement(Complement(c)) == c
    ensures forall c, d :: Complement(c) == Complement(d) ==> c == d
  {
    forall c ensures Complement(Complement(c)) == c {
      ComplementInvolution(c);
    }
  }

  lemma ComplementInvolution(c: bv32)
    ensures Complement(Complement(c)) == c
  {
  }

  // ---------- Error detection ----------

  /** The highest n + 1 bits. Two registers that first differ n steps ago, n up to 31, differ in
      one of them. */
  function HighBits(n: nat): bv32 {
    if n == 0 then 0x80000000 else (HighBits(n - 1) >> 1) | 0x80000000
  }

  function Apart(c: bv32, d: bv32, n: nat): bool {
    c & HighBits(n) != d & HighBits(n)
  }

  lemma {:induction false} HighBitsNest(m: nat, n: nat)
    requires m <= n
    ensures HighBits(m) & HighBits(n) == HighBits(m)
    decreases n
  {
    if m < n {
      HighBitsNest(m, n - 1);
      HighBitsGrow(n - 1);
      Nested(HighBits(m), HighBits(n - 1), HighBits(n));
    } else {
      Nested(HighBits(m), HighBits(m), HighBits(m));
    }
  }

  lemma {:induction false} HighBitsGrow(n: nat)
    ensures HighBits(n) & HighBits(n + 1) == HighBits(n)
  {
    if n > 0 {
      HighBitsGrow(n - 1);
      SlideNested(HighBits(n - 1), HighBits(n));
    }
  }

  lemma Nested(u: bv32, v: bv32, w: bv32)
    ensures u & v == u && v & w == v ==> u & w == u
    ensures u & u == u
  {
  }

  lemma SlideNested(v: bv32, w: bv32)
    requires v & w == v
    ensures ((v >> 1) | 0x80000000) & ((w >> 1) | 0x80000000) == (v >> 1) | 0x80000000
  {
  }

  lemma LowBitNotAmongHighBits(n: nat)
    requires n < 31
    ensures !Low(HighBits(n))
  {
    HighBitsNest(n, 30);
    assert HighBits(4) == 0xF8000000;
    assert HighBits(8) == 0xFF800000;
    assert HighBits(12) == 0xFFF80000;
    assert HighBits(16) == 0xFFFF8000;
    assert HighBits(20) == 0xFFFFF800;
    assert HighBits(24) == 0xFFFFFF80;
    assert HighBits(28) == 0xFFFFFFF8;
    assert HighBits(30) == 0xFFFFFFFE;
    EvenBelow(HighBits(n));
  }

  lemma EvenBelow(v: bv32)
    requires v & 0xFFFFFFFE == v
    ensures !Low(v)
  {
  }

  lemma SlideApart(c: bv32, d: bv32, w: bv32)
    requires c & w != d & w && !Low(w)
    ensures (c >> 1) & ((w >> 1) | 0x80000000) != (d >> 1) & ((w >> 1) | 0x80000000)
  {
  }

  lemma XorKeepsApart(a: bv32, b: bv32, p: bv32, m: bv32)
    requires a & m != b & m
    ensures (a ^ p) & m != (b ^ p) & m
  {
  }

  lemma TopApart(c: bv32, d: bv32)
    requires Low(c) && !Low(d)
    ensures Shift(c) & 0x80000000 != Shift(d) & 0x80000000
  {
  }

  lemma TopSeen(a: bv32, b: bv32, w: bv32)
    requires a & 0x80000000 != b & 0x80000000
    ensures a & ((w >> 1) | 0x80000000) != b & ((w >> 1) | 0x80000000)
  {
  }

  lemma ShiftKeepsApart(c: bv32, d: bv32, w: bv32)
    requires c & w != d & w && !Low(w)
    ensures Shift(c) & ((w >> 1) | 0x80000000) != Shift(d) & ((w >> 1) | 0x80000000)
  {
    if Low(c) && Low(d) {
      SlideApart(c, d, w);
      XorKeepsApart(c >> 1, d >> 1, 0xEDB88320, (w >> 1) | 0x80000000);
    } else if Low(c) {
      TopApart(c, d);
      TopSeen(Shift(c), Shift(d), w);
    } else if Low(d) {
      TopApart(d, c);
      TopSeen(Shift(d), Shift(c), w);
    } else {
      SlideApart(c, d, w);
    }
  }

  lemma ApartShifts(c: bv32, d: bv32, n: nat)
    requires Apart(c, d, n) && !Low(HighBits(n))
    ensures Apart(Shift(c), Shift(d), n + 1)
  {
    ShiftKeepsApart(c, d, HighBits(n));
  }

  lemma FlipKeepsApart(c: bv32, d: bv32, w: bv32)
    requires c & w != d & w && !Low(w)
    ensures Flip(c) & w != d & w
  {
  }

  lemma ApartFlips(c: bv32, d: bv32, n: nat)
    requires Apart(c, d, n) && !Low(HighBits(n))
    ensures Apart(Flip(c), d, n)
  {
    FlipKeepsApart(c, d, HighBits(n));
  }

  lemma FirstDifference(c: bv32)
    ensures Apart(Shift(Flip(c)), Shift(c), 0)
  {
  }

  lemma RegisterSeparates()
    ensures Separates(BitStep, Apart)
  {
    forall c ensures Apart(Shift(Flip(c)), Shift(c), 0) {
      FirstDifference(c);
    }
    forall n: nat | n < 31 ensures !Low(HighBits(n)) {
      LowBitNotAmongHighBits(n);
    }
    forall c, d, n: nat | Apart(c, d, n) && n < 31 ensures Apart(Shift(c), Shift(d), n + 1) {
      ApartShifts(c, d, n);
    }
    forall c, d, n: nat | Apart(c, d, n) && n < 31 ensures Apart(Flip(c), d, n) {
      ApartFlips(c, d, n);
    }
    StepSeparates(BitStep, Shift, Flip, Apart);
  }

  lemma BitStepInjective(c: bv32, d: bv32, bit: bool)
    requires BitStep(c, bit) == BitStep(d, bit)
    ensures c == d
  {
  }

  lemma ByteBitsInjective(a: bv8, b: bv8)
    requires ByteBits(a) == ByteBits(b)
    ensures a == b
  {
    LowBits8(Low, Half, a as bv32);
    LowBits8(Low, Half, b as bv32);
    var x, y := ByteBits(a), ByteBits(b);
    assert x[0] == y[0] && x[1] == y[1] && x[2] == y[2] && x[3] == y[3];
    assert x[4] == y[4] && x[5] == y[5] && x[6] == y[6] && x[7] == y[7];
  }

  lemma StepInjective()
    ensures forall c, d, bit :: BitStep(c, bit) == BitStep(d, bit) ==> c == d
  {
    forall c, d, bit | BitStep(c, bit) == BitStep(d, bit) ensures c == d {
      BitStepInjective(c, d, bit);
    }
  }

  /** Two messages whose bits differ only inside a window of 32 bits have different CRCs. The window may
      lie anywhere, across byte boundaries too. */
  lemma BurstErrorDetected(initial: bv32, m: seq<bv8>, m': seq<bv8>,
                           before: seq<bool>, u: seq<bool>, v: seq<bool>, after: seq<bool>)
    requires Bits(ByteBits, m) == before + u + after && Bits(ByteBits, m') == before + v + after
    requires |u| == |v| <= 32 && u != v
    ensures Crc(initial, m) != Crc(initial, m')
  {
    RegisterSeparates();
    StepInjective();
    ComplementTwice();
    WindowInMessageDetected(BitStep, Apart, Complement(initial), before, u, v, after);
  }

  lemma ByteBitsAreInjective()
    ensures forall a, b :: ByteBits(a) == ByteBits(b) ==> a == b
  {
    forall a, b | ByteBits(a) == ByteBits(b) ensures a == b {
      ByteBitsInjective(a, b);
    }
  }

  /** Two messages of equal length that differ only inside at most four consecutive bytes never
      share a CRC, whatever the length of the message and the initial value. */
  lemma FourByteErrorDetected(initial: bv32, before: seq<bv8>, x: seq<bv8>, y: seq<bv8>, after: seq<bv8>)
    requires |x| == |y| <= 4 && x != y
    ensures Crc(initial, before + x + after) != Crc(initial, before + y + after)
  {
    ByteBitsAreInjective();
    BitsLength(ByteBits, x);
    BitsLength(ByteBits, y);
    if Bits(ByteBits, x) == Bits(ByteBits, y) {
      BitsInjective(ByteBits, x, y);
    } else {
      BitsConcat3(ByteBits, before, x, after);
      BitsConcat3(ByteBits, before, y, after);
      BurstErrorDetected(initial, before + x + after, before + y + after,
                         Bits(ByteBits, before), Bits(ByteBits, x), Bits(ByteBits, y), Bits(ByteBits, after));
    }
  }

  // ---------- The inversion of the register ----------

  function NextBytes(w: bv32): bv32 {
    w >> 8
  }

  /** A word in the order in which its bytes are sent, least significant first. */
  function WordBytes(w: bv32): seq<bv8> {
    var w1 := NextBytes(w);
    var w2 := NextBytes(w1);
    [LowByte(w), LowByte(w1), LowByte(w2), LowByte(NextBytes(w2))]
  }

  lemma LowByteBits(w: bv32)
    ensures var v := LowByte(w) as bv32;
      && Low(v) == Low(w) && Low(Half(v)) == Low(Half(w)) && Low(Half(Half(v))) == Low(Half(Half(w)))
      && Low(Half(Half(Half(v)))) == Low(Half(Half(Half(w))))
  {
  }

  lemma LowByteUpperBits(w: bv32)
    ensures var v, u := (LowByte(w) as bv32) >> 4, w >> 4;
      && Low(v) == Low(u) && Low(Half(v)) == Low(Half(u)) && Low(Half(Half(v))) == Low(Half(Half(u)))
      && Low(Half(Half(Half(v)))) == Low(Half(Half(Half(u))))
  {
  }

  lemma FourHalves(w: bv32)
    ensures Half(Half(Half(Half(w)))) == w >> 4
  {
  }

  lemma LowByteSent(w: bv32)
    ensures ByteBits(LowByte(w)) == LowBits(Low, Half, w, 8)
  {
    var v := LowByte(w) as bv32;
    LowBits8(Low, Half, v);
    LowBits8(Low, Half, w);
    FourHalves(v);
    FourHalves(w);
    LowByteBits(w);
    LowByteUpperBits(w);
  }

  lemma NothingLeft(w: bv32)
    ensures NextBytes(NextBytes(NextBytes(NextBytes(w)))) == 0
  {
  }

  lemma DropIsNextBytes(w: bv32)
    ensures Drop(Half, w, 8) == NextBytes(w)
  {
    DropByte(w);
  }

  /** The bytes of a word send its bits, and nothing of it is left behind. */
  lemma WordSent(w: bv32)
    ensures Bits(ByteBits, WordBytes(w)) == LowBits(Low, Half, w, 32)
    ensures Drop(Half, w, 32) == 0
  {
    hide ByteBits, LowByte, LowBits, Drop, NextBytes;
    NothingLeft(w);
    var w1 := NextBytes(w);
    var w2 := NextBytes(w1);
    var w3 := NextBytes(w2);
    LowByteSent(w);
    LowByteSent(w1);
    LowByteSent(w2);
    LowByteSent(w3);
    DropIsNextBytes(w);
    DropIsNextBytes(w1);
    DropIsNextBytes(w2);
    DropIsNextBytes(w3);
    FourBytes(Low, Half, ByteBits, w, w1, w2, w3, NextBytes(w3), LowByte(w), LowByte(w1), LowByte(w2), LowByte(w3));
  }

  lemma OnesShifted()
    ensures Shift8(0xFFFFFFFF) == 0x2DFD1072
    ensures Shift8(0x2DFD1072) == 0xBE26ED00
    ensures Shift8(0xBE26ED00) == 0x00BE26ED
    ensures Shift8(0x00BE26ED) == 0xDEBB20E3
  {
  }

  lemma OnesFed()
    ensures Feed(BitStep, 0xFFFFFFFF, Zeros(32)) == 0xDEBB20E3
    ensures Feed(BitStep, 0xFFFFFFFF, Zeros(8)) == 0x2DFD1072
  {
    hide Shift8;
    OnesShifted();
    Shift8IsZeroSteps(0xFFFFFFFF);
    Shift8IsZeroSteps(0x2DFD1072);
    Shift8IsZeroSteps(0xBE26ED00);
    Shift8IsZeroSteps(0x00BE26ED);
    FeedZeros32(BitStep, 0xFFFFFFFF, 0x2DFD1072, 0xBE26ED00, 0x00BE26ED);
  }

  lemma ComplementIsSum(c: bv32)
    ensures Xor(c, Complement(c)) == 0xFFFFFFFF
  {
  }

  lemma SumWithNothing()
    ensures forall a :: Xor(a, 0) == a
  {
  }

  lemma ComplementsOfConstants()
    ensures Complement(0xDEBB20E3) == 0x2144DF1C && Complement(0) == 0xFFFFFFFF
    ensures Complement(0x2DFD1072) == 0xD202EF8D
  {
  }

  /** A message followed by its own CRC, least significant byte first, has the residue 0x2144DF1C, for
      every message and every initial value. */
  lemma ResidueOfMessageAndCrc(initial: bv32, m: seq<bv8>)
    ensures Crc(initial, m + WordBytes(Crc(initial, m))) == 0x2144DF1C
  {
    hide BitStep, Complement, ByteBits, WordBytes, Feed, Xor;
    var c := Feed(BitStep, Complement(initial), Bits(ByteBits, m));
    var w := Complement(c);
    BitsConcat(ByteBits, m, WordBytes(w));
    FeedConcat(BitStep, Complement(initial), Bits(ByteBits, m), Bits(ByteBits, WordBytes(w)));
    RegisterWaits();
    WordSent(w);
    ComplementIsSum(c);
    SumWithNothing();
    ResidueIsFixed(BitStep, Xor, Low, Half, 0, 0xFFFFFFFF, c, w, 32, Bits(ByteBits, WordBytes(w)));
    OnesFed();
    ComplementsOfConstants();
  }

  lemma ZeroByteBits()
    ensures ByteBits(0) == Zeros(8)
  {
    LowBits8(Low, Half, 0);
  }

  /** A zero byte in front of a message changes its CRC from zero; the zero byte alone has 0xD202EF8D. */
  lemma LeadingZeroIsSeen(m: seq<bv8>)
    ensures Crc(0, [0] + m) != Crc(0, m)
    ensures Crc(0, [0]) == 0xD202EF8D
  {
    hide BitStep, Complement, ByteBits, Feed;
    ComplementsOfConstants();
    ComplementTwice();
    ZeroByteBits();
    OnesFed();
    StepInjective();
    BitsConcat(ByteBits, [0], m);
    assert [0 as bv8][1..] == [];
    assert Bits(ByteBits, [0]) == Zeros(8);
    FeedConcat(BitStep, 0xFFFFFFFF, Zeros(8), Bits(ByteBits, m));
    FeedInjective(BitStep, 0x2DFD1072, 0xFFFFFFFF, Bits(ByteBits, m));
  }
}
