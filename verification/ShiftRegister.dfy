/** Feeding bits to a register, for any register type.

The CRC proofs need only a few laws of the 32-bit register. Stating the inductive arguments for an
arbitrary step function keeps them short; Crc32Reference supplies the register and the laws. */
module ShiftRegister {

  function Feed<T>(step: (T, bool) -> T, c: T, bits: seq<bool>): T
    decreases |bits|
  {
    if bits == [] then c else Feed(step, step(c, bits[0]), bits[1..])
  }

  lemma {:induction false} FeedConcat<T>(step: (T, bool) -> T, c: T, a: seq<bool>, b: seq<bool>)
    ensures Feed(step, c, a + b) == Feed(step, Feed(step, c, a), b)
    decreases |a|
  {
    if a == [] {
      assert a + b == b;
    } else {
      assert (a + b)[1..] == a[1..] + b;
      FeedConcat(step, step(c, a[0]), a[1..], b);
    }
  }

  /** The bits of a message, symbol by symbol. */
  function Bits<B>(bits: B -> seq<bool>, message: seq<B>): seq<bool> {
    if message == [] then [] else bits(message[0]) + Bits(bits, message[1..])
  }

  lemma {:induction false} BitsConcat<B>(bits: B -> seq<bool>, a: seq<B>, b: seq<B>)
    ensures Bits(bits, a + b) == Bits(bits, a) + Bits(bits, b)
  {
    if a == [] {
      assert a + b == b;
    } else {
      assert (a + b)[1..] == a[1..] + b;
      BitsConcat(bits, a[1..], b);
    }
  }

  lemma AppendSymbol<T, B>(step: (T, bool) -> T, bits: B -> seq<bool>, c: T, message: seq<B>, b: B)
    ensures Feed(step, c, Bits(bits, message + [b])) == Feed(step, Feed(step, c, Bits(bits, message)), bits(b))
  {
    BitsConcat(bits, message, [b]);
    assert Bits(bits, [b]) == bits(b);
    FeedConcat(step, c, Bits(bits, message), bits(b));
  }

  /** The register starts from the complemented initial value and is complemented at the end. */
  function Checksum<T, B>(step: (T, bool) -> T, not: T -> T, bits: B -> seq<bool>, initial: T, message: seq<B>): T {
    not(Feed(step, not(initial), Bits(bits, message)))
  }

  lemma ChecksumResumes<T(!new), B>(step: (T, bool) -> T, not: T -> T, bits: B -> seq<bool>,
                                    initial: T, a: seq<B>, b: seq<B>)
    requires forall c :: not(not(c)) == c
    ensures Checksum(step, not, bits, initial, a + b) ==
            Checksum(step, not, bits, Checksum(step, not, bits, initial, a), b)
  {
    BitsConcat(bits, a, b);
    FeedConcat(step, not(initial), Bits(bits, a), Bits(bits, b));
  }

  lemma {:induction false} BitsInjective<B(!new)>(bits: B -> seq<bool>, a: seq<B>, b: seq<B>)
    requires forall x, y :: bits(x) == bits(y) ==> x == y
    requires forall x :: |bits(x)| == 8
    requires |a| == |b| && Bits(bits, a) == Bits(bits, b)
    ensures a == b
  {
    if a != [] {
      assert bits(a[0]) == Bits(bits, a)[..8] == Bits(bits, b)[..8] == bits(b[0]);
      assert Bits(bits, a[1..]) == Bits(bits, a)[8..] == Bits(bits, b)[8..] == Bits(bits, b[1..]);
      BitsInjective(bits, a[1..], b[1..]);
      assert a == [a[0]] + a[1..] && b == [b[0]] + b[1..];
    }
  }

  lemma {:induction false} BitsLength<B(!new)>(bits: B -> seq<bool>, a: seq<B>)
    requires forall x :: |bits(x)| == 8
    ensures |Bits(bits, a)| == 8 * |a|
  {
    if a != [] {
      BitsLength(bits, a[1..]);
    }
  }

  // ---------- Message bits that wait in the register ----------

  function Zeros(n: nat): seq<bool> {
    seq(n, _ => false)
  }

  /** The lowest n bits of a word, lowest first. */
  function LowBits<T>(low: T -> bool, half: T -> T, w: T, n: nat): (bits: seq<bool>)
    ensures |bits| == n
    decreases n
  {
    if n == 0 then [] else [low(w)] + LowBits(low, half, half(w), n - 1)
  }

  /** The word without its lowest n bits. */
  function Drop<T>(half: T -> T, w: T, n: nat): T
    decreases n
  {
    if n == 0 then w else Drop(half, half(w), n - 1)
  }

  lemma {:induction false} LowBitsConcat<T>(low: T -> bool, half: T -> T, w: T, m: nat, n: nat)
    ensures LowBits(low, half, w, m + n) == LowBits(low, half, w, m) + LowBits(low, half, Drop(half, w, m), n)
    decreases m
  {
    if m > 0 {
      LowBitsConcat(low, half, half(w), m - 1, n);
    }
  }

  lemma {:induction false} DropTwice<T>(half: T -> T, w: T, m: nat, n: nat)
    ensures Drop(half, w, m + n) == Drop(half, Drop(half, w, m), n)
    decreases m
  {
    if m > 0 {
      DropTwice(half, half(w), m - 1, n);
    }
  }

  /** A zero bit fed to c xor w steps c on the lowest bit of w and leaves the rest of w waiting. */
  ghost predicate Waits<T(!new)>(step: (T, bool) -> T, xor: (T, T) -> T, low: T -> bool, half: T -> T) {
    forall c, w {:trigger xor(c, w)} :: step(xor(c, w), false) == xor(step(c, low(w)), half(w))
  }

  /** A step shifts the register, after flipping its lowest bit when the message bit is set. */
  ghost predicate StepsBy<T(!new)>(step: (T, bool) -> T, shift: T -> T, flip: T -> T) {
    forall c, bit :: step(c, bit) == if bit then shift(flip(c)) else shift(c)
  }

  lemma ShiftWaits<T(!new)>(shift: T -> T, xor: (T, T) -> T, low: T -> bool, half: T -> T)
    requires forall c, d :: low(c) == low(d) ==> xor(shift(c), shift(d)) == half(xor(c, d))
    requires forall a, b :: xor(xor(a, b), a) == b && xor(b, xor(a, b)) == a
    requires forall c, w :: !low(w) ==> low(xor(c, w)) == low(c)
    ensures forall c, w :: !low(w) ==> shift(xor(c, w)) == xor(shift(c), half(w))
  {
    forall c, w | !low(w) ensures shift(xor(c, w)) == xor(shift(c), half(w)) {
      assert xor(shift(xor(c, w)), shift(c)) == half(xor(xor(c, w), c));
    }
  }

  lemma StepWaits<T(!new)>(step: (T, bool) -> T, shift: T -> T, flip: T -> T,
                           xor: (T, T) -> T, low: T -> bool, half: T -> T)
    requires StepsBy(step, shift, flip)
    requires forall c, w :: !low(w) ==> shift(xor(c, w)) == xor(shift(c), half(w))
    requires forall w :: low(w) ==> !low(flip(w))
    requires forall w :: half(flip(w)) == half(w)
    requires forall c, w :: xor(flip(c), flip(w)) == xor(c, w)
    ensures Waits(step, xor, low, half)
  {
    forall c, w {:trigger xor(c, w)}
      ensures step(xor(c, w), false) == xor(step(c, low(w)), half(w))
    {
      if low(w) {
        assert shift(xor(flip(c), flip(w))) == xor(shift(flip(c)), half(flip(w)));
      }
    }
  }

  lemma {:induction false} WaitingBits<T(!new)>(step: (T, bool) -> T, xor: (T, T) -> T, low: T -> bool, half: T -> T,
                                               c: T, w: T, n: nat)
    requires Waits(step, xor, low, half)
    ensures Feed(step, xor(c, w), Zeros(n)) == xor(Feed(step, c, LowBits(low, half, w, n)), Drop(half, w, n))
    decreases n
  {
    if n > 0 {
      assert Zeros(n)[1..] == Zeros(n - 1);
      assert LowBits(low, half, w, n)[1..] == LowBits(low, half, half(w), n - 1);
      WaitingBits(step, xor, low, half, step(c, low(w)), half(w), n - 1);
    }
  }

  lemma ZerosWait8<T(!new)>(step: (T, bool) -> T, xor: (T, T) -> T, low: T -> bool, half: T -> T, c: T, w: T)
    requires Waits(step, xor, low, half)
    requires var w1 := half(w); var w2 := half(w1); var w3 := half(w2); var w4 := half(w3);
             var w5 := half(w4); var w6 := half(w5); var w7 := half(w6);
             !low(w) && !low(w1) && !low(w2) && !low(w3) && !low(w4) && !low(w5) && !low(w6) && !low(w7)
    ensures Feed(step, xor(c, w), Zeros(8)) == xor(Feed(step, c, Zeros(8)), Drop(half, w, 8))
  {
    LowBits8(low, half, w);
    assert LowBits(low, half, w, 8) == Zeros(8);
    WaitingBits(step, xor, low, half, c, w, 8);
  }

  lemma FeedZeros8<T>(step: (T, bool) -> T, c: T)
    ensures Feed(step, c, Zeros(8)) ==
            step(step(step(step(step(step(step(step(c, false), false), false), false), false), false), false), false)
  {
    var c4 := step(step(step(step(c, false), false), false), false);
    FeedConcat(step, c, Zeros(4), Zeros(4));
    assert Zeros(8) == Zeros(4) + Zeros(4);
    FeedZeros4(step, c);
    FeedZeros4(step, c4);
  }

  lemma FeedZeros4<T>(step: (T, bool) -> T, c: T)
    ensures Feed(step, c, Zeros(4)) == step(step(step(step(c, false), false), false), false)
  {
    assert Zeros(4) == [false, false, false, false];
  }

  lemma Drop8<T>(half: T -> T, w: T)
    ensures Drop(half, w, 8) == half(half(half(half(half(half(half(half(w))))))))
  {
    var w4 := half(half(half(half(w))));
    assert Drop(half, w, 8) == Drop(half, half(half(w)), 6) == Drop(half, w4, 4) == Drop(half, half(half(w4)), 2);
  }

  lemma LowBits8<T>(low: T -> bool, half: T -> T, w: T)
    ensures var w1 := half(w); var w2 := half(w1); var w3 := half(w2); var w4 := half(w3);
            var w5 := half(w4); var w6 := half(w5); var w7 := half(w6);
            LowBits(low, half, w, 8) == [low(w), low(w1), low(w2), low(w3), low(w4), low(w5), low(w6), low(w7)]
  {
    var w2 := half(half(w));
    var w4 := half(half(w2));
    var w6 := half(half(w4));
    assert LowBits(low, half, w, 8) == [low(w), low(half(w))] + LowBits(low, half, w2, 6);
    assert LowBits(low, half, w2, 6) == [low(w2), low(half(w2))] + LowBits(low, half, w4, 4);
    assert LowBits(low, half, w4, 4) == [low(w4), low(half(w4))] + LowBits(low, half, w6, 2);
    assert LowBits(low, half, w6, 2) == [low(w6), low(half(w6))];
  }

  // ---------- Differences between two registers ----------

  lemma {:induction false} FeedInjective<T(!new)>(step: (T, bool) -> T, c: T, d: T, bits: seq<bool>)
    requires forall x, y, bit :: step(x, bit) == step(y, bit) ==> x == y
    requires c != d
    ensures Feed(step, c, bits) != Feed(step, d, bits)
    decreases |bits|
  {
    if bits != [] {
      FeedInjective(step, step(c, bits[0]), step(d, bits[0]), bits[1..]);
    }
  }

  /** apart(c, d, n) says where two registers differ n steps after they first differ. Such a
      difference lasts for 31 steps, whatever bits are fed. */
  ghost predicate Separates<T(!new)>(step: (T, bool) -> T, apart: (T, T, nat) -> bool) {
    && (forall c, bit :: apart(step(c, bit), step(c, !bit), 0))
    && (forall c, d, n: nat :: apart(c, d, n) && n < 31 ==> Lasts(step, apart, c, d, n))
    && (forall c, d, n: nat :: apart(c, d, n) ==> c != d)
  }

  ghost predicate Lasts<T(!new)>(step: (T, bool) -> T, apart: (T, T, nat) -> bool, c: T, d: T, n: nat) {
    forall x, y :: apart(step(c, x), step(d, y), n + 1)
  }

  lemma StepSeparates<T(!new)>(step: (T, bool) -> T, shift: T -> T, flip: T -> T, apart: (T, T, nat) -> bool)
    requires StepsBy(step, shift, flip)
    requires forall c :: apart(shift(flip(c)), shift(c), 0)
    requires forall c, d, n: nat :: apart(c, d, n) && n < 31 ==> apart(shift(c), shift(d), n + 1)
    requires forall c, d, n: nat :: apart(c, d, n) && n < 31 ==> apart(flip(c), d, n)
    requires forall c, d, n: nat :: apart(c, d, n) ==> apart(d, c, n)
    requires forall c, d, n: nat :: apart(c, d, n) ==> c != d
    ensures Separates(step, apart)
  {
    forall c, d, n: nat | apart(c, d, n) && n < 31
      ensures Lasts(step, apart, c, d, n)
    {
      assert apart(d, flip(c), n) && apart(flip(d), flip(c), n) && apart(flip(d), c, n);
      forall x, y
        ensures apart(step(c, x), step(d, y), n + 1)
      {
        var c', d' := if x then flip(c) else c, if y then flip(d) else d;
        assert apart(c', d', n);
      }
    }
  }

  lemma {:induction false} StaysApart<T(!new)>(step: (T, bool) -> T, apart: (T, T, nat) -> bool,
                                               c: T, d: T, x: seq<bool>, y: seq<bool>, n: nat)
    requires Separates(step, apart)
    requires |x| == |y| && n + |x| <= 31 && apart(c, d, n)
    ensures Feed(step, c, x) != Feed(step, d, y)
    decreases |x|
  {
    if x != [] {
      assert Lasts(step, apart, c, d, n);
      var v, w := x[0], y[0];
      assert apart(step(c, v), step(d, w), n + 1);
      StaysApart(step, apart, step(c, x[0]), step(d, y[0]), x[1..], y[1..], n + 1);
    }
  }

  lemma {:induction false} WindowDetected<T(!new)>(step: (T, bool) -> T, apart: (T, T, nat) -> bool,
                                                   c: T, x: seq<bool>, y: seq<bool>)
    requires Separates(step, apart)
    requires |x| == |y| <= 32 && x != y
    ensures Feed(step, c, x) != Feed(step, c, y)
    decreases |x|
  {
    if x[0] == y[0] {
      assert x == [x[0]] + x[1..] && y == [y[0]] + y[1..];
      WindowDetected(step, apart, step(c, x[0]), x[1..], y[1..]);
    } else {
      assert y[0] == !x[0];
      StaysApart(step, apart, step(c, x[0]), step(c, y[0]), x[1..], y[1..], 0);
    }
  }

  lemma WindowInMessageDetected<T(!new)>(step: (T, bool) -> T, apart: (T, T, nat) -> bool, c: T,
                                         before: seq<bool>, x: seq<bool>, y: seq<bool>, after: seq<bool>)
    requires Separates(step, apart)
    requires forall x, y, bit :: step(x, bit) == step(y, bit) ==> x == y
    requires |x| == |y| <= 32 && x != y
    ensures Feed(step, c, before + x + after) != Feed(step, c, before + y + after)
  {
    FeedConcat(step, c, before + x, after);
    FeedConcat(step, c, before, x);
    FeedConcat(step, c, before + y, after);
    FeedConcat(step, c, before, y);
    WindowDetected(step, apart, Feed(step, c, before), x, y);
    FeedInjective(step, Feed(step, c, before + x), Feed(step, c, before + y), after);
  }

  lemma BitsConcat3<B>(bits: B -> seq<bool>, a: seq<B>, b: seq<B>, c: seq<B>)
    ensures Bits(bits, a + b + c) == Bits(bits, a) + Bits(bits, b) + Bits(bits, c)
  {
    BitsConcat(bits, a + b, c);
    BitsConcat(bits, a, b);
  }

  lemma FourSymbols<B>(bits: B -> seq<bool>, b0: B, b1: B, b2: B, b3: B)
    ensures Bits(bits, [b0, b1, b2, b3]) == bits(b0) + (bits(b1) + (bits(b2) + bits(b3)))
  {
    assert [b0, b1, b2, b3][1..] == [b1, b2, b3] && [b1, b2, b3][1..] == [b2, b3];
    assert [b2, b3][1..] == [b3] && [b3][1..] == [];
    assert Bits(bits, [b3]) == bits(b3);
    assert Bits(bits, [b2, b3]) == bits(b2) + bits(b3);
  }

  /** Four symbols that carry eight bits of a word each, lowest first. */
  lemma FourBytes<T, B>(low: T -> bool, half: T -> T, bits: B -> seq<bool>, w: T, w1: T, w2: T, w3: T, w4: T,
                        b0: B, b1: B, b2: B, b3: B)
    requires Drop(half, w, 8) == w1 && Drop(half, w1, 8) == w2 && Drop(half, w2, 8) == w3 && Drop(half, w3, 8) == w4
    requires bits(b0) == LowBits(low, half, w, 8) && bits(b1) == LowBits(low, half, w1, 8)
    requires bits(b2) == LowBits(low, half, w2, 8) && bits(b3) == LowBits(low, half, w3, 8)
    ensures Bits(bits, [b0, b1, b2, b3]) == LowBits(low, half, w, 32) && Drop(half, w, 32) == w4
  {
    LowBitsConcat(low, half, w, 8, 24);
    LowBitsConcat(low, half, w1, 8, 16);
    LowBitsConcat(low, half, w2, 8, 8);
    DropTwice(half, w, 8, 24);
    DropTwice(half, w1, 8, 16);
    DropTwice(half, w2, 8, 8);
    FourSymbols(bits, b0, b1, b2, b3);
  }

  lemma FeedZeros32<T>(step: (T, bool) -> T, c: T, c1: T, c2: T, c3: T)
    requires Feed(step, c, Zeros(8)) == c1 && Feed(step, c1, Zeros(8)) == c2 && Feed(step, c2, Zeros(8)) == c3
    ensures Feed(step, c, Zeros(32)) == Feed(step, c3, Zeros(8))
  {
    assert Zeros(32) == Zeros(8) + (Zeros(8) + (Zeros(8) + Zeros(8)));
    FeedConcat(step, c, Zeros(8), Zeros(8) + (Zeros(8) + Zeros(8)));
    FeedConcat(step, c1, Zeros(8), Zeros(8) + Zeros(8));
    FeedConcat(step, c2, Zeros(8), Zeros(8));
  }

  /** A message followed by its own checksum leaves the register in one and the same state, when the
      inversion of the register is the sum with a fixed word. */
  lemma ResidueIsFixed<T(!new)>(step: (T, bool) -> T, xor: (T, T) -> T, low: T -> bool, half: T -> T,
                                zero: T, ones: T, c: T, w: T, n: nat, sent: seq<bool>)
    requires Waits(step, xor, low, half) && xor(c, w) == ones && forall a :: xor(a, zero) == a
    requires sent == LowBits(low, half, w, n) && Drop(half, w, n) == zero
    ensures Feed(step, c, sent) == Feed(step, ones, Zeros(n))
  {
    WaitingBits(step, xor, low, half, c, w, n);
  }
}
