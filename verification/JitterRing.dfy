/** What discarding does to the ring, and when the ring behaves like a map from sequence numbers. */
module JitterRing {
  import opened Circular
  import opened JitterModel
  import opened Wrappers

  ghost predicate Covers(s: Seq16, n: nat, k: nat) {
    exists j :: 0 <= j < n && Index(Plus(s, j)) == k
  }

  lemma CoversStep(s: Seq16, n: nat, k: nat)
    requires n > 0
    ensures Covers(s, n, k) <==> Index(s) == k || Covers(Plus(s, 1), n - 1, k)
  {
    PlusPlus(s, 0, 0);
    assert Plus(s, 0) == s;
    if Covers(s, n, k) {
      var j :| 0 <= j < n && Index(Plus(s, j)) == k;
      if j > 0 {
        PlusPlus(s, 1, j - 1);
      }
    }
    if Covers(Plus(s, 1), n - 1, k) {
      var j :| 0 <= j < n - 1 && Index(Plus(Plus(s, 1), j)) == k;
      PlusPlus(s, 1, j);
      assert Index(Plus(s, j + 1)) == k;
    }
  }

  /** A run of discards empties exactly the slots it covers. */
  lemma {:induction false} DiscardRunEffect(r: Ring, s: Seq16, n: nat)
    requires |r.slots| == CAPACITY
    ensures forall k :: 0 <= k < CAPACITY ==>
              DiscardRun(r, s, n).slots[k] ==
              if Covers(s, n, k) && r.slots[k].packet.Some? then EMPTY else r.slots[k]
    decreases n
  {
    if n > 0 {
      var r1 := Discard(r, Index(s));
      DiscardRunEffect(r1, Plus(s, 1), n - 1);
      forall k | 0 <= k < CAPACITY
        ensures DiscardRun(r, s, n).slots[k] ==
                if Covers(s, n, k) && r.slots[k].packet.Some? then EMPTY else r.slots[k]
      {
        CoversStep(s, n, k);
      }
    }
  }

  /** Discarding all 1000 indices leaves no packet. */
  lemma AllCovered(k: nat)
    requires k < CAPACITY
    ensures Covers(0, CAPACITY, k)
  {
    assert Index(Plus(0, k)) == k;
  }

  // ---------- Slot collisions ----------

  /** Since 1000 does not divide 65536, two numbers less than 1000 apart share a slot exactly when
      they are 536 apart across the wrap. */
  lemma SharesSlotIff(a: Seq16, d: int)
    requires 0 < d < CAPACITY
    ensures Index(a) == Index(Plus(a, d)) <==> a + d >= 0x10000 && d == 536
  {
    if a + d < 0x10000 {
      assert Plus(a, d) == a + d;
    } else {
      assert Plus(a, d) == a + d - 0x10000;
      assert 0x10000 == 65 * CAPACITY + 536;
    }
  }

  ghost predicate InWindow(w: Seq16, s: Seq16) {
    Dist(w, s) < 536
  }

  lemma StepFromWindow(w: Seq16, s: Seq16, t: Seq16)
    requires Dist(w, s) <= Dist(w, t)
    ensures Plus(s, Dist(w, t) - Dist(w, s)) == t
  {
    PlusDist(w, s);
    PlusDist(w, t);
    PlusPlus(w, Dist(w, s), Dist(w, t) - Dist(w, s));
  }

  lemma WindowHasNoCollision(w: Seq16, s: Seq16, t: Seq16)
    requires InWindow(w, s) && InWindow(w, t) && Index(s) == Index(t)
    ensures s == t
  {
    if Dist(w, s) <= Dist(w, t) {
      StepFromWindow(w, s, t);
      if Dist(w, s) < Dist(w, t) {
        SharesSlotIff(s, Dist(w, t) - Dist(w, s));
      }
    } else {
      StepFromWindow(w, t, s);
      SharesSlotIff(t, Dist(w, s) - Dist(w, t));
    }
  }

  // ---------- The ring as a map ----------

  datatype Op = Store(s: Seq16, timestamp: Time32, data: seq<bv8>) | Remove(s: Seq16)

  function Perform(b: Buffer, op: Op): (b': Buffer)
    requires b.Valid() && b.isInit
    ensures b'.Valid() && b'.isInit
  {
    match op
    case Store(s, timestamp, data) =>
      if data == [] then b else Fill(Allocate(b, s, |data|), s, timestamp, data)
    case Remove(s) => b.(ring := Discard(b.ring, Index(s)))
  }

  function PerformAll(b: Buffer, ops: seq<Op>): (b': Buffer)
    requires b.Valid() && b.isInit
    ensures b'.Valid() && b'.isInit
  {
    if ops == [] then b else Perform(PerformAll(b, ops[..|ops| - 1]), ops[|ops| - 1])
  }

  type Packets = map<Seq16, (Time32, seq<bv8>)>

  function Update(m: Packets, op: Op): Packets {
    match op
    case Store(s, timestamp, data) => if data == [] then m else m[s := (timestamp, data)]
    case Remove(s) => m - {s}
  }

  /** The packets a map from sequence numbers would hold. */
  function Contents(ops: seq<Op>): Packets {
    if ops == [] then map[] else Update(Contents(ops[..|ops| - 1]), ops[|ops| - 1])
  }

  /** One window of 536 takes in the number and all the live ones. */
  ghost predicate Fits(live: Packets, s: Seq16) {
    exists w: Seq16 :: InWindow(w, s) && forall t :: t in live ==> InWindow(w, t)
  }

  /** Each operation fits with the packets alive just before it. The window may move from operation to
      operation, so the run may go around the sequence numbers any number of times. */
  ghost predicate Slides(ops: seq<Op>) {
    forall n :: 0 <= n < |ops| ==> Fits(Contents(ops[..n]), ops[n].s)
  }

  ghost predicate Holds(slot: Slot, s: Seq16, packet: (Time32, seq<bv8>)) {
    && slot.packet.Some? && slot.packet.value.data == packet.1
    && slot.sequenceNumber == s && slot.rtpTimestamp == packet.0
  }

  /** The ring holds the packets of the map, and nothing else. */
  ghost predicate Agrees(slots: seq<Slot>, m: Packets) {
    && |slots| == CAPACITY
    && (forall s :: s in m ==> Holds(slots[Index(s)], s, m[s]))
    && (forall k :: 0 <= k < CAPACITY ==> slots[k] == EMPTY || exists s :: s in m && Index(s) == k)
  }

  /** A number that fits shares its slot with no other live number. */
  lemma OwnSlot(live: Packets, s: Seq16, t: Seq16)
    requires Fits(live, s) && t in live && Index(t) == Index(s)
    ensures t == s
  {
    var w: Seq16 :| InWindow(w, s) && forall t :: t in live ==> InWindow(w, t);
    WindowHasNoCollision(w, s, t);
  }

  /** An operation touches one slot. */
  lemma PerformEffect(b: Buffer, op: Op)
    requires b.Valid() && b.isInit
    requires var slot := b.ring.slots[Index(op.s)]; slot == EMPTY || slot.packet.Some?
    ensures var slots' := Perform(b, op).ring.slots;
      && (forall k :: 0 <= k < CAPACITY && k != Index(op.s) ==> slots'[k] == b.ring.slots[k])
      && match op
         case Store(s, t, data) =>
           if data == [] then slots' == b.ring.slots else Holds(slots'[Index(s)], s, (t, data))
         case Remove(s) => slots'[Index(s)] == EMPTY
  {
  }

  lemma PerformAgrees(b: Buffer, op: Op, m: Packets)
    requires b.Valid() && b.isInit && Agrees(b.ring.slots, m) && Fits(m, op.s)
    ensures Agrees(Perform(b, op).ring.slots, Update(m, op))
  {
    hide Perform, Fits;
    var slots, slots', m' := b.ring.slots, Perform(b, op).ring.slots, Update(m, op);
    SlotIsEmptyOrHeld(slots, m, Index(op.s));
    PerformEffect(b, op);
    forall t | t in m' ensures Holds(slots'[Index(t)], t, m'[t]) {
      if t != op.s && Index(t) == Index(op.s) {
        OwnSlot(m, op.s, t);
      }
    }
    forall k | 0 <= k < CAPACITY && slots'[k] != EMPTY ensures exists t :: t in m' && Index(t) == k {
      if k == Index(op.s) && m' != m && op.Store? {
        assert op.s in m';
      } else {
        var t :| t in m && Index(t) == k;
        assert t in m';
      }
    }
  }

  lemma SlotIsEmptyOrHeld(slots: seq<Slot>, m: Packets, k: nat)
    requires Agrees(slots, m) && k < CAPACITY
    ensures slots[k] == EMPTY || slots[k].packet.Some?
  {
    if slots[k] != EMPTY {
      var t :| t in m && Index(t) == k;
      assert Holds(slots[Index(t)], t, m[t]);
    }
  }

  /** The ring behaves as a map over every run whose live packets slide along in windows of 536. */
  lemma {:induction false} RingAgreesWithMap(b: Buffer, ops: seq<Op>)
    requires b.Valid() && b.isInit && forall k :: 0 <= k < CAPACITY ==> b.ring.slots[k] == EMPTY
    requires Slides(ops)
    ensures Agrees(PerformAll(b, ops).ring.slots, Contents(ops))
    decreases |ops|
  {
    hide Agrees, Perform, Update, Fits;
    if ops == [] {
      NothingAgrees(b.ring.slots);
    } else {
      var before, op := ops[..|ops| - 1], ops[|ops| - 1];
      forall n | 0 <= n < |before| ensures Fits(Contents(before[..n]), before[n].s) {
        assert before[..n] == ops[..n];
      }
      RingAgreesWithMap(b, before);
      PerformAgrees(PerformAll(b, before), op, Contents(before));
    }
  }

  lemma NothingAgrees(slots: seq<Slot>)
    requires |slots| == CAPACITY && forall k :: 0 <= k < CAPACITY ==> slots[k] == EMPTY
    ensures Agrees(slots, map[])
  {
  }

  /** So a lookup of a number that fits with the live ones answers as a map does. Number 0 is the
      exception: an empty slot 0 answers for it. */
  lemma GetPacketAgreesWithMap(b: Buffer, ops: seq<Op>, s: Seq16)
    requires b.Valid() && b.isInit && forall k :: 0 <= k < CAPACITY ==> b.ring.slots[k] == EMPTY
    requires Slides(ops) && Fits(Contents(ops), s)
    ensures var (result, slot) := GetPacket(PerformAll(b, ops), s);
      && (s in Contents(ops) ==> result == Ok && Holds(slot.value, s, Contents(ops)[s]))
      && (s !in Contents(ops) ==> (result == NotFound <==> s != 0) && (s == 0 ==> slot == Some(EMPTY)))
  {
    hide PerformAll, Contents, Fits;
    RingAgreesWithMap(b, ops);
    var slots, m := PerformAll(b, ops).ring.slots, Contents(ops);
    if s !in m && slots[Index(s)] != EMPTY {
      var t :| t in m && Index(t) == Index(s);
      OwnSlot(m, s, t);
    }
  }

  /** The window cannot be wider: two packets 536 apart across the wrap evict each other. */
  lemma WiderWindowEvicts(b: Buffer, s: Seq16, t: Time32, data: seq<bv8>)
    requires b.Valid() && b.isInit && data != []
    requires s + 536 >= 0x10000
    ensures GetPacket(PerformAll(b, [Store(s, t, data), Store(Plus(s, 536), t, data)]), s).0 == NotFound
  {
    var ops := [Store(s, t, data), Store(Plus(s, 536), t, data)];
    assert ops[..1] == [ops[0]] && ops[..1][..0] == [];
    SharesSlotIff(s, 536);
    assert PerformAll(b, ops) == Perform(PerformAll(b, ops[..1]), ops[1]);
  }
}
