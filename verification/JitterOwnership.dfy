/** Payload ownership: every block the buffer allocates is held by one slot or was freed once. */
module JitterOwnership {
  import opened Circular
  import opened JitterModel
  import opened JitterRing
  import opened Wrappers

  ghost predicate Held(slots: seq<Slot>, id: nat) {
    exists k :: 0 <= k < |slots| && slots[k].packet.Some? && slots[k].packet.value.id == id
  }

  /** Blocks below nextId have been allocated. Each was freed exactly once if no slot holds it, and
      never if one does; no block is held twice. */
  ghost predicate Owns(r: Ring, nextId: nat) {
    && |r.slots| == CAPACITY
    && (forall k :: 0 <= k < CAPACITY && r.slots[k].packet.Some? ==> r.slots[k].packet.value.id < nextId)
    && (forall j, k :: 0 <= j < k < CAPACITY && r.slots[j].packet.Some? && r.slots[k].packet.Some? ==>
          r.slots[j].packet.value.id != r.slots[k].packet.value.id)
    && (forall id: nat :: r.freed[id] == if id < nextId && !Held(r.slots, id) then 1 else 0)
  }

  /** A slot without a packet is cleared; a pushed packet sits at its number modulo 1000. */
  ghost predicate Tidy(slots: seq<Slot>) {
    && |slots| == CAPACITY
    && (forall k :: 0 <= k < CAPACITY && slots[k].packet.None? ==> slots[k] == EMPTY)
    && (forall k :: 0 <= k < CAPACITY && slots[k].isPushed ==> Index(slots[k].sequenceNumber) == k)
  }

  /** Between two operations the slots with a packet are exactly the pushed ones. */
  ghost predicate Settled(slots: seq<Slot>) {
    forall k :: 0 <= k < |slots| && slots[k].packet.Some? ==> slots[k].isPushed
  }

  ghost predicate Good(r: Ring, nextId: nat) {
    Owns(r, nextId) && Tidy(r.slots) && Settled(r.slots)
  }

  // ---------- Discarding ----------

  lemma HeldAfter(slots: seq<Slot>, k: nat, slot: Slot, id: nat)
    requires k < |slots|
    requires slots[k].packet.Some? ==> slots[k].packet.value.id != id
    requires slot.packet.Some? ==> slot.packet.value.id != id
    ensures Held(slots[k := slot], id) <==> Held(slots, id)
  {
    if Held(slots, id) {
      var j :| 0 <= j < |slots| && slots[j].packet.Some? && slots[j].packet.value.id == id;
      assert slots[k := slot][j] == slots[j];
    }
    if Held(slots[k := slot], id) {
      var j :| 0 <= j < |slots| && slots[k := slot][j].packet.Some? && slots[k := slot][j].packet.value.id == id;
      assert slots[k := slot][j] == slots[j];
    }
  }

  lemma DiscardOwns(r: Ring, nextId: nat, k: nat)
    requires Owns(r, nextId) && k < CAPACITY
    ensures Owns(Discard(r, k), nextId)
  {
    if r.slots[k].packet.Some? {
      var gone := r.slots[k].packet.value.id;
      var r' := Discard(r, k);
      assert Held(r.slots, gone);
      forall id: nat ensures r'.freed[id] == if id < nextId && !Held(r'.slots, id) then 1 else 0 {
        if id != gone {
          HeldAfter(r.slots, k, EMPTY, id);
        }
      }
    }
  }

  lemma DiscardGood(r: Ring, nextId: nat, k: nat)
    requires Good(r, nextId) && k < CAPACITY
    ensures Good(Discard(r, k), nextId)
  {
    DiscardOwns(r, nextId, k);
  }

  lemma {:induction false} DiscardRunGood(r: Ring, nextId: nat, s: Seq16, n: nat)
    requires Good(r, nextId)
    ensures Good(DiscardRun(r, s, n), nextId)
    decreases n
  {
    if n > 0 {
      DiscardGood(r, nextId, Index(s));
      DiscardRunGood(Discard(r, Index(s)), nextId, Plus(s, 1), n - 1);
    }
  }

  // ---------- Parse passes ----------

  lemma InspectGood(c: Params, s: Scan, nextId: nat)
    requires Good(s.ring, nextId)
    ensures Good(Inspect(c, s).scan.ring, nextId)
  {
    DiscardGood(s.ring, nextId, Index(s.i));
  }

  lemma GoodIsFull(r: Ring, nextId: nat)
    requires Good(r, nextId)
    ensures |r.slots| == CAPACITY
  {
  }

  lemma ApproachGood(c: Params, s: Scan, nextId: nat)
    requires Good(s.ring, nextId)
    ensures Good(Approach(c, s).scan.ring, nextId)
  {
    hide Good, Expired, DiscardRun, Span;
    GoodIsFull(s.ring, nextId);
    DiscardRunGood(s.ring, nextId, s.first, Span(s.first, s.prev));
    if s.start.Some? {
      DiscardRunGood(s.ring, nextId, s.start.value, Span(s.start.value, s.prev));
    }
  }

  lemma VisitGood(c: Params, s: Scan, nextId: nat)
    requires Good(s.ring, nextId)
    ensures Good(Visit(c, s).scan.ring, nextId)
  {
    hide Good, Approach, Inspect;
    GoodIsFull(s.ring, nextId);
    ApproachGood(c, s, nextId);
    InspectGood(c, Approach(c, s).scan, nextId);
  }

  lemma {:induction false} WalkGood(c: Params, s: Scan, n: nat, nextId: nat)
    requires Good(s.ring, nextId)
    ensures Good(Walk(c, s, n).scan.ring, nextId)
    decreases n
  {
    hide Good, Visit;
    GoodIsFull(s.ring, nextId);
    if n > 0 {
      VisitGood(c, s, nextId);
      if Visit(c, s).Next? {
        WalkGood(c, Visit(c, s).scan, n - 1, nextId);
      }
    }
  }

  lemma {:induction false} SweepGood(handler: Handler, lastPop: Time32, s: Sweep, n: nat, nextId: nat)
    requires Good(s.ring, nextId)
    ensures Good(SweepAll(handler, lastPop, s, n).ring, nextId)
    decreases n
  {
    DiscardRunGood(s.ring, nextId, s.first, Span(s.first, s.prev));
    if n > 0 {
      SweepGood(handler, lastPop, SweepStep(handler, lastPop, s), n - 1, nextId);
    }
  }

  lemma ParseGood(b: Buffer, closing: bool, codec: Codec, handler: Handler)
    requires Good(b.ring, b.nextId)
    ensures Good(Parse(b, closing, codec, handler).buffer.ring, b.nextId)
    ensures Parse(b, closing, codec, handler).buffer.nextId == b.nextId
    ensures Parse(b, closing, codec, handler).buffer.isInit == b.isInit
  {
    WalkGood(ParamsOf(b, closing, codec, handler), StartScan(b.ring, b.oldest, b.lastPop),
             Span(b.oldest, b.newest), b.nextId);
    if closing {
      var o := ScanBuffer(b, closing, codec, handler).scan;
      SweepGood(handler, o.lastPop, Sweep(o.ring, o.oldest, o.oldest, o.oldest, o.log),
                Span(o.oldest, b.newest), b.nextId);
    }
  }

  // ---------- Receiving ----------

  /** The slot between allocation and push holds a packet that is not pushed yet. */
  ghost predicate Pending(b: Buffer, s: Seq16) {
    && Owns(b.ring, b.nextId) && Tidy(b.ring.slots)
    && var slot := b.ring.slots[Index(s)];
    && slot.packet.Some? && !slot.isPushed && slot.sequenceNumber == s
    && Settled(b.ring.slots[Index(s) := slot.(isPushed := true)])
  }

  lemma AllocateOwns(b: Buffer, s: Seq16, size: nat)
    requires Good(b.ring, b.nextId) && b.isInit && size > 0
    ensures Owns(Allocate(b, s, size).ring, Allocate(b, s, size).nextId)
  {
    var k := Index(s);
    DiscardGood(b.ring, b.nextId, k);
    var r := Discard(b.ring, k);
    var b' := Allocate(b, s, size);
    assert b'.ring.slots[k].packet.Some? && b'.ring.slots[k].packet.value.id == b.nextId;
    forall id: nat ensures b'.ring.freed[id] == if id < b'.nextId && !Held(b'.ring.slots, id) then 1 else 0 {
      if id != b.nextId {
        HeldAfter(r.slots, k, b'.ring.slots[k], id);
      } else {
        assert Held(b'.ring.slots, id);
      }
    }
  }

  /** Changing a slot without changing which block it holds keeps ownership. */
  lemma RelabelOwns(r: Ring, nextId: nat, k: nat, slot: Slot)
    requires Owns(r, nextId) && k < CAPACITY
    requires r.slots[k].packet.Some? && slot.packet.Some? && slot.packet.value.id == r.slots[k].packet.value.id
    ensures Owns(r.(slots := r.slots[k := slot]), nextId)
  {
    var r' := r.(slots := r.slots[k := slot]);
    forall id: nat ensures Held(r'.slots, id) <==> Held(r.slots, id) {
      if id == slot.packet.value.id {
        assert r.slots[k].packet.value.id == id && r'.slots[k].packet.value.id == id;
      } else {
        HeldAfter(r.slots, k, slot, id);
      }
    }
  }

  lemma FillPending(b: Buffer, s: Seq16, timestamp: Time32, data: seq<bv8>)
    requires Good(b.ring, b.nextId) && b.isInit && data != []
    ensures Pending(Fill(Allocate(b, s, |data|), s, timestamp, data), s)
  {
    AllocateOwns(b, s, |data|);
    DiscardGood(b.ring, b.nextId, Index(s));
    var a := Allocate(b, s, |data|);
    RelabelOwns(a.ring, a.nextId, Index(s), Fill(a, s, timestamp, data).ring.slots[Index(s)]);
  }

  lemma DiscardPendingGood(b: Buffer, s: Seq16)
    requires Pending(b, s)
    ensures Good(Discard(b.ring, Index(s)), b.nextId)
  {
    var k := Index(s);
    DiscardOwns(b.ring, b.nextId, k);
    var pushed := b.ring.slots[k := b.ring.slots[k].(isPushed := true)];
    forall j | 0 <= j < CAPACITY && j != k && b.ring.slots[j].packet.Some?
      ensures b.ring.slots[j].isPushed
    {
      assert pushed[j] == b.ring.slots[j];
    }
  }

  lemma PushGood(b: Buffer, s: Seq16, codec: Codec, handler: Handler)
    requires Pending(b, s)
    ensures var b' := Push(b, Index(s), codec, handler).buffer;
      Good(b'.ring, b'.nextId) && b'.nextId == b.nextId && b'.isInit == b.isInit
  {
    var k := Index(s);
    DiscardPendingGood(b, s);
    RelabelOwns(b.ring, b.nextId, k, b.ring.slots[k].(isPushed := true));
    var p := b.ring.slots[k];
    var b1 := if b.isStart then b
              else b.(isStart := true, newest := p.sequenceNumber, newestTimestamp := p.rtpTimestamp,
                      oldest := p.sequenceNumber);
    if b.isInit && Accepts(b1.newest, p.sequenceNumber) {
      var b2 := b1.(ring := b1.ring.(slots := b1.ring.slots[k := p.(isPushed := true)]));
      ParseGood(AddPacket(b2, p.sequenceNumber, p.rtpTimestamp), false, codec, handler);
    }
  }

  lemma ReceiveGood(b: Buffer, s: Seq16, timestamp: Time32, data: seq<bv8>, codec: Codec, handler: Handler)
    requires Good(b.ring, b.nextId)
    ensures var b' := Receive(b, s, timestamp, data, codec, handler).buffer;
      && Good(b'.ring, b'.nextId) && b'.isInit == b.isInit
      && b'.nextId == b.nextId + if b.isInit && data != [] then 1 else 0
  {
    if b.isInit && data != [] {
      FillPending(b, s, timestamp, data);
      PushGood(Fill(Allocate(b, s, |data|), s, timestamp, data), s, codec, handler);
    }
  }

  // ---------- Free and Create ----------

  ghost predicate AllEmpty(slots: seq<Slot>) {
    forall k :: 0 <= k < |slots| ==> slots[k] == EMPTY
  }

  lemma GoodIsTidy(r: Ring, nextId: nat)
    requires Good(r, nextId)
    ensures |r.slots| == CAPACITY && forall k :: 0 <= k < CAPACITY && r.slots[k].packet.None? ==> r.slots[k] == EMPTY
  {
  }

  lemma EmptyOwnsNothing(r: Ring, nextId: nat)
    requires Good(r, nextId) && AllEmpty(r.slots)
    ensures forall id: nat :: r.freed[id] == if id < nextId then 1 else 0
  {
  }

  /** After Free every slot is cleared and every block ever allocated has been freed exactly once. */
  lemma FreeReleasesAll(b: Buffer, codec: Codec, handler: Handler)
    requires Good(b.ring, b.nextId) && b.isInit
    ensures var b' := Free(b, codec, handler).buffer;
      && Good(b'.ring, b'.nextId) && AllEmpty(b'.ring.slots)
      && b'.nextId == b.nextId && !b'.isInit
      && forall id: nat :: b'.ring.freed[id] == if id < b.nextId then 1 else 0
  {
    hide Walk, SweepAll, Good, DiscardRun;
    GoodIsFull(b.ring, b.nextId);
    ParseGood(b.(isInit := false), true, codec, handler);
    var b1 := Parse(b.(isInit := false), true, codec, handler).buffer;
    DiscardRunGood(b1.ring, b.nextId, 0, CAPACITY);
    DiscardRunEffect(b1.ring, 0, CAPACITY);
    GoodIsTidy(b1.ring, b.nextId);
    forall k | 0 <= k < CAPACITY ensures Free(b, codec, handler).buffer.ring.slots[k] == EMPTY {
      AllCovered(k);
    }
    EmptyOwnsNothing(Free(b, codec, handler).buffer.ring, b.nextId);
  }

  /** Create keeps ownership exactly when it refuses, or the ring it clears holds no packet. */
  lemma CreateKeepsOwnershipIff(b: Buffer, toleranceSec: Time32, clockRate: Time32, bits: CodecBits)
    requires Good(b.ring, b.nextId)
    ensures var b' := Create(b, toleranceSec, clockRate, bits).0;
      Good(b'.ring, b'.nextId) <==> bits.NoBits? || AllEmpty(b.ring.slots)
  {
    var b' := Create(b, toleranceSec, clockRate, bits).0;
    if bits.NoBits? {
      return;
    }
    assert AllEmpty(b'.ring.slots);
    if AllEmpty(b.ring.slots) {
      forall id: nat ensures !Held(b.ring.slots, id) && !Held(b'.ring.slots, id) {}
    } else {
      var k :| 0 <= k < CAPACITY && b.ring.slots[k] != EMPTY;
      var lost := b.ring.slots[k].packet.value.id;
      assert Held(b.ring.slots, lost);
      assert !Held(b'.ring.slots, lost);
      assert b.ring.freed[lost] == 0;
    }
  }

  // ---------- Runs ----------

  datatype Event =
    | Created(toleranceSec: Time32, clockRate: Time32, bits: CodecBits)
    | Received(s: Seq16, timestamp: Time32, data: seq<bv8>, handler: Handler)
    | Freed(handler: Handler)

  function Apply(b: Buffer, e: Event, codec: Codec): (b': Buffer)
    requires b.Valid()
    ensures b'.Valid()
  {
    match e
    case Created(toleranceSec, clockRate, bits) => Create(b, toleranceSec, clockRate, bits).0
    case Received(s, timestamp, data, handler) => Receive(b, s, timestamp, data, codec, handler).buffer
    case Freed(handler) => Free(b, codec, handler).buffer
  }

  function Run(b: Buffer, events: seq<Event>, codec: Codec): (b': Buffer)
    requires b.Valid()
    ensures b'.Valid()
    decreases |events|
  {
    if events == [] then b else Run(Apply(b, events[0], codec), events[1..], codec)
  }

  predicate Clears(e: Event) {
    e.Created? && !e.bits.NoBits?
  }

  /** A buffer in use is not created again before it is freed. */
  predicate CreatesOnlyFreed(b: Buffer, events: seq<Event>, codec: Codec)
    requires b.Valid()
    decreases |events|
  {
    events != [] ==>
      && (Clears(events[0]) ==> !b.isInit)
      && CreatesOnlyFreed(Apply(b, events[0], codec), events[1..], codec)
  }

  ghost predicate Sound(b: Buffer) {
    Good(b.ring, b.nextId) && (b.isInit || AllEmpty(b.ring.slots))
  }

  lemma ApplySound(b: Buffer, e: Event, codec: Codec)
    requires Sound(b) && (Clears(e) ==> !b.isInit)
    ensures Sound(Apply(b, e, codec))
  {
    match e
    case Created(toleranceSec, clockRate, bits) =>
      CreateKeepsOwnershipIff(b, toleranceSec, clockRate, bits);
    case Received(s, timestamp, data, handler) =>
      ReceiveGood(b, s, timestamp, data, codec, handler);
    case Freed(handler) =>
      if b.isInit {
        FreeReleasesAll(b, codec, handler);
      }
  }

  /** Ownership holds after every run of receive steps (accepted, rejected, duplicate, evicting),
      the parse passes they trigger, Free and Create. */
  lemma {:induction false} RunKeepsOwnership(b: Buffer, events: seq<Event>, codec: Codec)
    requires Sound(b) && CreatesOnlyFreed(b, events, codec)
    ensures Sound(Run(b, events, codec))
    decreases |events|
  {
    if events != [] {
      ApplySound(b, events[0], codec);
      RunKeepsOwnership(Apply(b, events[0], codec), events[1..], codec);
    }
  }
}
