/** No payload is reported twice, over any run. */
module JitterDelivery {
  import opened Circular
  import opened JitterModel
  import opened JitterRing
  import opened JitterOwnership
  import opened JitterCursors
  import opened Wrappers

  ghost predicate CarriesAt(r: Report, j: nat, id: nat) {
    && |r.slots| == CAPACITY
    && var p := r.slots[Index(Plus(r.first, j))];
       p.packet.Some? && p.packet.value.id == id
  }

  /** The reported range holds the payload. */
  ghost predicate Carries(r: Report, id: nat) {
    exists j :: 0 <= j < Span(r.first, r.last) && CarriesAt(r, j, id)
  }

  ghost predicate Gone(r: Report, slots: seq<Slot>, nextId: nat) {
    forall id: nat :: Carries(r, id) ==> id < nextId && !Held(slots, id)
  }

  ghost predicate Disjoint(r: Report, r': Report) {
    forall id: nat :: Carries(r, id) ==> !Carries(r', id)
  }

  /** Payloads reported so far are gone from the ring, and no two reports carry the same one. */
  ghost predicate Spent(log: seq<Report>, slots: seq<Slot>, nextId: nat) {
    && (forall k :: 0 <= k < |log| ==> Gone(log[k], slots, nextId))
    && (forall j, k :: 0 <= j < k < |log| ==> Disjoint(log[j], log[k]))
  }

  lemma StillGone(log: seq<Report>, slots: seq<Slot>, nextId: nat, slots': seq<Slot>, nextId': nat)
    requires Spent(log, slots, nextId) && nextId <= nextId'
    requires forall id: nat :: id < nextId && Held(slots', id) ==> Held(slots, id)
    ensures Spent(log, slots', nextId')
  {
    forall k | 0 <= k < |log| ensures Gone(log[k], slots', nextId') {
      assert Gone(log[k], slots, nextId);
    }
  }

  lemma ClearsKeepSpent(log: seq<Report>, slots: seq<Slot>, slots': seq<Slot>, nextId: nat)
    requires Spent(log, slots, nextId) && |slots| == |slots'| && OnlyClears(slots, slots')
    ensures Spent(log, slots', nextId)
  {
    forall id: nat | Held(slots', id) ensures Held(slots, id) {
      var k :| 0 <= k < |slots'| && slots'[k].packet.Some? && slots'[k].packet.value.id == id;
      assert slots[k].packet.Some? && slots[k].packet.value.id == id;
    }
    StillGone(log, slots, nextId, slots', nextId);
  }

  lemma CarriedIsHeld(r: Report, id: nat)
    requires Carries(r, id)
    ensures Held(r.slots, id)
  {
    var j :| 0 <= j < Span(r.first, r.last) && CarriesAt(r, j, id);
    assert r.slots[Index(Plus(r.first, j))].packet.value.id == id;
  }

  lemma CarriedIsReleased(ring: Ring, nextId: nat, r: Report, id: nat)
    requires Owns(ring, nextId) && r.slots == ring.slots && Carries(r, id)
    ensures !Held(DiscardRun(ring, r.first, Span(r.first, r.last)).slots, id)
  {
    var n := Span(r.first, r.last);
    var j :| 0 <= j < n && CarriesAt(r, j, id);
    var slots := DiscardRun(ring, r.first, n).slots;
    var k := Index(Plus(r.first, j));
    DiscardRunEffect(ring, r.first, n);
    assert Covers(r.first, n, k);
    forall i | 0 <= i < |slots| && slots[i].packet.Some?
      ensures slots[i].packet.value.id != id
    {
      assert i != k && slots[i] == ring.slots[i];
      if i < k {
        assert ring.slots[i].packet.value.id != ring.slots[k].packet.value.id;
      }
    }
  }

  lemma DiscardRunClears(ring: Ring, s: Seq16, n: nat)
    requires |ring.slots| == CAPACITY
    ensures OnlyClears(ring.slots, DiscardRun(ring, s, n).slots)
  {
    DiscardRunEffect(ring, s, n);
  }

  lemma HeldHasId(ring: Ring, nextId: nat, id: nat)
    requires Owns(ring, nextId) && Held(ring.slots, id)
    ensures id < nextId
  {
  }

  /** Reporting a range and discarding it spends the payloads of the range. */
  lemma ReportSpends(log: seq<Report>, ring: Ring, nextId: nat, r: Report)
    requires Owns(ring, nextId) && Spent(log, ring.slots, nextId) && r.slots == ring.slots
    ensures Spent(log + [r], DiscardRun(ring, r.first, Span(r.first, r.last)).slots, nextId)
  {
    var slots := DiscardRun(ring, r.first, Span(r.first, r.last)).slots;
    DiscardRunClears(ring, r.first, Span(r.first, r.last));
    ClearsKeepSpent(log, ring.slots, slots, nextId);
    forall id: nat | Carries(r, id) ensures Held(ring.slots, id) && id < nextId && !Held(slots, id) {
      CarriedIsHeld(r, id);
      CarriedIsReleased(ring, nextId, r, id);
      HeldHasId(ring, nextId, id);
    }
    assert Gone(r, slots, nextId);
    forall k | 0 <= k < |log| ensures Disjoint(log[k], r) {
      assert Gone(log[k], ring.slots, nextId);
    }
    AppendSpent(log, r, slots, nextId);
  }

  lemma AppendSpent(log: seq<Report>, r: Report, slots: seq<Slot>, nextId: nat)
    requires Spent(log, slots, nextId) && Gone(r, slots, nextId)
    requires forall k :: 0 <= k < |log| ==> Disjoint(log[k], r)
    ensures Spent(log + [r], slots, nextId)
  {
  }

  lemma InspectClears(c: Params, s: Scan)
    requires s.Valid()
    ensures OnlyClears(s.ring.slots, Inspect(c, s).scan.ring.slots) && Inspect(c, s).scan.log == s.log
  {
  }

  lemma FlushSpends(c: Params, s: Scan, nextId: nat, before: seq<Report>, isReady: bool, first: Seq16)
    requires Good(s.ring, nextId) && Spent(before + s.log, s.ring.slots, nextId)
    ensures var r := Flush(c, s, isReady, first).scan;
      Spent(before + r.log, r.ring.slots, nextId)
  {
    var report := Report(isReady, first, s.prev, s.ring.slots, s.lastPop);
    var ring := DiscardRun(s.ring, first, Span(first, s.prev));
    var packet := ring.slots[Index(s.i)];
    var s' := s.(ring := ring, oldest := packet.sequenceNumber, lastPop := packet.rtpTimestamp,
                 start := None, first := s.i, log := s.log + [report]);
    ReportSpends(before + s.log, s.ring, nextId, report);
    assert before + s'.log == before + s.log + [report];
    InspectClears(c, s');
    var r := Flush(c, s, isReady, first).scan;
    ClearsKeepSpent(before + s'.log, s'.ring.slots, r.ring.slots, nextId);
  }

  lemma VisitSpends(c: Params, s: Scan, nextId: nat, before: seq<Report>)
    requires Good(s.ring, nextId) && Spent(before + s.log, s.ring.slots, nextId)
    ensures var r := Visit(c, s).scan; Spent(before + r.log, r.ring.slots, nextId)
  {
    var p := s.Current();
    if !p.isPushed {
      var s' := s.(continuous := false);
      InspectClears(c, s');
      ClearsKeepSpent(before + s.log, s.ring.slots, Inspect(c, s').scan.ring.slots, nextId);
    } else if p.rtpTimestamp == s.lastPop {
      InspectClears(c, s);
      ClearsKeepSpent(before + s.log, s.ring.slots, Inspect(c, s).scan.ring.slots, nextId);
    } else if s.start.Some? && s.continuous {
      FlushSpends(c, s, nextId, before, true, s.start.value);
    } else {
      FlushSpends(c, s, nextId, before, false, s.first);
    }
  }

  lemma {:induction false} WalkSpends(c: Params, s: Scan, n: nat, nextId: nat, before: seq<Report>)
    requires Good(s.ring, nextId) && Spent(before + s.log, s.ring.slots, nextId)
    ensures var r := Walk(c, s, n).scan; Spent(before + r.log, r.ring.slots, nextId)
    decreases n
  {
    hide Good, Spent, Visit;
    GoodIsFull(s.ring, nextId);
    if n > 0 {
      VisitSpends(c, s, nextId, before);
      VisitGood(c, s, nextId);
      if Visit(c, s).Next? {
        WalkSpends(c, Visit(c, s).scan, n - 1, nextId, before);
      }
    }
  }

  lemma DropSpends(s: Sweep, lastPop: Time32, nextId: nat, before: seq<Report>)
    requires Good(s.ring, nextId) && Spent(before + s.log, s.ring.slots, nextId)
    ensures var d := DropRange(s, lastPop);
      Good(d.ring, nextId) && Spent(before + d.log, d.ring.slots, nextId)
  {
    var report := Report(false, s.first, s.prev, s.ring.slots, lastPop);
    ReportSpends(before + s.log, s.ring, nextId, report);
    assert before + (s.log + [report]) == before + s.log + [report];
    DiscardRunGood(s.ring, nextId, s.first, Span(s.first, s.prev));
  }

  lemma {:induction false} SweepSpends(handler: Handler, lastPop: Time32, s: Sweep, n: nat, nextId: nat,
                                       before: seq<Report>)
    requires Good(s.ring, nextId) && Spent(before + s.log, s.ring.slots, nextId)
    ensures var r := SweepAll(handler, lastPop, s, n); Spent(before + r.log, r.ring.slots, nextId)
    decreases n
  {
    hide Good, Spent, DiscardRun, Span;
    GoodIsFull(s.ring, nextId);
    DropSpends(s, lastPop, nextId, before);
    if n > 0 {
      SweepSpends(handler, lastPop, SweepStep(handler, lastPop, s), n - 1, nextId, before);
    }
  }

  lemma ParseSpends(b: Buffer, closing: bool, codec: Codec, handler: Handler, before: seq<Report>)
    requires Good(b.ring, b.nextId) && Spent(before, b.ring.slots, b.nextId)
    ensures var r := Parse(b, closing, codec, handler);
      Spent(before + r.log, r.buffer.ring.slots, r.buffer.nextId)
  {
    var c, s := ParamsOf(b, closing, codec, handler), StartScan(b.ring, b.oldest, b.lastPop);
    var n := Span(b.oldest, b.newest);
    assert before + [] == before;
    WalkSpends(c, s, n, b.nextId, before);
    WalkGood(c, s, n, b.nextId);
    if closing {
      var o := ScanBuffer(b, closing, codec, handler).scan;
      SweepSpends(handler, o.lastPop, Sweep(o.ring, o.oldest, o.oldest, o.oldest, o.log),
                  Span(o.oldest, b.newest), b.nextId, before);
    }
  }

  // ---------- Runs ----------

  /** A slot with a fresh block carries nothing that was reported. */
  lemma FreshKeepsSpent(log: seq<Report>, slots: seq<Slot>, k: nat, slot: Slot, nextId: nat)
    requires Spent(log, slots, nextId) && k < |slots|
    requires slot.packet.Some? && slot.packet.value.id == nextId
    ensures Spent(log, slots[k := slot], nextId + 1)
  {
    var slots' := slots[k := slot];
    forall id: nat | id < nextId && Held(slots', id) ensures Held(slots, id) {
      var j :| 0 <= j < |slots'| && slots'[j].packet.Some? && slots'[j].packet.value.id == id;
      assert j != k && slots[j].packet.value.id == id;
    }
    StillGone(log, slots, nextId, slots', nextId + 1);
  }

  /** The state of a receive step when the packet has been allocated, filled and marked as pushed. */
  function Stored(b: Buffer, s: Seq16, timestamp: Time32, data: seq<bv8>): Slot {
    Slot(true, s, timestamp, Some(Payload(b.nextId, data)))
  }

  lemma ReceiveStores(b: Buffer, s: Seq16, timestamp: Time32, data: seq<bv8>)
    requires Good(b.ring, b.nextId) && b.isInit && data != []
    ensures var f := Fill(Allocate(b, s, |data|), s, timestamp, data);
      && f.ring == Discard(b.ring, Index(s)).(slots := f.ring.slots)
      && f.ring.slots == Discard(b.ring, Index(s)).slots[Index(s) := Stored(b, s, timestamp, data).(isPushed := false)]
      && f.nextId == b.nextId + 1 && f.isInit
  {
    DiscardGood(b.ring, b.nextId, Index(s));
  }

  lemma RelabelKeepsSpent(log: seq<Report>, slots: seq<Slot>, k: nat, slot: Slot, nextId: nat)
    requires Spent(log, slots, nextId) && k < |slots| && slot.packet == slots[k].packet
    ensures Spent(log, slots[k := slot], nextId)
  {
    var slots' := slots[k := slot];
    forall id: nat | Held(slots', id) ensures Held(slots, id) {
      var j :| 0 <= j < |slots'| && slots'[j].packet.Some? && slots'[j].packet.value.id == id;
      assert slots[j].packet.value.id == id;
    }
    StillGone(log, slots, nextId, slots', nextId);
  }

  lemma PendingGood(b: Buffer, s: Seq16)
    requires Pending(b, s)
    ensures var k := Index(s);
      Good(b.ring.(slots := b.ring.slots[k := b.ring.slots[k].(isPushed := true)]), b.nextId)
  {
    RelabelOwns(b.ring, b.nextId, Index(s), b.ring.slots[Index(s)].(isPushed := true));
  }

  lemma PushSpends(b: Buffer, s: Seq16, codec: Codec, handler: Handler, before: seq<Report>)
    requires Pending(b, s) && b.isInit && Spent(before, b.ring.slots, b.nextId)
    ensures var r := Push(b, Index(s), codec, handler);
      Spent(before + r.log, r.buffer.ring.slots, r.buffer.nextId)
  {
    var k := Index(s);
    var p := b.ring.slots[k];
    var b1 := if b.isStart then b
              else b.(isStart := true, newest := p.sequenceNumber, newestTimestamp := p.rtpTimestamp,
                      oldest := p.sequenceNumber);
    if Accepts(b1.newest, p.sequenceNumber) {
      var b2 := b1.(ring := b1.ring.(slots := b1.ring.slots[k := p.(isPushed := true)]));
      RelabelKeepsSpent(before, b.ring.slots, k, p.(isPushed := true), b.nextId);
      PendingGood(b, s);
      ParseSpends(AddPacket(b2, p.sequenceNumber, p.rtpTimestamp), false, codec, handler, before);
    } else {
      assert before + [] == before;
      ClearsKeepSpent(before, b.ring.slots, Discard(b.ring, k).slots, b.nextId);
    }
  }

  lemma ReceiveSpends(b: Buffer, s: Seq16, timestamp: Time32, data: seq<bv8>, codec: Codec, handler: Handler,
                      before: seq<Report>)
    requires Good(b.ring, b.nextId) && Spent(before, b.ring.slots, b.nextId)
    ensures var r := Receive(b, s, timestamp, data, codec, handler);
      Spent(before + r.log, r.buffer.ring.slots, r.buffer.nextId)
  {
    if b.isInit && data != [] {
      var r1 := Discard(b.ring, Index(s));
      ClearsKeepSpent(before, b.ring.slots, r1.slots, b.nextId);
      ReceiveStores(b, s, timestamp, data);
      FreshKeepsSpent(before, r1.slots, Index(s), Stored(b, s, timestamp, data).(isPushed := false), b.nextId);
      FillPending(b, s, timestamp, data);
      PushSpends(Fill(Allocate(b, s, |data|), s, timestamp, data), s, codec, handler, before);
    } else {
      assert before + [] == before;
    }
  }

  /** The reports of one event. */
  function EventLog(b: Buffer, e: Event, codec: Codec): seq<Report>
    requires b.Valid()
  {
    match e
    case Created(_, _, _) => []
    case Received(s, timestamp, data, handler) => Receive(b, s, timestamp, data, codec, handler).log
    case Freed(handler) => Free(b, codec, handler).log
  }

  function RunLog(b: Buffer, events: seq<Event>, codec: Codec): seq<Report>
    requires b.Valid()
    decreases |events|
  {
    if events == [] then [] else EventLog(b, events[0], codec) + RunLog(Apply(b, events[0], codec), events[1..], codec)
  }

  lemma ApplySpends(b: Buffer, e: Event, codec: Codec, before: seq<Report>)
    requires Sound(b) && (Clears(e) ==> !b.isInit) && Spent(before, b.ring.slots, b.nextId)
    ensures var b' := Apply(b, e, codec);
      Spent(before + EventLog(b, e, codec), b'.ring.slots, b'.nextId)
  {
    assert before + [] == before;
    match e
    case Created(toleranceSec, clockRate, bits) =>
      ClearsKeepSpent(before, b.ring.slots, Apply(b, e, codec).ring.slots, b.nextId);
    case Received(s, timestamp, data, handler) =>
      ReceiveSpends(b, s, timestamp, data, codec, handler, before);
    case Freed(handler) =>
      if b.isInit {
        var b0 := b.(isInit := false);
        ParseSpends(b0, true, codec, handler, before);
        var r := Parse(b0, true, codec, handler);
        DiscardRunClears(r.buffer.ring, 0, CAPACITY);
        ClearsKeepSpent(before + r.log, r.buffer.ring.slots, Free(b, codec, handler).buffer.ring.slots, b.nextId);
      }
  }

  /** Over every run, no two reports (frames handed out or ranges dropped) carry the same payload. */
  lemma {:induction false} ReportedAtMostOnce(b: Buffer, events: seq<Event>, codec: Codec, before: seq<Report>)
    requires Sound(b) && CreatesOnlyFreed(b, events, codec) && Spent(before, b.ring.slots, b.nextId)
    ensures var b' := Run(b, events, codec);
      Spent(before + RunLog(b, events, codec), b'.ring.slots, b'.nextId)
    decreases |events|
  {
    hide Apply, EventLog, Spent;
    if events == [] {
      assert before + [] == before;
    } else {
      var now := EventLog(b, events[0], codec);
      ApplySpends(b, events[0], codec, before);
      ApplySound(b, events[0], codec);
      ReportedAtMostOnce(Apply(b, events[0], codec), events[1..], codec, before + now);
      assert before + RunLog(b, events, codec) ==
             (before + now) + RunLog(Apply(b, events[0], codec), events[1..], codec);
    }
  }
}
