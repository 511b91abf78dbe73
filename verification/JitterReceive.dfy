/** What a receive step answers and stores, and what a lookup finds after any run of them. */
module JitterReceive {
  import opened Circular
  import opened JitterModel
  import opened JitterRing
  import opened JitterOwnership
  import opened JitterPass
  import opened JitterFrames
  import opened JitterCursors
  import opened JitterDelivery
  import opened JitterReach
  import opened Wrappers

  // ---------- The answer ----------

  /** The callbacks of the pass so far were all accepted. */
  predicate Accepted(c: Params, log: seq<Report>) {
    log == [] || c.handler(log)
  }

  lemma VisitAnswers(c: Params, s: Scan)
    requires s.Valid() && Accepted(c, s.log)
    ensures var v := Visit(c, s); if v.Next? then Accepted(c, v.scan.log) else v.ok <==> Accepted(c, v.scan.log)
  {
    hide Release, Inspect, Expired;
    ReleaseAnswers(c, s, false, s.first);
    if s.start.Some? {
      ReleaseAnswers(c, s, true, s.start.value);
    }
    InspectAnswers(c, Approach(c, s).scan);
  }

  lemma InspectAnswers(c: Params, s: Scan)
    requires s.Valid()
    ensures var v := Inspect(c, s); v.scan.log == s.log && (v.Halt? ==> v.ok)
  {
  }

  lemma {:induction false} WalkAnswers(c: Params, s: Scan, n: nat)
    requires s.Valid() && Accepted(c, s.log)
    ensures Walk(c, s, n).ok <==> Accepted(c, Walk(c, s, n).scan.log)
    decreases n
  {
    hide Visit, Accepted;
    if n > 0 {
      VisitAnswers(c, s);
      if Visit(c, s).Next? {
        WalkAnswers(c, Visit(c, s).scan, n - 1);
      }
    }
  }

  /** A pass succeeds exactly when its last callback did, or there was none. */
  lemma ParseAnswers(b: Buffer, closing: bool, codec: Codec, handler: Handler)
    requires b.Valid()
    ensures var r := Parse(b, closing, codec, handler);
      r.result == if r.log == [] || handler(r.log) then Ok else CallbackFailed
  {
    hide Walk, SweepAll;
    var c := ParamsOf(b, closing, codec, handler);
    WalkAnswers(c, StartScan(b.ring, b.oldest, b.lastPop), Span(b.oldest, b.newest));
    if closing {
      var o := ScanBuffer(b, closing, codec, handler).scan;
      SweepReports(handler, o.lastPop, Sweep(o.ring, o.oldest, o.oldest, o.oldest, o.log), Span(o.oldest, b.newest));
    }
  }

  lemma {:induction false} SweepReports(handler: Handler, lastPop: Time32, s: Sweep, n: nat)
    requires |s.ring.slots| == CAPACITY
    ensures SweepAll(handler, lastPop, s, n).log != []
    decreases n
  {
    if n > 0 {
      SweepReports(handler, lastPop, SweepStep(handler, lastPop, s), n - 1);
    }
  }

  /** The answer to a received packet: without a codec or a payload it is an error; outside the window
      around the newest number it is refused; else its pass answers. Only the first packet is always
      inside. */
  lemma ReceiveAnswers(b: Buffer, s: Seq16, timestamp: Time32, data: seq<bv8>, codec: Codec, handler: Handler)
    requires Good(b.ring, b.nextId)
    ensures var r := Receive(b, s, timestamp, data, codec, handler);
      && (r.result == BadParameter <==> !b.isInit || data == [])
      && (r.result == Outdated <==> b.isInit && data != [] && b.isStart && !Accepts(b.newest, s))
      && (r.result in {Ok, CallbackFailed} <==> b.isInit && data != [] && (b.isStart ==> Accepts(b.newest, s)))
      && (r.result == Ok ==> r.log == [] || handler(r.log))
      && (r.result == CallbackFailed ==> r.log != [] && !handler(r.log))
      && (r.result in {BadParameter, Outdated} ==> r.log == [])
  {
    hide Good, Parse, Receive, Scanned, Accepts;
    GoodIsFull(b.ring, b.nextId);
    if !b.isInit || data == [] {
      ReceiveRefuses(b, s, timestamp, data, codec, handler);
    } else if b.isStart && !Accepts(b.newest, s) {
      ReceiveDiscards(b, s, timestamp, data, codec, handler);
    } else {
      ReceiveScans(b, s, timestamp, data, codec, handler);
      ParseAnswers(Scanned(b, s, timestamp, data), false, codec, handler);
    }
  }

  lemma ReceiveRefuses(b: Buffer, s: Seq16, timestamp: Time32, data: seq<bv8>, codec: Codec, handler: Handler)
    requires b.Valid() && (!b.isInit || data == [])
    ensures Receive(b, s, timestamp, data, codec, handler) == Parsed(b, BadParameter, [])
  {
  }

  /** A refused packet leaves nothing in its slot, and takes with it what was there. */
  lemma ReceiveDiscards(b: Buffer, s: Seq16, timestamp: Time32, data: seq<bv8>, codec: Codec, handler: Handler)
    requires Good(b.ring, b.nextId) && b.isInit && data != [] && b.isStart && !Accepts(b.newest, s)
    ensures var r := Receive(b, s, timestamp, data, codec, handler);
      && r.result == Outdated && r.log == []
      && r.buffer == b.(ring := r.buffer.ring, nextId := b.nextId + 1)
      && r.buffer.ring.slots == b.ring.slots[Index(s) := EMPTY]
  {
    hide Accepts, Owns;
    ReceiveStores(b, s, timestamp, data);
    StoredElsewhere(b, s, timestamp, data);
    var f := Fill(Allocate(b, s, |data|), s, timestamp, data);
    assert Discard(f.ring, Index(s)).slots == f.ring.slots[Index(s) := EMPTY];
    assert b.ring.slots[Index(s)].packet.None? ==> b.ring.slots[Index(s)] == EMPTY;
  }

  /** Allocating and filling a slot change nothing else. */
  lemma StoredElsewhere(b: Buffer, s: Seq16, timestamp: Time32, data: seq<bv8>)
    requires b.Valid() && b.isInit && data != []
    ensures var f := Fill(Allocate(b, s, |data|), s, timestamp, data);
      f == b.(ring := f.ring, nextId := b.nextId + 1)
  {
  }

  /** What Create answers, and the buffer it leaves: in use exactly when the codec is known, waiting for its
      first packet, and without packets. */
  lemma CreateAnswers(b: Buffer, toleranceSec: Time32, clockRate: Time32, bits: CodecBits)
    ensures var (b', result) := Create(b, toleranceSec, clockRate, bits);
      && (result == Ok <==> bits.KnownBits?) && (result == UnknownCodec <==> bits.OtherBits?)
      && (result == BadParameter <==> bits.NoBits?)
      && (if result == BadParameter then b' == b
          else && (b'.isInit <==> result == Ok) && !b'.isStart && b'.nextId == b.nextId && b'.ring.freed == b.ring.freed
               && b'.tolerance == toleranceSec * clockRate % 0x1_0000_0000 && b'.clockRate == clockRate
               && |b'.ring.slots| == CAPACITY && AllEmpty(b'.ring.slots))
  {
  }

  // ---------- What is stored ----------

  /** An accepted packet is stored as it came, or was released by its own pass; every other packet stays as
      it was or was released. */
  lemma ReceiveEffect(b: Buffer, s: Seq16, timestamp: Time32, data: seq<bv8>, codec: Codec, handler: Handler)
    requires Good(b.ring, b.nextId) && b.isInit && data != [] && (b.isStart ==> Accepts(b.newest, s))
    ensures var slots := Receive(b, s, timestamp, data, codec, handler).buffer.ring.slots;
      && |slots| == CAPACITY
      && slots[Index(s)] in {Slot(true, s, timestamp, Some(Payload(b.nextId, data))), EMPTY}
      && forall k :: 0 <= k < CAPACITY && k != Index(s) ==> slots[k] in {b.ring.slots[k], EMPTY}
  {
    hide Accepts, Receive, Owns, AllReleased;
    ReceiveScans(b, s, timestamp, data, codec, handler);
    ScannedTidy(b, s, timestamp, data);
    ScannedSlots(b, s, timestamp, data);
    ReportedRangesAreReleased(Scanned(b, s, timestamp, data), false, codec, handler);
  }

  lemma ScannedSlots(b: Buffer, s: Seq16, timestamp: Time32, data: seq<bv8>)
    requires b.Valid()
    ensures var slots := Scanned(b, s, timestamp, data).ring.slots;
      && slots[Index(s)] == Slot(true, s, timestamp, Some(Payload(b.nextId, data)))
      && forall k :: 0 <= k < CAPACITY && k != Index(s) ==> slots[k] == b.ring.slots[k]
  {
    hide NewestAfter, LastPopAfter, Plus;
  }

  // ---------- What a lookup finds ----------

  ghost predicate Holds(slots: seq<Slot>, s: Seq16) {
    exists k :: 0 <= k < |slots| && slots[k].isPushed && slots[k].sequenceNumber == s
  }

  /** After any run of receive steps, frees and creations a lookup finds exactly the packet that carries the
      number, wherever it is; besides, an empty slot 0 answers for number 0. */
  lemma LookupAfterRun(b: Buffer, events: seq<Event>, codec: Codec, s: Seq16)
    requires Sound(b) && CreatesOnlyFreed(b, events, codec)
    ensures var b' := Run(b, events, codec);
      var (result, found) := GetPacket(b', s);
      && (result == Ok <==> b'.isInit && (Holds(b'.ring.slots, s) || (s == 0 && b'.ring.slots[0] == EMPTY)))
      && (result == Ok <==> found.Some?)
      && (b'.isInit ==>
            forall k :: 0 <= k < CAPACITY && b'.ring.slots[k].isPushed && b'.ring.slots[k].sequenceNumber == s ==>
              found == Some(b'.ring.slots[k]))
      && (result == NotFound <==> b'.isInit && result != Ok)
  {
    hide Run, CreatesOnlyFreed;
    RunKeepsOwnership(b, events, codec);
    LookupFinds(Run(b, events, codec), s);
  }

  lemma LookupFinds(b: Buffer, s: Seq16)
    requires Good(b.ring, b.nextId)
    ensures var (result, found) := GetPacket(b, s);
      && (result == Ok <==> b.isInit && (Holds(b.ring.slots, s) || (s == 0 && b.ring.slots[0] == EMPTY)))
      && (result == Ok <==> found.Some?)
      && (b.isInit ==>
            forall k :: 0 <= k < CAPACITY && b.ring.slots[k].isPushed && b.ring.slots[k].sequenceNumber == s ==>
              found == Some(b.ring.slots[k]))
      && (result == NotFound <==> b.isInit && result != Ok)
  {
    hide Owns;
    var p := b.ring.slots[Index(s)];
    if p.packet.None? {
      assert p == EMPTY;
    }
  }

  /** Right after a packet was accepted a lookup finds it as it came, unless its own pass released it. */
  lemma ReceivedIsFound(b: Buffer, s: Seq16, timestamp: Time32, data: seq<bv8>, codec: Codec, handler: Handler)
    requires Good(b.ring, b.nextId) && b.isInit && data != [] && (b.isStart ==> Accepts(b.newest, s))
    ensures var b' := Receive(b, s, timestamp, data, codec, handler).buffer;
      b'.isInit && (b'.ring.slots[Index(s)] != EMPTY ==>
        GetPacket(b', s) == (Ok, Some(Slot(true, s, timestamp, Some(Payload(b.nextId, data))))))
  {
    hide Accepts, Receive, Parse, Owns;
    ReceiveEffect(b, s, timestamp, data, codec, handler);
    ReceiveScans(b, s, timestamp, data, codec, handler);
    StaysInit(b, s, timestamp, data, codec, handler);
  }

  lemma StaysInit(b: Buffer, s: Seq16, timestamp: Time32, data: seq<bv8>, codec: Codec, handler: Handler)
    requires b.Valid() && b.isInit
    ensures Parse(Scanned(b, s, timestamp, data), false, codec, handler).buffer.isInit
  {
    hide Walk, NewestAfter, LastPopAfter, Plus;
  }
}
