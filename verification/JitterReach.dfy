/** Runs of a new buffer that reach the states in which a pass goes wrong. */
module JitterReach {
  import opened Circular
  import opened JitterModel
  import opened JitterOwnership
  import opened JitterFrames
  import opened JitterAsks
  import opened JitterCursors
  import opened JitterDelivery
  import opened Wrappers

  /** The buffer that the pass of a receive step scans: the packet is stored, marked and counted in. */
  function Scanned(b: Buffer, s: Seq16, timestamp: Time32, data: seq<bv8>): (b': Buffer)
    requires b.Valid()
    ensures b'.Valid()
  {
    var ring := Discard(b.ring, Index(s));
    var stored := Slot(true, s, timestamp, Some(Payload(b.nextId, data)));
    var b1 := b.(ring := ring.(slots := ring.slots[Index(s) := stored]), nextId := b.nextId + 1);
    var b2 := if b.isStart then b1
              else b1.(isStart := true, newest := s, newestTimestamp := timestamp, oldest := s);
    AddPacket(b2, s, timestamp)
  }

  lemma ReceiveScans(b: Buffer, s: Seq16, timestamp: Time32, data: seq<bv8>, codec: Codec, handler: Handler)
    requires Good(b.ring, b.nextId) && b.isInit && data != [] && (b.isStart ==> Accepts(b.newest, s))
    ensures Receive(b, s, timestamp, data, codec, handler) ==
            Parse(Scanned(b, s, timestamp, data), false, codec, handler)
  {
    hide AddPacket, Parse, Plus;
    AcceptsItself(s);
    ReceiveStores(b, s, timestamp, data);
    var f := Fill(Allocate(b, s, |data|), s, timestamp, data);
    assert f.ring.slots[Index(s) := f.ring.slots[Index(s)].(isPushed := true)] ==
           Discard(b.ring, Index(s)).slots[Index(s) := Slot(true, s, timestamp, Some(Payload(b.nextId, data)))];
  }

  lemma AcceptsItself(s: Seq16)
    ensures Accepts(s, s)
  {
  }

  /** A buffer that has just taken its first packet. */
  ghost predicate HasFirst(b: Buffer, s: Seq16, timestamp: Time32, tolerance: Time32) {
    && b.Valid() && Good(b.ring, b.nextId) && b.isInit && b.isStart
    && b.oldest == b.newest == s && b.newestTimestamp == b.lastPop == timestamp && b.tolerance == tolerance
  }

  lemma FirstScanned(b: Buffer, s: Seq16, timestamp: Time32, data: seq<bv8>)
    requires b.Valid() && !b.isStart && b.lastPop == 0xFFFFFFFF
    ensures var p := Scanned(b, s, timestamp, data);
      && p.oldest == p.newest == s && p.newestTimestamp == p.lastPop == timestamp
      && p.ring.slots[Index(s)].isPushed && p.ring.slots[Index(s)].rtpTimestamp == timestamp
      && p.isInit == b.isInit && p.isStart && p.tolerance == b.tolerance
  {
    LastPopBelow(timestamp, b.clockRate);
  }

  lemma LastPopBelow(timestamp: Time32, clockRate: Time32)
    ensures LastPopAfter(0xFFFFFFFF, clockRate, timestamp) == timestamp
    ensures NewestAfter(timestamp, clockRate, timestamp) == timestamp
  {
  }

  /** A pass over one stamped packet reports nothing and leaves the cursors alone. */
  lemma PassOverOne(b: Buffer, codec: Codec, handler: Handler)
    requires b.Valid() && b.oldest == b.newest
    requires b.ring.slots[Index(b.oldest)].isPushed && b.ring.slots[Index(b.oldest)].rtpTimestamp == b.lastPop
    ensures var r := Parse(b, false, codec, handler);
      r.log == [] && r.buffer == b.(ring := r.buffer.ring)
  {
    var c, s := ParamsOf(b, false, codec, handler), StartScan(b.ring, b.oldest, b.lastPop);
    assert Span(b.oldest, b.oldest) == 1;
    WalkUnfolds(c, s, 1);
  }

  lemma FirstPacket(b: Buffer, toleranceSec: Time32, clockRate: Time32, s: Seq16, timestamp: Time32, data: seq<bv8>,
                    codec: Codec, handler: Handler)
    requires Sound(b) && !b.isInit && data != []
    ensures var b1 := Create(b, toleranceSec, clockRate, KnownBits).0;
      var r := Receive(b1, s, timestamp, data, codec, handler);
      HasFirst(r.buffer, s, timestamp, toleranceSec * clockRate % 0x1_0000_0000) && r.log == []
  {
    hide Receive, Scanned, Good, Parse, AllEmpty;
    var b1 := Create(b, toleranceSec, clockRate, KnownBits).0;
    CreateKeepsOwnershipIff(b, toleranceSec, clockRate, KnownBits);
    ReceiveScans(b1, s, timestamp, data, codec, handler);
    ReceiveGood(b1, s, timestamp, data, codec, handler);
    FirstScanned(b1, s, timestamp, data);
    PassOverOne(Scanned(b1, s, timestamp, data), codec, handler);
  }

  // ---------- The interval that looks empty ----------

  lemma WrapCursors(b: Buffer, timestamp: Time32)
    requires b.oldest == b.newest == 0xFFFF
    ensures var p := AddPacket(b, 0, timestamp);
      p.oldest == 0 && p.newest == 0xFFFF && Span(p.oldest, p.newest) == 0 && p.ring == b.ring
  {
    hide LastPopAfter, NewestAfter;
  }

  lemma WrapScanned(b: Buffer, timestamp: Time32, data: seq<bv8>)
    requires b.Valid() && b.isStart && b.oldest == b.newest == 0xFFFF
    ensures var p := Scanned(b, 0, timestamp, data);
      && p.oldest == 0 && p.newest == 0xFFFF && Span(p.oldest, p.newest) == 0
      && p.ring.slots[0] == Slot(true, 0, timestamp, Some(Payload(b.nextId, data)))
  {
    hide AddPacket, Span;
    var ring := Discard(b.ring, Index(0));
    var stored := Slot(true, 0, timestamp, Some(Payload(b.nextId, data)));
    WrapCursors(b.(ring := ring.(slots := ring.slots[Index(0) := stored]), nextId := b.nextId + 1), timestamp);
  }

  lemma EmptyPass(b: Buffer, codec: Codec, handler: Handler)
    requires b.Valid() && Span(b.oldest, b.newest) == 0
    ensures Parse(b, false, codec, handler) == Parsed(b, Ok, [])
  {
  }

  /** A new buffer, packet 65535, packet 0: the interval looks empty, and packet 0 is stored but was not
      scanned. Any timestamps, payloads, codec and callback will do. */
  lemma WrapIsNotVisited(b: Buffer, toleranceSec: Time32, clockRate: Time32, t0: Time32, t1: Time32,
                         d0: seq<bv8>, d1: seq<bv8>, codec: Codec, handler: Handler)
    requires Sound(b) && !b.isInit && d0 != [] && d1 != []
    ensures var b1 := Create(b, toleranceSec, clockRate, KnownBits).0;
      var b2 := Receive(b1, 0xFFFF, t0, d0, codec, handler).buffer;
      var r := Receive(b2, 0, t1, d1, codec, handler);
      && r.result == Ok && r.log == []
      && r.buffer.oldest == 0 && r.buffer.newest == 0xFFFF && Span(r.buffer.oldest, r.buffer.newest) == 0
      && r.buffer.ring.slots[0] == Slot(true, 0, t1, Some(Payload(b2.nextId, d1)))
  {
    hide Receive, Scanned, Good, Parse, Span;
    FirstPacket(b, toleranceSec, clockRate, 0xFFFF, t0, d0, codec, handler);
    var b2 := Receive(Create(b, toleranceSec, clockRate, KnownBits).0, 0xFFFF, t0, d0, codec, handler).buffer;
    ReceiveScans(b2, 0, t1, d1, codec, handler);
    WrapScanned(b2, t1, d1);
    EmptyPass(Scanned(b2, 0, t1, d1), codec, handler);
  }

  // ---------- A stranded oldest packet ----------

  /** Packet 9 of a later frame arrived after packet 10. */
  ghost predicate HasOvertaken(b: Buffer, tolerance: Time32) {
    && b.Valid() && Good(b.ring, b.nextId) && b.isInit && b.isStart && b.oldest == 9 && b.newest == 10
    && b.newestTimestamp == 2000 && b.lastPop == 1000 && b.tolerance == tolerance
    && b.ring.slots[9].isPushed && b.ring.slots[9].rtpTimestamp == 2000
  }

  lemma SecondPacket(b: Buffer, tolerance: Time32, data: seq<bv8>, codec: Codec, handler: Handler)
    requires HasFirst(b, 10, 1000, tolerance) && data != []
    ensures var r := Receive(b, 9, 2000, data, codec, handler); HasOvertaken(r.buffer, tolerance) && r.log == []
  {
    hide Receive, Good;
    var p := Scanned(b, 9, 2000, data);
    ReceiveScans(b, 9, 2000, data, codec, handler);
    ReceiveGood(b, 9, 2000, data, codec, handler);
    NotExpiredYet(tolerance);
    FreshUnstampedStops(p, false, codec, handler);
  }

  lemma NotExpiredYet(tolerance: Time32)
    ensures !Expired(2000, tolerance, 2000)
  {
  }

  lemma ThirdScanned(b: Buffer, tolerance: Time32, data: seq<bv8>)
    requires HasOvertaken(b, tolerance) && 0 < tolerance < 0xFFFFFFFF - 2001
    ensures var p := Scanned(b, 11, 2001 + tolerance, data);
      OldestIsStranded(p) && p.oldest == 9 && Span(p.oldest, p.newest) == 3
  {
    hide Good;
  }

  lemma ScannedTidy(b: Buffer, s: Seq16, timestamp: Time32, data: seq<bv8>)
    requires Good(b.ring, b.nextId)
    ensures Tidy(Scanned(b, s, timestamp, data).ring.slots)
  {
    hide NewestAfter, LastPopAfter, Plus, Owns;
  }

  lemma LastTwoPackets(b: Buffer, tolerance: Time32, d1: seq<bv8>, d2: seq<bv8>, codec: Codec, handler: Handler)
    requires b.Valid() && HasFirst(b, 10, 1000, tolerance) && d1 != [] && d2 != [] && 0 < tolerance < 0xFFFFFFFF - 2001
    ensures var b3 := Receive(b, 9, 2000, d1, codec, handler).buffer;
      var p := Scanned(b3, 11, 2001 + tolerance, d2);
      && Receive(b3, 11, 2001 + tolerance, d2, codec, handler) == Parse(p, false, codec, handler)
      && OldestIsStranded(p) && !AllTight(Parse(p, false, codec, handler).log)
      && (PassAsks(ParamsOf(p, false, codec, handler), StartScan(p.ring, p.oldest, p.lastPop), Span(p.oldest, p.newest))
          <==> handler([Report(false, 9, 9, p.ring.slots, p.lastPop)]))
  {
    hide Receive, Scanned, Good, OldestIsStranded, AllTight, ScanBuffer, Span, PassAsks, PassMeetsZero;
    SecondPacket(b, tolerance, d1, codec, handler);
    var b3 := Receive(b, 9, 2000, d1, codec, handler).buffer;
    AcceptsEleven();
    ReceiveScans(b3, 11, 2001 + tolerance, d2, codec, handler);
    ThirdScanned(b3, tolerance, d2);
    StrandedIsNotTight(Scanned(b3, 11, 2001 + tolerance, d2), false, codec, handler);
    ScannedTidy(b3, 11, 2001 + tolerance, d2);
    AsksAboutEmptyIff(Scanned(b3, 11, 2001 + tolerance, d2), false, codec, handler);
  }

  lemma AcceptsEleven()
    ensures Accepts(10, 11)
  {
  }

  /** A new buffer and three packets strand the oldest one: the pass after the third drops packet 9 as
      part of a frame it does not belong to, and then shows the codec the slot it has just emptied if the
      callback accepted the drop. */
  lemma StrandedIsReached(b: Buffer, toleranceSec: Time32, clockRate: Time32, d0: seq<bv8>, d1: seq<bv8>, d2: seq<bv8>,
                          codec: Codec, handler: Handler)
    requires Sound(b) && !b.isInit && d0 != [] && d1 != [] && d2 != []
    requires 0 < toleranceSec * clockRate % 0x1_0000_0000 < 0xFFFFFFFF - 2001
    ensures var tolerance := toleranceSec * clockRate % 0x1_0000_0000;
      var b1 := Create(b, toleranceSec, clockRate, KnownBits).0;
      var b2 := Receive(b1, 10, 1000, d0, codec, handler).buffer;
      var b3 := Receive(b2, 9, 2000, d1, codec, handler).buffer;
      var p := Scanned(b3, 11, 2001 + tolerance, d2);
      && Receive(b3, 11, 2001 + tolerance, d2, codec, handler) == Parse(p, false, codec, handler)
      && OldestIsStranded(p) && !AllTight(Parse(p, false, codec, handler).log)
      && (PassAsks(ParamsOf(p, false, codec, handler), StartScan(p.ring, p.oldest, p.lastPop), Span(p.oldest, p.newest))
          <==> handler([Report(false, 9, 9, p.ring.slots, p.lastPop)]))
  {
    hide Receive, Scanned, Good, OldestIsStranded, AllTight, Parse, HasFirst, PassAsks;
    var b1 := Create(b, toleranceSec, clockRate, KnownBits).0;
    FirstPacket(b, toleranceSec, clockRate, 10, 1000, d0, codec, handler);
    LastTwoPackets(Receive(b1, 10, 1000, d0, codec, handler).buffer, toleranceSec * clockRate % 0x1_0000_0000, d1, d2,
                   codec, handler);
  }
}
