/** Where a parse pass leaves the cursors and the ring, and which frames it cannot miss. */
module JitterCursors {
  import opened Circular
  import opened JitterModel
  import opened JitterRing
  import opened JitterOwnership
  import opened JitterFrames
  import opened Wrappers

  // ---------- The cursors follow the last report ----------

  /** The packet after the last reported range, as the callback saw it. */
  function NextPacket(r: Report): Slot
    requires |r.slots| == CAPACITY
  {
    r.slots[Index(Plus(r.last, 1))]
  }

  /** The cursors stand where they stood, or at the packet after the last reported range. */
  ghost predicate Follows(s: Scan, oldest: Seq16, lastPop: Time32) {
    if s.log == [] then
      s.oldest == oldest && s.lastPop == lastPop
    else
      var r := s.log[|s.log| - 1];
      |r.slots| == CAPACITY && s.oldest == NextPacket(r).sequenceNumber && s.lastPop == NextPacket(r).rtpTimestamp
  }

  ghost predicate Absorbed(p: Slot, lastPop: Time32) {
    !p.isPushed || p.rtpTimestamp == lastPop
  }

  /** No slot of the current range holds a packet of another frame. */
  ghost predicate RangeAbsorbed(s: Scan, o: Seq16, d: nat)
    requires s.Valid()
  {
    forall j {:trigger Plus(o, j)} :: Dist(o, s.first) <= j < d ==>
      Absorbed(s.ring.slots[Index(Plus(o, j))], s.lastPop)
  }

  lemma InspectAbsorbs(c: Params, s: Scan, o: Seq16, d: nat)
    requires At(s, o, d) && d < 0xFFFF && RangeAbsorbed(s, o, d) && Absorbed(s.Current(), s.lastPop)
    ensures var r := Inspect(c, s).scan;
      && RangeAbsorbed(r, o, d + 1)
      && r.oldest == s.oldest && r.lastPop == s.lastPop && r.log == s.log && r.first == s.first
  {
    var r := Inspect(c, s).scan;
    assert r.ring == s.ring || r.ring == Discard(s.ring, Index(s.i));
    forall j {:trigger Plus(o, j)} | Dist(o, s.first) <= j < d + 1
      ensures Absorbed(r.ring.slots[Index(Plus(o, j))], r.lastPop)
    {
      if j == d {
        assert Plus(o, j) == s.i;
      }
    }
  }

  /** A discarded range never contains the packet the scan stands at. */
  lemma CurrentSurvives(s: Scan, o: Seq16, d: nat, first: Seq16)
    requires At(s, o, d) && 0 < d < 0xFFFF && RangeAbsorbed(s, o, d)
    requires s.Current().isPushed && s.Current().rtpTimestamp != s.lastPop
    requires Dist(o, s.first) <= Dist(o, first) < d
    ensures DiscardRun(s.ring, first, Span(first, s.prev)).slots[Index(s.i)] == s.Current()
  {
    var q, n := Dist(o, first), Span(first, s.prev);
    PlusDist(o, first);
    RangeLength(o, q, d);
    DiscardRunEffect(s.ring, first, n);
    forall j {:trigger Plus(first, j)} | 0 <= j < n
      ensures Index(Plus(first, j)) != Index(s.i)
    {
      PlusPlus(o, q, j);
      assert Absorbed(s.ring.slots[Index(Plus(o, q + j))], s.lastPop);
    }
  }

  lemma RangeLength(o: Seq16, q: int, d: int)
    requires 0 <= q < d < 0xFFFF
    ensures Span(Plus(o, q), Plus(o, d - 1)) == d - q
    ensures Dist(Plus(o, q), Plus(o, d - 1)) == d - 1 - q
  {
    PlusPlus(o, d - 1, 1);
    PlusPlus(o, q, d - q);
    DistPlus(Plus(o, q), d - q);
    PlusPlus(o, q, d - 1 - q);
    DistPlus(Plus(o, q), d - 1 - q);
  }

  lemma FlushFollows(c: Params, s: Scan, o: Seq16, d: nat, isReady: bool, first: Seq16)
    requires At(s, o, d) && 0 < d < 0xFFFF && RangeAbsorbed(s, o, d)
    requires s.Current().isPushed && s.Current().rtpTimestamp != s.lastPop
    requires Dist(o, s.first) <= Dist(o, first) < d
    ensures var r := Flush(c, s, isReady, first);
      && (forall oldest, lastPop :: Follows(r.scan, oldest, lastPop))
      && (r.Next? ==> RangeAbsorbed(r.scan, o, d + 1))
  {
    CurrentSurvives(s, o, d, first);
    PlusPlus(o, d - 1, 1);
    DistPlus(o, d);
    var log := s.log + [Report(isReady, first, s.prev, s.ring.slots, s.lastPop)];
    var ring := DiscardRun(s.ring, first, Span(first, s.prev));
    var packet := ring.slots[Index(s.i)];
    var s' := s.(ring := ring, oldest := packet.sequenceNumber, lastPop := packet.rtpTimestamp,
                 start := None, first := s.i, log := log);
    FlushedInspectAbsorbs(c, s', o, d);
  }

  lemma FlushedInspectAbsorbs(c: Params, s: Scan, o: Seq16, d: nat)
    requires s.Valid() && d < 0xFFFF && s.i == s.first == Plus(o, d) && s.Current().rtpTimestamp == s.lastPop
    ensures var r := Inspect(c, s).scan;
      && RangeAbsorbed(r, o, d + 1)
      && r.oldest == s.oldest && r.lastPop == s.lastPop && r.log == s.log
  {
    DistPlus(o, d);
  }

  lemma VisitFollows(c: Params, s: Scan, o: Seq16, d: nat, oldest: Seq16, lastPop: Time32)
    requires At(s, o, d) && d < 0xFFFF && RangeAbsorbed(s, o, d) && Follows(s, oldest, lastPop)
    requires d == 0 ==> Absorbed(s.Current(), s.lastPop)
    ensures var r := Visit(c, s);
      && Follows(r.scan, oldest, lastPop)
      && (r.Next? ==> RangeAbsorbed(r.scan, o, d + 1))
  {
    var p := s.Current();
    if !p.isPushed {
      InspectAbsorbs(c, s.(continuous := false), o, d);
    } else if p.rtpTimestamp == s.lastPop {
      InspectAbsorbs(c, s, o, d);
    } else {
      if s.start.Some? {
        FlushFollows(c, s, o, d, true, s.start.value);
      }
      FlushFollows(c, s, o, d, false, s.first);
    }
  }

  lemma {:induction false} WalkFollows(c: Params, s: Scan, n: nat, o: Seq16, d: nat, oldest: Seq16, lastPop: Time32)
    requires At(s, o, d) && d + n <= 0xFFFF && RangeAbsorbed(s, o, d) && Follows(s, oldest, lastPop)
    requires d == 0 ==> Absorbed(s.Current(), s.lastPop)
    ensures Follows(Walk(c, s, n).scan, oldest, lastPop)
    decreases n
  {
    if n > 0 {
      VisitFollows(c, s, o, d, oldest, lastPop);
      VisitStays(c, s, o, d);
      if Visit(c, s).Next? {
        WalkFollows(c, Visit(c, s).scan, n - 1, o, d + 1, oldest, lastPop);
      }
    }
  }

  // ---------- Reported ranges hold one frame ----------

  /** No packet of the reported range is stamped with another timestamp. */
  ghost predicate Tight(r: Report) {
    && |r.slots| == CAPACITY
    && forall j {:trigger Plus(r.first, j)} :: 0 <= j < Span(r.first, r.last) ==>
         Absorbed(r.slots[Index(Plus(r.first, j))], r.lastPop)
  }

  ghost predicate AllTight(log: seq<Report>) {
    forall k :: 0 <= k < |log| ==> Tight(log[k])
  }

  lemma ReportIsTight(s: Scan, o: Seq16, d: nat, isReady: bool, first: Seq16)
    requires At(s, o, d) && 0 < d < 0xFFFF && RangeAbsorbed(s, o, d)
    requires Dist(o, s.first) <= Dist(o, first) < d
    ensures Tight(Report(isReady, first, s.prev, s.ring.slots, s.lastPop))
  {
    var q := Dist(o, first);
    PlusDist(o, first);
    RangeLength(o, q, d);
    forall j {:trigger Plus(first, j)} | 0 <= j < Span(first, s.prev)
      ensures Absorbed(s.ring.slots[Index(Plus(first, j))], s.lastPop)
    {
      PlusPlus(o, q, j);
      assert Plus(first, j) == Plus(o, q + j);
    }
  }

  lemma VisitIsTight(c: Params, s: Scan, o: Seq16, d: nat)
    requires At(s, o, d) && d < 0xFFFF && RangeAbsorbed(s, o, d) && AllTight(s.log)
    requires d == 0 ==> Absorbed(s.Current(), s.lastPop)
    ensures AllTight(Visit(c, s).scan.log)
  {
    if s.Current().isPushed && s.Current().rtpTimestamp != s.lastPop {
      ReportIsTight(s, o, d, false, s.first);
      FlushLog(c, s, false, s.first);
      if s.start.Some? {
        ReportIsTight(s, o, d, true, s.start.value);
        FlushLog(c, s, true, s.start.value);
      }
    }
  }

  lemma {:induction false} WalkIsTight(c: Params, s: Scan, n: nat, o: Seq16, d: nat, oldest: Seq16, lastPop: Time32)
    requires At(s, o, d) && d + n <= 0xFFFF && RangeAbsorbed(s, o, d) && Follows(s, oldest, lastPop)
    requires d == 0 ==> Absorbed(s.Current(), s.lastPop)
    requires AllTight(s.log)
    ensures AllTight(Walk(c, s, n).scan.log)
    decreases n
  {
    hide Visit, AllTight, RangeAbsorbed, Follows;
    if n > 0 {
      VisitIsTight(c, s, o, d);
      VisitFollows(c, s, o, d, oldest, lastPop);
      VisitStays(c, s, o, d);
      if Visit(c, s).Next? {
        WalkIsTight(c, Visit(c, s).scan, n - 1, o, d + 1, oldest, lastPop);
      }
    }
  }

  lemma StampedIsTight(b: Buffer, closing: bool, codec: Codec, handler: Handler)
    requires b.Valid() && OldestIsStamped(b)
    ensures AllTight(ScanBuffer(b, closing, codec, handler).scan.log)
  {
    hide Visit, Walk;
    DistPlus(b.oldest, 0);
    assert Plus(b.oldest, 0) == b.oldest;
    WalkIsTight(ParamsOf(b, closing, codec, handler), StartScan(b.ring, b.oldest, b.lastPop), Span(b.oldest, b.newest),
                b.oldest, 0, b.oldest, b.lastPop);
  }

  /** The oldest packet begins another frame and is expired already. */
  ghost predicate OldestIsStranded(b: Buffer)
    requires b.Valid()
  {
    !OldestIsStamped(b) && Expired(b.newestTimestamp, b.tolerance, b.ring.slots[Index(b.oldest)].rtpTimestamp)
  }

  lemma StrandedIsNotTight(b: Buffer, closing: bool, codec: Codec, handler: Handler)
    requires b.Valid() && OldestIsStranded(b) && Span(b.oldest, b.newest) > 0
    ensures !AllTight(ScanBuffer(b, closing, codec, handler).scan.log)
  {
    hide Visit, Tight, Span;
    var c, s := ParamsOf(b, closing, codec, handler), StartScan(b.ring, b.oldest, b.lastPop);
    var n := Span(b.oldest, b.newest);
    var r := Visit(c, s);
    UnstampedIsNotTight(b, c);
    WalkUnfolds(c, s, n);
    if r.Next? {
      WalkKeepsPrefix(c, r.scan, n - 1);
    }
    assert ScanBuffer(b, closing, codec, handler).scan.log[0] == r.scan.log[0];
  }

  /** An oldest packet of another frame that is not expired yet stops the pass at once. */
  lemma FreshUnstampedStops(b: Buffer, closing: bool, codec: Codec, handler: Handler)
    requires b.Valid() && !OldestIsStamped(b) && !OldestIsStranded(b)
    ensures ScanBuffer(b, closing, codec, handler) == Halt(StartScan(b.ring, b.oldest, b.lastPop), true)
  {
  }

  /** A pass reports nothing but ranges of one frame each, in order, exactly when it scans nothing or
      its oldest packet is not stranded: missing, stamped as the current frame, or not expired yet. */
  lemma ReportsAreSoundIff(b: Buffer, closing: bool, codec: Codec, handler: Handler)
    requires b.Valid()
    ensures var log := ScanBuffer(b, closing, codec, handler).scan.log;
      AllTight(log) && Ordered(log, b.oldest) <==> Span(b.oldest, b.newest) == 0 || !OldestIsStranded(b)
  {
    hide Visit, Tight, Span, Expired, OldestIsStamped;
    if OldestIsStamped(b) {
      StampedReportsOrdered(b, closing, codec, handler);
      StampedIsTight(b, closing, codec, handler);
    } else if !OldestIsStranded(b) {
      FreshUnstampedStops(b, closing, codec, handler);
    } else if Span(b.oldest, b.newest) > 0 {
      StrandedIsNotTight(b, closing, codec, handler);
    }
  }

  /** A pass leaves the cursors at the packet after the last range it reported, or untouched if it
      reported none, unless its oldest packet is stranded. */
  lemma CursorsFollowLastReport(b: Buffer, closing: bool, codec: Codec, handler: Handler)
    requires b.Valid() && (Span(b.oldest, b.newest) == 0 || !OldestIsStranded(b))
    ensures Follows(ScanBuffer(b, closing, codec, handler).scan, b.oldest, b.lastPop)
  {
    hide Visit, Expired;
    if OldestIsStamped(b) {
      DistPlus(b.oldest, 0);
      assert Plus(b.oldest, 0) == b.oldest;
      WalkFollows(ParamsOf(b, closing, codec, handler), StartScan(b.ring, b.oldest, b.lastPop),
                  Span(b.oldest, b.newest), b.oldest, 0, b.oldest, b.lastPop);
    } else if !OldestIsStranded(b) {
      FreshUnstampedStops(b, closing, codec, handler);
    }
  }

  lemma UnstampedIsNotTight(b: Buffer, c: Params)
    requires b.Valid() && !OldestIsStamped(b)
    requires Expired(c.newestTimestamp, c.tolerance, b.ring.slots[Index(b.oldest)].rtpTimestamp)
    ensures var log := Visit(c, StartScan(b.ring, b.oldest, b.lastPop)).scan.log;
      |log| == 1 && !Tight(log[0])
  {
    var s := StartScan(b.ring, b.oldest, b.lastPop);
    FlushLog(c, s, false, b.oldest);
    assert Plus(b.oldest, 0) == b.oldest && Span(b.oldest, b.oldest) == 1;
    assert !Absorbed(b.ring.slots[Index(Plus(b.oldest, 0))], b.lastPop);
  }

  // ---------- Reported ranges are released ----------

  ghost predicate Released(r: Report, slots: seq<Slot>)
    requires |slots| == CAPACITY
  {
    forall j {:trigger Plus(r.first, j)} :: 0 <= j < Span(r.first, r.last) ==> slots[Index(Plus(r.first, j))] == EMPTY
  }

  ghost predicate AllReleased(log: seq<Report>, slots: seq<Slot>)
    requires |slots| == CAPACITY
  {
    forall k :: 0 <= k < |log| ==> Released(log[k], slots)
  }

  ghost predicate OnlyClears(slots: seq<Slot>, slots': seq<Slot>)
    requires |slots| == |slots'|
  {
    forall k :: 0 <= k < |slots| ==> slots'[k] == slots[k] || slots'[k] == EMPTY
  }

  lemma ReleaseClears(c: Params, s: Scan, isReady: bool, first: Seq16)
    requires s.Valid() && Tidy(s.ring.slots) && AllReleased(s.log, s.ring.slots)
    ensures var r := Release(c, s, isReady, first).scan;
      Tidy(r.ring.slots) && AllReleased(r.log, r.ring.slots) && OnlyClears(s.ring.slots, r.ring.slots)
  {
    hide Span;
    var n := Span(first, s.prev);
    var slots := DiscardRun(s.ring, first, n).slots;
    DiscardRunEffect(s.ring, first, n);
    forall j {:trigger Plus(first, j)} | 0 <= j < n
      ensures slots[Index(Plus(first, j))] == EMPTY
    {
      assert Covers(first, n, Index(Plus(first, j)));
    }
    var report := Report(isReady, first, s.prev, s.ring.slots, s.lastPop);
    assert Released(report, slots);
    assert Release(c, s, isReady, first).scan.log == s.log + [report];
  }

  lemma InspectReleases(c: Params, s: Scan)
    requires s.Valid() && Tidy(s.ring.slots) && AllReleased(s.log, s.ring.slots)
    ensures var r := Inspect(c, s).scan;
      Tidy(r.ring.slots) && AllReleased(r.log, r.ring.slots) && OnlyClears(s.ring.slots, r.ring.slots)
  {
  }

  lemma VisitReleases(c: Params, s: Scan)
    requires s.Valid() && Tidy(s.ring.slots) && AllReleased(s.log, s.ring.slots)
    ensures var r := Visit(c, s).scan;
      Tidy(r.ring.slots) && AllReleased(r.log, r.ring.slots) && OnlyClears(s.ring.slots, r.ring.slots)
  {
    hide Release, Inspect, Expired, Tidy, AllReleased;
    ReleaseClears(c, s, false, s.first);
    if s.start.Some? {
      ReleaseClears(c, s, true, s.start.value);
    }
    InspectReleases(c, Approach(c, s).scan);
  }

  lemma {:induction false} WalkReleases(c: Params, s: Scan, n: nat)
    requires s.Valid() && Tidy(s.ring.slots) && AllReleased(s.log, s.ring.slots)
    ensures var r := Walk(c, s, n).scan;
      AllReleased(r.log, r.ring.slots) && OnlyClears(s.ring.slots, r.ring.slots)
    decreases n
  {
    hide Visit, Tidy, AllReleased;
    if n > 0 {
      VisitReleases(c, s);
      if Visit(c, s).Next? {
        WalkReleases(c, Visit(c, s).scan, n - 1);
      }
    }
  }

  /** After a pass the slots of every reported range are empty, and no other packet was changed. */
  lemma ReportedRangesAreReleased(b: Buffer, closing: bool, codec: Codec, handler: Handler)
    requires b.Valid() && Tidy(b.ring.slots)
    ensures var r := ScanBuffer(b, closing, codec, handler).scan;
      AllReleased(r.log, r.ring.slots) && OnlyClears(b.ring.slots, r.ring.slots)
  {
    WalkReleases(ParamsOf(b, closing, codec, handler), StartScan(b.ring, b.oldest, b.lastPop),
                 Span(b.oldest, b.newest));
  }

  // ---------- A complete frame at the front is reported ----------

  /** Packets 0..m from the oldest number are one received frame whose first start packet is q, and
      the packet after it belongs to another frame. */
  ghost predicate FrameAtFront(c: Params, slots: seq<Slot>, o: Seq16, lastPop: Time32, q: nat, m: nat) {
    && |slots| == CAPACITY && q <= m
    && (forall j {:trigger Plus(o, j)} :: 0 <= j <= m ==>
          var p := slots[Index(Plus(o, j))];
          p.isPushed && p.rtpTimestamp == lastPop && c.codec(p).Valid?)
    && (forall j {:trigger Plus(o, j)} :: 0 <= j < q ==> !c.codec(slots[Index(Plus(o, j))]).isStart)
    && c.codec(slots[Index(Plus(o, q))]).isStart
    && slots[Index(Plus(o, m + 1))].isPushed && slots[Index(Plus(o, m + 1))].rtpTimestamp != lastPop
  }

  /** The scan d packets into the frame at the front. */
  ghost predicate Inside(s: Scan, slots: seq<Slot>, lastPop: Time32, o: Seq16, d: nat, q: nat) {
    && s.Valid() && s.ring.slots == slots && s.lastPop == lastPop
    && s.i == Plus(o, d) && s.prev == Plus(o, if d == 0 then 0 else d - 1)
    && s.start == (if d > q then Some(Plus(o, q)) else None)
    && s.continuous && s.log == []
  }

  lemma VisitInside(c: Params, s: Scan, slots: seq<Slot>, lastPop: Time32, o: Seq16, d: nat, q: nat, m: nat)
    requires FrameAtFront(c, slots, o, lastPop, q, m) && Inside(s, slots, lastPop, o, d, q) && d <= m
    ensures Visit(c, s).Next? && Inside(Visit(c, s).scan, slots, lastPop, o, d + 1, q)
  {
    PlusPlus(o, d, 1);
    assert c.codec(slots[Index(Plus(o, d))]).Valid?;
  }

  lemma FlushLog(c: Params, s: Scan, isReady: bool, first: Seq16)
    requires s.Valid()
    ensures Flush(c, s, isReady, first).scan.log == s.log + [Report(isReady, first, s.prev, s.ring.slots, s.lastPop)]
  {
  }

  lemma VisitReportsFront(c: Params, s: Scan, slots: seq<Slot>, lastPop: Time32, o: Seq16, q: nat, m: nat)
    requires FrameAtFront(c, slots, o, lastPop, q, m) && Inside(s, slots, lastPop, o, m + 1, q)
    ensures Visit(c, s).scan.log == [Report(true, Plus(o, q), Plus(o, m), slots, lastPop)]
  {
    FlushLog(c, s, true, Plus(o, q));
  }

  lemma {:induction false} WalkReportsFront(c: Params, s: Scan, n: nat, slots: seq<Slot>, lastPop: Time32,
                                            o: Seq16, d: nat, q: nat, m: nat)
    requires FrameAtFront(c, slots, o, lastPop, q, m) && Inside(s, slots, lastPop, o, d, q)
    requires d <= m + 1 < d + n
    ensures [Report(true, Plus(o, q), Plus(o, m), slots, lastPop)] <= Walk(c, s, n).scan.log
    decreases n
  {
    hide Visit, FrameAtFront, Plus;
    WalkUnfolds(c, s, n);
    if d <= m {
      VisitInside(c, s, slots, lastPop, o, d, q, m);
      WalkReportsFront(c, Visit(c, s).scan, n - 1, slots, lastPop, o, d + 1, q, m);
    } else {
      VisitReportsFront(c, s, slots, lastPop, o, q, m);
      if Visit(c, s).Next? {
        WalkKeepsPrefix(c, Visit(c, s).scan, n - 1);
      }
    }
  }

  /** A frame that is completely received, at the front of the buffer and followed by a packet of
      another frame, is the first thing a pass reports. */
  lemma FrontFrameIsReported(b: Buffer, closing: bool, codec: Codec, handler: Handler, q: nat, m: nat)
    requires b.Valid()
    requires FrameAtFront(ParamsOf(b, closing, codec, handler), b.ring.slots, b.oldest, b.lastPop, q, m)
    requires m + 1 < Span(b.oldest, b.newest)
    ensures [Report(true, Plus(b.oldest, q), Plus(b.oldest, m), b.ring.slots, b.lastPop)]
            <= ScanBuffer(b, closing, codec, handler).scan.log
  {
    assert Plus(b.oldest, 0) == b.oldest;
    WalkReportsFront(ParamsOf(b, closing, codec, handler), StartScan(b.ring, b.oldest, b.lastPop),
                     Span(b.oldest, b.newest), b.ring.slots, b.lastPop, b.oldest, 0, q, m);
  }
}
