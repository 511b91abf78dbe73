/** What a parse pass reports: only complete frames, in order, and every complete frame at the front. */
module JitterFrames {
  import opened Circular
  import opened JitterModel
  import opened JitterRing
  import opened JitterOwnership
  import opened Wrappers

  // ---------- Reported frames are complete ----------

  ghost predicate Whole(p: Slot, lastPop: Time32) {
    p.isPushed && p.packet.Some? && p.rtpTimestamp == lastPop
  }

  /** A ready report starts at a start packet; every slot of its range is pushed, holds a payload and
      carries the current timestamp; the packet after the range is pushed with another timestamp. */
  ghost predicate IsComplete(r: Report, codec: Codec) {
    && |r.slots| == CAPACITY
    && (r.isReady ==>
          && codec(r.slots[Index(r.first)]) == Valid(true)
          && (forall j {:trigger Plus(r.first, j)} :: 0 <= j <= Dist(r.first, r.last) ==>
                Whole(r.slots[Index(Plus(r.first, j))], r.lastPop))
          && var next := r.slots[Index(Plus(r.last, 1))];
             next.isPushed && next.rtpTimestamp != r.lastPop)
  }

  ghost predicate AllComplete(log: seq<Report>, codec: Codec) {
    forall k :: 0 <= k < |log| ==> IsComplete(log[k], codec)
  }

  /** The loop variables after d iterations from sequence number o. */
  ghost predicate At(s: Scan, o: Seq16, d: nat) {
    && s.Valid() && d < 0x10000
    && s.i == Plus(o, d)
    && s.prev == Plus(o, if d == 0 then 0 else d - 1)
    && Dist(o, s.first) <= (if d == 0 then 0 else d - 1)
    && (s.start.Some? ==> Dist(o, s.first) <= Dist(o, s.start.value) < d)
  }

  /** While the data is continuous, everything from the start packet on belongs to one frame. */
  ghost predicate Gathers(c: Params, s: Scan, o: Seq16, d: nat)
    requires s.Valid()
  {
    s.start.Some? && s.continuous ==>
      && c.codec(s.ring.slots[Index(s.start.value)]) == Valid(true)
      && forall j {:trigger Plus(o, j)} :: Dist(o, s.start.value) <= j < d ==>
           Whole(s.ring.slots[Index(Plus(o, j))], s.lastPop)
  }

  lemma FlushedFrameIsComplete(c: Params, s: Scan, o: Seq16, d: nat)
    requires At(s, o, d) && Gathers(c, s, o, d)
    requires s.start.Some? && s.continuous
    requires s.Current().isPushed && s.Current().rtpTimestamp != s.lastPop
    ensures IsComplete(Report(true, s.start.value, s.prev, s.ring.slots, s.lastPop), c.codec)
  {
    var first, q := s.start.value, Dist(o, s.start.value);
    PlusDist(o, first);
    PlusPlus(o, d - 1, 1);
    assert Dist(first, s.prev) == d - 1 - q by {
      PlusPlus(o, q, d - 1 - q);
      DistPlus(first, d - 1 - q);
    }
    forall j {:trigger Plus(first, j)} | 0 <= j <= d - 1 - q
      ensures Whole(s.ring.slots[Index(Plus(first, j))], s.lastPop)
    {
      PlusPlus(o, q, j);
      assert Plus(first, j) == Plus(o, q + j);
    }
  }

  lemma InspectAdvances(c: Params, s: Scan, o: Seq16, d: nat)
    requires At(s, o, d) && d < 0xFFFF
    ensures var r := Inspect(c, s);
      r.scan.log == s.log && (r.Next? ==> At(r.scan, o, d + 1))
  {
    PlusPlus(o, d, 1);
    DistPlus(o, d);
  }

  /** The current packet joins the frame, or starts it. */
  ghost predicate Joins(c: Params, s: Scan, s': Scan)
    requires s.Valid()
  {
    && s'.ring == s.ring && s'.lastPop == s.lastPop && s.continuous
    && Whole(s.Current(), s.lastPop)
    && (s'.start == s.start || (s.start.None? && s'.start == Some(s.i) && c.codec(s.Current()) == Valid(true)))
  }

  lemma InspectJoins(c: Params, s: Scan)
    requires RejectsEmpty(c.codec) && s.Valid()
    requires s.continuous ==> s.Current().isPushed && s.Current().rtpTimestamp == s.lastPop
    ensures var r := Inspect(c, s);
      r.Next? && r.scan.continuous ==> Joins(c, s, r.scan)
  {
  }

  lemma JoinGathers(c: Params, s: Scan, s': Scan, o: Seq16, d: nat)
    requires At(s, o, d) && Gathers(c, s, o, d) && d < 0xFFFF
    requires s'.Valid() && Joins(c, s, s')
    ensures Gathers(c, s', o, d + 1)
  {
    DistPlus(o, d);
    if s'.start.Some? {
      forall j {:trigger Plus(o, j)} | Dist(o, s'.start.value) <= j < d + 1
        ensures Whole(s'.ring.slots[Index(Plus(o, j))], s'.lastPop)
      {
        if j < d {
          assert s.start == s'.start;
        }
      }
    }
  }

  lemma InspectGathers(c: Params, s: Scan, s': Scan, o: Seq16, d: nat)
    requires RejectsEmpty(c.codec)
    requires At(s, o, d) && Gathers(c, s, o, d) && d < 0xFFFF
    requires s.continuous ==> s.Current().isPushed && s.Current().rtpTimestamp == s.lastPop
    requires Inspect(c, s) == Next(s')
    ensures Gathers(c, s', o, d + 1)
  {
    InspectJoins(c, s);
    if s'.continuous {
      JoinGathers(c, s, s', o, d);
    }
  }

  lemma FlushGathers(c: Params, s: Scan, o: Seq16, d: nat, isReady: bool, first: Seq16)
    requires RejectsEmpty(c.codec)
    requires At(s, o, d) && d < 0xFFFF && AllComplete(s.log, c.codec)
    requires s.Current().isPushed
    requires IsComplete(Report(isReady, first, s.prev, s.ring.slots, s.lastPop), c.codec)
    ensures var r := Flush(c, s, isReady, first);
      && AllComplete(r.scan.log, c.codec)
      && (r.Next? ==> At(r.scan, o, d + 1) && Gathers(c, r.scan, o, d + 1))
  {
    var log := s.log + [Report(isReady, first, s.prev, s.ring.slots, s.lastPop)];
    var ring := DiscardRun(s.ring, first, Span(first, s.prev));
    var packet := ring.slots[Index(s.i)];
    var s' := s.(ring := ring, oldest := packet.sequenceNumber, lastPop := packet.rtpTimestamp,
                 start := None, first := s.i, log := log);
    DiscardRunEffect(s.ring, first, Span(first, s.prev));
    FlushedInspect(c, s', o, d);
  }

  /** After a flush the scan is as if it started at the current packet. */
  lemma FlushedInspect(c: Params, s: Scan, o: Seq16, d: nat)
    requires RejectsEmpty(c.codec)
    requires s.Valid() && d < 0xFFFF && s.i == s.first == Plus(o, d) && s.start.None?
    requires s.Current().rtpTimestamp == s.lastPop
    requires s.Current().isPushed || s.Current().packet.None?
    ensures var r := Inspect(c, s);
      && r.scan.log == s.log
      && (r.Next? ==> At(r.scan, o, d + 1) && Gathers(c, r.scan, o, d + 1))
  {
    PlusPlus(o, d, 1);
    DistPlus(o, d);
  }

  lemma VisitReportsComplete(c: Params, s: Scan, o: Seq16, d: nat)
    requires RejectsEmpty(c.codec)
    requires At(s, o, d) && Gathers(c, s, o, d) && d < 0xFFFF && AllComplete(s.log, c.codec)
    ensures var r := Visit(c, s);
      && AllComplete(r.scan.log, c.codec)
      && (r.Next? ==> At(r.scan, o, d + 1) && Gathers(c, r.scan, o, d + 1))
  {
    var p := s.Current();
    if !p.isPushed {
      var t := s.(continuous := false);
      InspectAdvances(c, t, o, d);
      if Inspect(c, t).Next? {
        InspectGathers(c, t, Inspect(c, t).scan, o, d);
      }
    } else if p.rtpTimestamp == s.lastPop {
      InspectAdvances(c, s, o, d);
      if Inspect(c, s).Next? {
        InspectGathers(c, s, Inspect(c, s).scan, o, d);
      }
    } else if s.start.Some? && s.continuous {
      FlushedFrameIsComplete(c, s, o, d);
      FlushGathers(c, s, o, d, true, s.start.value);
    } else {
      FlushGathers(c, s, o, d, false, s.first);
    }
  }

  lemma {:induction false} WalkReportsComplete(c: Params, s: Scan, n: nat, o: Seq16, d: nat)
    requires RejectsEmpty(c.codec)
    requires At(s, o, d) && Gathers(c, s, o, d) && d + n <= 0xFFFF && AllComplete(s.log, c.codec)
    ensures AllComplete(Walk(c, s, n).scan.log, c.codec)
    decreases n
  {
    if n > 0 {
      VisitReportsComplete(c, s, o, d);
      if Visit(c, s).Next? {
        WalkReportsComplete(c, Visit(c, s).scan, n - 1, o, d + 1);
      }
    }
  }

  /** Every frame reported ready, by any pass over any ring, is complete. */
  lemma ReadyFramesAreComplete(b: Buffer, closing: bool, codec: Codec, handler: Handler)
    requires b.Valid() && RejectsEmpty(codec)
    ensures AllComplete(ScanBuffer(b, closing, codec, handler).scan.log, codec)
  {
    var s := StartScan(b.ring, b.oldest, b.lastPop);
    DistPlus(b.oldest, 0);
    assert Plus(b.oldest, 0) == b.oldest;
    WalkReportsComplete(ParamsOf(b, closing, codec, handler), s, Span(b.oldest, b.newest), b.oldest, 0);
  }

  // ---------- Reported ranges are ordered ----------

  /** Seen from o, every range runs forward and begins after the range before it ended. */
  ghost predicate Ordered(log: seq<Report>, o: Seq16) {
    && (forall k :: 0 <= k < |log| ==> Dist(o, log[k].first) <= Dist(o, log[k].last))
    && (forall j, k :: 0 <= j < k < |log| ==> Dist(o, log[j].last) < Dist(o, log[k].first))
  }

  /** The current range begins after every reported one. */
  ghost predicate Behind(s: Scan, o: Seq16) {
    Ordered(s.log, o) && forall k :: 0 <= k < |s.log| ==> Dist(o, s.log[k].last) < Dist(o, s.first)
  }

  ghost predicate Quiet(s: Scan, s': Scan) {
    s'.log == s.log && s'.first == s.first && (s'.continuous ==> s.continuous)
  }

  /** One more report, of the range that ends at the previous number. */
  ghost predicate Reported(s: Scan, s': Scan, r: Report) {
    && s.Valid() && s.Current().isPushed && s.Current().rtpTimestamp != s.lastPop
    && s'.log == s.log + [r] && s'.first == s.i && (s'.continuous ==> s.continuous)
    && r.last == s.prev
    && (r.first == s.first || (s.continuous && s.start == Some(r.first)))
  }

  lemma VisitEffect(c: Params, s: Scan) returns (report: Option<Report>)
    requires s.Valid()
    ensures report.None? ==> Quiet(s, Visit(c, s).scan)
    ensures report.Some? ==> Reported(s, Visit(c, s).scan, report.value)
  {
    var p := s.Current();
    if p.isPushed && p.rtpTimestamp != s.lastPop && s.start.Some? && s.continuous {
      report := Some(Report(true, s.start.value, s.prev, s.ring.slots, s.lastPop));
    } else if p.isPushed && p.rtpTimestamp != s.lastPop && Expired(c.newestTimestamp, c.tolerance, p.rtpTimestamp) {
      report := Some(Report(false, s.first, s.prev, s.ring.slots, s.lastPop));
    } else {
      report := None;
    }
  }

  lemma ReportKeepsOrder(s: Scan, s': Scan, r: Report, o: Seq16, d: nat)
    requires At(s, o, d) && Behind(s, o) && 0 < d < 0xFFFF
    requires Reported(s, s', r)
    ensures Behind(s', o)
  {
    DistPlus(o, d - 1);
    DistPlus(o, d);
    var n := |s.log|;
    assert s'.log[n] == r && forall k :: 0 <= k < n ==> s'.log[k] == s.log[k];
  }

  lemma VisitKeepsOrder(c: Params, s: Scan, o: Seq16, d: nat)
    requires At(s, o, d) && Behind(s, o) && d < 0xFFFF
    requires d == 0 ==> !s.Current().isPushed || s.Current().rtpTimestamp == s.lastPop
    ensures Behind(Visit(c, s).scan, o)
  {
    var report := VisitEffect(c, s);
    if report.Some? {
      ReportKeepsOrder(s, Visit(c, s).scan, report.value, o, d);
    }
  }

  lemma VisitStays(c: Params, s: Scan, o: Seq16, d: nat)
    requires At(s, o, d) && d < 0xFFFF
    ensures Visit(c, s).Next? ==> At(Visit(c, s).scan, o, d + 1)
  {
    PlusPlus(o, d, 1);
    DistPlus(o, d);
  }

  lemma {:induction false} WalkKeepsOrder(c: Params, s: Scan, n: nat, o: Seq16, d: nat)
    requires At(s, o, d) && Behind(s, o) && d + n <= 0xFFFF
    requires d == 0 ==> !s.Current().isPushed || s.Current().rtpTimestamp == s.lastPop
    ensures Ordered(Walk(c, s, n).scan.log, o)
    decreases n
  {
    if n > 0 {
      VisitKeepsOrder(c, s, o, d);
      VisitStays(c, s, o, d);
      if Visit(c, s).Next? {
        WalkKeepsOrder(c, Visit(c, s).scan, n - 1, o, d + 1);
      }
    }
  }

  /** The packet at the oldest number belongs to the frame being gathered, or is missing. */
  ghost predicate OldestIsStamped(b: Buffer)
    requires b.Valid()
  {
    var p := b.ring.slots[Index(b.oldest)];
    !p.isPushed || p.rtpTimestamp == b.lastPop
  }

  /** Then the ranges a pass reports run forward, are disjoint and come in order, across the wrap too. */
  lemma StampedReportsOrdered(b: Buffer, closing: bool, codec: Codec, handler: Handler)
    requires b.Valid() && OldestIsStamped(b)
    ensures Ordered(ScanBuffer(b, closing, codec, handler).scan.log, b.oldest)
  {
    var s := StartScan(b.ring, b.oldest, b.lastPop);
    DistPlus(b.oldest, 0);
    assert Plus(b.oldest, 0) == b.oldest;
    WalkKeepsOrder(ParamsOf(b, closing, codec, handler), s, Span(b.oldest, b.newest), b.oldest, 0);
  }

  // ---------- When the oldest packet is not stamped ----------

  lemma {:induction false} WalkKeepsPrefix(c: Params, s: Scan, n: nat)
    requires s.Valid()
    ensures s.log <= Walk(c, s, n).scan.log
    decreases n
  {
    hide Visit;
    if n > 0 {
      var report := VisitEffect(c, s);
      if Visit(c, s).Next? {
        WalkKeepsPrefix(c, Visit(c, s).scan, n - 1);
      }
    }
  }

  /** An expired oldest packet with another timestamp is reported alone and discarded before the
      cursors are read from it, so they restart at zero. */
  lemma UnstampedOldestIsLost(b: Buffer, closing: bool, codec: Codec, handler: Handler)
    requires b.Valid() && Tidy(b.ring.slots) && RejectsEmpty(codec) && !OldestIsStamped(b)
    requires Span(b.oldest, b.newest) > 0
    ensures var r := Visit(ParamsOf(b, closing, codec, handler), StartScan(b.ring, b.oldest, b.lastPop));
      if Expired(b.newestTimestamp, b.tolerance, b.ring.slots[Index(b.oldest)].rtpTimestamp) then
        && r.scan.oldest == 0 && r.scan.lastPop == 0
        && |r.scan.log| == 1 && r.scan.log[0].first == r.scan.log[0].last == b.oldest
      else
        r == Halt(StartScan(b.ring, b.oldest, b.lastPop), true)
  {
    var o := b.oldest;
    assert Span(o, o) == 1;
    assert DiscardRun(b.ring, o, 1) == Discard(b.ring, Index(o)) by {
      assert DiscardRun(Discard(b.ring, Index(o)), Plus(o, 1), 0) == Discard(b.ring, Index(o));
    }
  }
}
