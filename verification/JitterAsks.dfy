/** When a parse pass shows the codec a slot without a payload. */
module JitterAsks {
  import opened Circular
  import opened JitterModel
  import opened JitterOwnership
  import opened JitterFrames
  import opened JitterCursors

  // ---------- One iteration ----------

  /** The codec is asked, and the slot holds no payload. */
  predicate AsksAboutEmpty(c: Params, s: Scan)
    requires s.Valid()
  {
    var r := Approach(c, s);
    r.Next? && r.scan.Current().rtpTimestamp == r.scan.lastPop && r.scan.Current().packet.None?
  }

  lemma FlushedCurrentIsHeld(c: Params, s: Scan, o: Seq16, d: nat, isReady: bool, first: Seq16)
    requires Tidy(s.ring.slots) && At(s, o, d) && 0 < d < 0xFFFF && RangeAbsorbed(s, o, d)
    requires s.Current().isPushed && s.Current().rtpTimestamp != s.lastPop
    requires Dist(o, s.first) <= Dist(o, first) < d
    ensures Release(c, s, isReady, first).scan.Current().packet.Some?
  {
    hide Tidy, DiscardRun;
    CurrentSurvives(s, o, d, first);
    PushedIsHeld(s);
  }

  lemma PushedIsHeld(s: Scan)
    requires Tidy(s.ring.slots) && s.Current().isPushed
    ensures s.Current().packet.Some?
  {
  }

  lemma StrandedIsEmptied(s: Scan)
    requires Tidy(s.ring.slots) && s.first == s.prev == s.i && s.Current().isPushed
    ensures DiscardRun(s.ring, s.first, Span(s.first, s.prev)).slots[Index(s.i)] == EMPTY
  {
    assert Span(s.i, s.i) == 1;
    assert DiscardRun(Discard(s.ring, Index(s.i)), Plus(s.i, 1), 0) == Discard(s.ring, Index(s.i));
    PushedIsHeld(s);
  }

  /** d numbers into a pass, the codec is asked about a slot without a payload in exactly two cases: the
      slot is empty, the current timestamp is zero, and zero is expired or the pass is closing; or the
      pass begins with a stranded packet and the callback accepts that it is dropped. */
  lemma VisitAsksIff(c: Params, s: Scan, o: Seq16, d: nat)
    requires Tidy(s.ring.slots) && At(s, o, d) && d < 0xFFFF && RangeAbsorbed(s, o, d)
    ensures AsksAboutEmpty(c, s) <==>
            var p := s.Current();
            || (p.packet.None? && s.lastPop == 0 && (c.closing || Expired(c.newestTimestamp, c.tolerance, 0)))
            || (&& d == 0 && p.isPushed && p.rtpTimestamp != s.lastPop
                && Expired(c.newestTimestamp, c.tolerance, p.rtpTimestamp)
                && c.handler(s.log + [Report(false, s.first, s.prev, s.ring.slots, s.lastPop)]))
  {
    hide Expired;
    var p := s.Current();
    if p.isPushed && p.rtpTimestamp != s.lastPop {
      PushedIsHeld(s);
      if d == 0 {
        assert Plus(o, 0) == o;
        StrandedIsEmptied(s);
      } else {
        FlushedCurrentIsHeld(c, s, o, d, false, s.first);
        if s.start.Some? {
          FlushedCurrentIsHeld(c, s, o, d, true, s.start.value);
        }
      }
    }
  }

  // ---------- A whole pass ----------

  /** Some iteration of the rest of the pass asks about an empty slot. */
  predicate PassAsks(c: Params, s: Scan, n: nat)
    requires s.Valid()
    decreases n
  {
    n > 0 && (AsksAboutEmpty(c, s) || (Visit(c, s).Next? && PassAsks(c, Visit(c, s).scan, n - 1)))
  }

  /** The scan stands at an empty slot while the current timestamp is zero, and does not stop there. */
  predicate MeetsZero(c: Params, s: Scan)
    requires s.Valid()
  {
    s.Current().packet.None? && s.lastPop == 0 && (c.closing || Expired(c.newestTimestamp, c.tolerance, 0))
  }

  predicate PassMeetsZero(c: Params, s: Scan, n: nat)
    requires s.Valid()
    decreases n
  {
    n > 0 && (MeetsZero(c, s) || (Visit(c, s).Next? && PassMeetsZero(c, Visit(c, s).scan, n - 1)))
  }

  /** What holds d numbers into a pass whose oldest packet is not of another frame. */
  ghost predicate InStep(s: Scan, o: Seq16, d: nat, oldest: Seq16, lastPop: Time32) {
    && At(s, o, d) && d < 0x10000 && RangeAbsorbed(s, o, d) && Follows(s, oldest, lastPop)
    && (d == 0 ==> Absorbed(s.Current(), s.lastPop))
    && Tidy(s.ring.slots) && AllReleased(s.log, s.ring.slots)
  }

  lemma VisitInStep(c: Params, s: Scan, o: Seq16, d: nat, oldest: Seq16, lastPop: Time32)
    requires InStep(s, o, d, oldest, lastPop) && d < 0xFFFF
    ensures Visit(c, s).Next? ==> InStep(Visit(c, s).scan, o, d + 1, oldest, lastPop)
  {
    hide Visit, Tidy, AllReleased, Follows, RangeAbsorbed;
    VisitFollows(c, s, o, d, oldest, lastPop);
    VisitStays(c, s, o, d);
    VisitReleases(c, s);
  }

  lemma StepAsksIff(c: Params, s: Scan, o: Seq16, d: nat, oldest: Seq16, lastPop: Time32)
    requires InStep(s, o, d, oldest, lastPop) && d < 0xFFFF
    ensures AsksAboutEmpty(c, s) <==> MeetsZero(c, s)
  {
    hide AsksAboutEmpty, Tidy, AllReleased, Follows, RangeAbsorbed, Expired;
    VisitAsksIff(c, s, o, d);
  }

  lemma {:induction false} WalkAsksIff(c: Params, s: Scan, n: nat, o: Seq16, d: nat, oldest: Seq16, lastPop: Time32)
    requires InStep(s, o, d, oldest, lastPop) && d + n <= 0xFFFF
    ensures PassAsks(c, s, n) <==> PassMeetsZero(c, s, n)
    decreases n
  {
    hide InStep, AsksAboutEmpty, MeetsZero, Visit;
    InStepIsValid(s, o, d, oldest, lastPop);
    if n > 0 {
      StepAsksIff(c, s, o, d, oldest, lastPop);
      VisitInStep(c, s, o, d, oldest, lastPop);
      if Visit(c, s).Next? {
        WalkAsksIff(c, Visit(c, s).scan, n - 1, o, d + 1, oldest, lastPop);
      }
    }
  }

  lemma InStepIsValid(s: Scan, o: Seq16, d: nat, oldest: Seq16, lastPop: Time32)
    requires InStep(s, o, d, oldest, lastPop)
    ensures s.Valid()
  {
  }

  lemma StartInStep(b: Buffer)
    requires b.Valid() && Tidy(b.ring.slots) && OldestIsStamped(b)
    ensures InStep(StartScan(b.ring, b.oldest, b.lastPop), b.oldest, 0, b.oldest, b.lastPop)
  {
    DistPlus(b.oldest, 0);
    assert Plus(b.oldest, 0) == b.oldest;
  }

  lemma StrandedAsksIff(c: Params, b: Buffer)
    requires b.Valid() && Tidy(b.ring.slots) && !OldestIsStamped(b)
    ensures var s := StartScan(b.ring, b.oldest, b.lastPop);
      && (AsksAboutEmpty(c, s) <==>
          && Expired(c.newestTimestamp, c.tolerance, s.Current().rtpTimestamp)
          && c.handler([Report(false, b.oldest, b.oldest, b.ring.slots, b.lastPop)]))
      && (Visit(c, s).Next? ==> AsksAboutEmpty(c, s)) && !MeetsZero(c, s)
  {
    hide Expired;
    var s := StartScan(b.ring, b.oldest, b.lastPop);
    assert Plus(b.oldest, 0) == b.oldest;
    DistPlus(b.oldest, 0);
    PushedIsHeld(s);
    VisitAsksIff(c, s, b.oldest, 0);
    assert [] + [Report(false, b.oldest, b.oldest, b.ring.slots, b.lastPop)] ==
           [Report(false, b.oldest, b.oldest, b.ring.slots, b.lastPop)];
  }

  /** Which passes ask about an empty slot: one that begins with a stranded packet, if the callback
      accepts that it is dropped; any other, if it meets an empty slot while the current timestamp is
      zero and zero is expired or the pass is closing. */
  lemma AsksAboutEmptyIff(b: Buffer, closing: bool, codec: Codec, handler: Handler)
    requires b.Valid() && Tidy(b.ring.slots)
    ensures var c, s := ParamsOf(b, closing, codec, handler), StartScan(b.ring, b.oldest, b.lastPop);
      var n := Span(b.oldest, b.newest);
      PassAsks(c, s, n) <==>
      if OldestIsStranded(b) then n > 0 && handler([Report(false, b.oldest, b.oldest, b.ring.slots, b.lastPop)])
      else PassMeetsZero(c, s, n)
  {
    hide Visit, AsksAboutEmpty, MeetsZero, OldestIsStamped, Span, Expired;
    var c, s := ParamsOf(b, closing, codec, handler), StartScan(b.ring, b.oldest, b.lastPop);
    SpanFits(b.oldest, b.newest);
    if OldestIsStamped(b) {
      StartInStep(b);
      WalkAsksIff(c, s, Span(b.oldest, b.newest), b.oldest, 0, b.oldest, b.lastPop);
    } else {
      StrandedAsksIff(c, b);
    }
  }

  lemma SpanFits(first: Seq16, last: Seq16)
    ensures Span(first, last) <= 0xFFFF
  {
  }

  // ---------- Told before the pass ----------

  /** No stored packet carries the timestamp zero. */
  ghost predicate NoneStampedZero(slots: seq<Slot>) {
    forall k :: 0 <= k < |slots| && slots[k].packet.Some? ==> slots[k].rtpTimestamp != 0
  }

  lemma ClearsKeepNonZero(slots: seq<Slot>, slots': seq<Slot>)
    requires |slots| == |slots'| && OnlyClears(slots, slots') && NoneStampedZero(slots)
    ensures NoneStampedZero(slots')
  {
  }

  lemma ReleaseStaysNonZero(c: Params, s: Scan, o: Seq16, d: nat, isReady: bool, first: Seq16)
    requires Tidy(s.ring.slots) && At(s, o, d) && 0 < d < 0xFFFF && RangeAbsorbed(s, o, d)
    requires s.Current().isPushed && s.Current().rtpTimestamp != s.lastPop && NoneStampedZero(s.ring.slots)
    requires Dist(o, s.first) <= Dist(o, first) < d
    ensures Release(c, s, isReady, first).scan.lastPop != 0
  {
    hide Tidy, DiscardRun, RangeAbsorbed;
    CurrentSurvives(s, o, d, first);
    PushedIsHeld(s);
  }

  lemma VisitStaysNonZero(c: Params, s: Scan, o: Seq16, d: nat, oldest: Seq16, lastPop: Time32)
    requires InStep(s, o, d, oldest, lastPop) && d < 0xFFFF && s.lastPop != 0 && NoneStampedZero(s.ring.slots)
    ensures Visit(c, s).scan.lastPop != 0 && NoneStampedZero(Visit(c, s).scan.ring.slots)
  {
    hide Release, Tidy, AllReleased, NoneStampedZero, RangeAbsorbed, Expired;
    var p := s.Current();
    VisitReleases(c, s);
    ClearsKeepNonZero(s.ring.slots, Visit(c, s).scan.ring.slots);
    if p.isPushed && p.rtpTimestamp != s.lastPop {
      ReleaseStaysNonZero(c, s, o, d, false, s.first);
      if s.start.Some? {
        ReleaseStaysNonZero(c, s, o, d, true, s.start.value);
      }
    }
  }

  lemma {:induction false} NeverMeetsZero(c: Params, s: Scan, n: nat, o: Seq16, d: nat, oldest: Seq16, lastPop: Time32)
    requires InStep(s, o, d, oldest, lastPop) && d + n <= 0xFFFF && s.lastPop != 0 && NoneStampedZero(s.ring.slots)
    ensures !PassMeetsZero(c, s, n)
    decreases n
  {
    hide InStep, Visit, NoneStampedZero;
    InStepIsValid(s, o, d, oldest, lastPop);
    if n > 0 {
      VisitInStep(c, s, o, d, oldest, lastPop);
      VisitStaysNonZero(c, s, o, d, oldest, lastPop);
      if Visit(c, s).Next? {
        NeverMeetsZero(c, Visit(c, s).scan, n - 1, o, d + 1, oldest, lastPop);
      }
    }
  }

  lemma {:induction false} ZeroStops(c: Params, s: Scan, n: nat)
    requires s.Valid() && !c.closing && !Expired(c.newestTimestamp, c.tolerance, 0)
    ensures !PassMeetsZero(c, s, n)
    decreases n
  {
    hide Visit, Expired;
    if n > 0 && Visit(c, s).Next? {
      ZeroStops(c, Visit(c, s).scan, n - 1);
    }
  }

  /** With no packet stamped zero, or zero not expired, the buffer before the pass tells: the oldest
      packet is stranded and the callback accepts its drop, or the oldest slot is empty, the timestamp
      cursor is zero and the pass does not stop at once. */
  lemma AsksToldBefore(b: Buffer, closing: bool, codec: Codec, handler: Handler)
    requires b.Valid() && Tidy(b.ring.slots) && Settled(b.ring.slots)
    requires NoneStampedZero(b.ring.slots) || (!closing && !Expired(b.newestTimestamp, b.tolerance, 0))
    ensures var c, s := ParamsOf(b, closing, codec, handler), StartScan(b.ring, b.oldest, b.lastPop);
      var n := Span(b.oldest, b.newest);
      PassAsks(c, s, n) <==>
      (n > 0 && if OldestIsStranded(b) then handler([Report(false, b.oldest, b.oldest, b.ring.slots, b.lastPop)])
                else MeetsZero(c, s))
  {
    hide Visit, PassAsks, Span, Expired, Tidy;
    var c, s := ParamsOf(b, closing, codec, handler), StartScan(b.ring, b.oldest, b.lastPop);
    var n := Span(b.oldest, b.newest);
    AsksAboutEmptyIff(b, closing, codec, handler);
    SpanFits(b.oldest, b.newest);
    if !closing && !Expired(b.newestTimestamp, b.tolerance, 0) {
      ZeroStops(c, s, n);
    } else if OldestIsStamped(b) && b.lastPop != 0 {
      StartInStep(b);
      NeverMeetsZero(c, s, n, b.oldest, 0, b.oldest, b.lastPop);
    } else if OldestIsStamped(b) {
      assert s.Current().packet.None?;
    } else if n > 0 {
      StrandedAsksIff(c, b);
    }
  }
}
