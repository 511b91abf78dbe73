/** A parse pass told frame by frame. The scanning loop goes packet by packet and keeps its progress in
five variables; here a pass is said in terms of the packets of one frame at a time: where the frame ends,
whether anything of it is missing, where it starts, and what the packet behind it says about waiting. */
module JitterPass {
  import opened Circular
  import opened JitterModel
  import opened JitterRing
  import opened JitterOwnership
  import opened JitterFrames
  import opened JitterCursors
  import opened Wrappers

  /** The slot of the j-th number from o on. */
  function Nth(slots: seq<Slot>, o: Seq16, j: nat): Slot
    requires |slots| == CAPACITY
  {
    slots[Index(Plus(o, j))]
  }

  /** A packet of another frame. */
  predicate Foreign(p: Slot, stamp: Time32) {
    p.isPushed && p.rtpTimestamp != stamp
  }

  predicate Broken(c: Params, p: Slot, stamp: Time32) {
    p.rtpTimestamp == stamp && c.codec(p).Invalid?
  }

  /** A missing or an invalid packet. */
  predicate Hole(c: Params, p: Slot, stamp: Time32) {
    !p.isPushed || Broken(c, p, stamp)
  }

  predicate Opens(c: Params, p: Slot, stamp: Time32) {
    p.rtpTimestamp == stamp && c.codec(p) == Valid(true)
  }

  /** The pass does not wait for what is missing. */
  predicate Hurries(c: Params) {
    c.closing || Expired(c.newestTimestamp, c.tolerance, 0)
  }

  /** The first packet of another frame from the d-th on, or n. */
  function FrameEnd(slots: seq<Slot>, o: Seq16, stamp: Time32, d: nat, n: nat): (e: nat)
    requires |slots| == CAPACITY && d <= n
    ensures d <= e <= n && (e < n ==> Foreign(Nth(slots, o, e), stamp))
    ensures forall j {:trigger Nth(slots, o, j)} :: d <= j < e ==> !Foreign(Nth(slots, o, j), stamp)
    decreases n - d
  {
    if d == n || Foreign(Nth(slots, o, d), stamp) then d else FrameEnd(slots, o, stamp, d + 1, n)
  }

  /** The first hole among the numbers lo..e. */
  function FirstHole(c: Params, slots: seq<Slot>, o: Seq16, stamp: Time32, lo: nat, e: nat): (h: Option<nat>)
    requires |slots| == CAPACITY && lo <= e
    ensures h.None? ==> forall j {:trigger Nth(slots, o, j)} :: lo <= j < e ==> !Hole(c, Nth(slots, o, j), stamp)
    ensures h.Some? ==> lo <= h.value < e && Hole(c, Nth(slots, o, h.value), stamp)
    decreases e - lo
  {
    if e == lo then None
    else if FirstHole(c, slots, o, stamp, lo, e - 1).Some? then FirstHole(c, slots, o, stamp, lo, e - 1)
    else if Hole(c, Nth(slots, o, e - 1), stamp) then Some(e - 1)
    else None
  }

  /** The first packet among the numbers lo..e with which a frame starts. */
  function Opening(c: Params, slots: seq<Slot>, o: Seq16, stamp: Time32, lo: nat, e: nat): (q: Option<nat>)
    requires |slots| == CAPACITY && lo <= e
    ensures q.None? ==> forall j {:trigger Nth(slots, o, j)} :: lo <= j < e ==> !Opens(c, Nth(slots, o, j), stamp)
    ensures q.Some? ==> lo <= q.value < e && Opens(c, Nth(slots, o, q.value), stamp)
    decreases e - lo
  {
    if e == lo then None
    else if Opening(c, slots, o, stamp, lo, e - 1).Some? then Opening(c, slots, o, stamp, lo, e - 1)
    else if Opens(c, Nth(slots, o, e - 1), stamp) then Some(e - 1)
    else None
  }

  /** The ring without the invalid packets among the numbers lo..e. */
  function WithoutBroken(c: Params, r: Ring, o: Seq16, stamp: Time32, lo: nat, e: nat): (r': Ring)
    requires |r.slots| == CAPACITY && lo <= e
    ensures |r'.slots| == CAPACITY
    decreases e - lo
  {
    if e == lo then r
    else
      var r1 := WithoutBroken(c, r, o, stamp, lo, e - 1);
      if Broken(c, Nth(r.slots, o, e - 1), stamp) then Discard(r1, Index(Plus(o, e - 1))) else r1
  }

  datatype Passed = Passed(ring: Ring, oldest: Seq16, lastPop: Time32, log: seq<Report>, ok: bool)

  /** A pass from the frame on that begins at number lo, n numbers in all; clean: no hole was met before.
      At a hole a pass that does not hurry stops. A frame followed by a packet of another frame is ready
      when nothing was missing in the pass so far and it has an opening; its range starts there. Otherwise
      it is dropped when the packet behind it is expired; else the pass waits. */
  function FramePass(c: Params, r: Ring, oldest: Seq16, stamp: Time32, log: seq<Report>,
                     o: Seq16, lo: nat, n: nat, clean: bool): Passed
    requires |r.slots| == CAPACITY && lo < n
    decreases n - lo
  {
    var e := FrameEnd(r.slots, o, stamp, lo + 1, n);
    var hole := FirstHole(c, r.slots, o, stamp, lo, e);
    if hole.Some? && !Hurries(c) then
      Passed(WithoutBroken(c, r, o, stamp, lo, hole.value + 1), oldest, stamp, log, true)
    else
      var r1 := WithoutBroken(c, r, o, stamp, lo, e);
      var whole := clean && hole.None?;
      var opening := Opening(c, r.slots, o, stamp, lo, e);
      var isReady := whole && opening.Some?;
      if e == n || !(isReady || Expired(c.newestTimestamp, c.tolerance, Nth(r.slots, o, e).rtpTimestamp)) then
        Passed(r1, oldest, stamp, log, true)
      else
        var first := if isReady then opening.value else lo;
        var next := Nth(r.slots, o, e);
        var r2 := DiscardRun(r1, Plus(o, first), e - first);
        var log' := log + [Report(isReady, Plus(o, first), Plus(o, e - 1), r1.slots, stamp)];
        if c.handler(log') then FramePass(c, r2, next.sequenceNumber, next.rtpTimestamp, log', o, e, n, whole)
        else Passed(r2, next.sequenceNumber, next.rtpTimestamp, log', false)
  }

  /** A pass over the n numbers from o on. A stranded oldest packet is dropped alone, and the pass goes on
      over the cleared slot with the cursors at zero. */
  function WholePass(c: Params, r: Ring, o: Seq16, stamp: Time32, n: nat): Passed
    requires |r.slots| == CAPACITY
  {
    if n == 0 then
      Passed(r, o, stamp, [], true)
    else if !Foreign(Nth(r.slots, o, 0), stamp) then
      FramePass(c, r, o, stamp, [], o, 0, n, true)
    else if Expired(c.newestTimestamp, c.tolerance, Nth(r.slots, o, 0).rtpTimestamp) then
      var log := [Report(false, o, o, r.slots, stamp)];
      if c.handler(log) then FramePass(c, Discard(r, Index(o)), 0, 0, log, o, 0, n, true)
      else Passed(Discard(r, Index(o)), 0, 0, log, false)
    else
      Passed(r, o, stamp, [], true)
  }

  // ---------- No two numbers share a slot ----------

  ghost predicate Clear(o: Seq16, n: nat) {
    forall j, k :: 0 <= j < k < n ==> Index(Plus(o, j)) != Index(Plus(o, k))
  }

  lemma ClearAt(o: Seq16, n: nat, j: nat, k: nat)
    requires Clear(o, n) && j < n && k < n && j != k
    ensures Index(Plus(o, j)) != Index(Plus(o, k))
  {
    if j < k {
      assert Index(Plus(o, j)) != Index(Plus(o, k));
    } else {
      assert Index(Plus(o, k)) != Index(Plus(o, j));
    }
  }

  /** That is so for up to 536 numbers, and for up to 1000 that do not wrap. */
  lemma ClearIff(o: Seq16, n: nat)
    ensures Clear(o, n) <==> n <= 536 || (n <= CAPACITY && o + n <= 0x10000)
  {
    if n <= 536 || (n <= CAPACITY && o + n <= 0x10000) {
      forall j, k | 0 <= j < k < n ensures Index(Plus(o, j)) != Index(Plus(o, k)) {
        PlusPlus(o, j, k - j);
        SharesSlotIff(Plus(o, j), k - j);
      }
    } else if n > CAPACITY && o + CAPACITY < 0x10000 {
      assert Index(Plus(o, 0)) == Index(Plus(o, CAPACITY));
    } else {
      var j := if o + 536 >= 0x10000 then 0 else 0x10000 - 536 - o;
      PlusPlus(o, j, 536);
      SharesSlotIff(Plus(o, j), 536);
      assert Index(Plus(o, j)) == Index(Plus(o, j + 536));
    }
  }

  // ---------- Ring facts ----------

  /** A slot is empty unless it is pushed and holds a payload. */
  ghost predicate Neat(slots: seq<Slot>) {
    && |slots| == CAPACITY
    && forall k :: 0 <= k < CAPACITY && !(slots[k].isPushed && slots[k].packet.Some?) ==> slots[k] == EMPTY
  }

  lemma NeatIsFull(slots: seq<Slot>)
    requires Neat(slots)
    ensures |slots| == CAPACITY
  {
  }

  lemma DiscardIsNeat(r: Ring, k: nat)
    requires Neat(r.slots) && k < CAPACITY
    ensures Neat(Discard(r, k).slots) && Discard(r, k).slots == r.slots[k := EMPTY]
  {
    if r.slots[k].packet.None? {
      assert r.slots[k] == EMPTY;
    }
  }

  lemma {:induction false} WithoutBrokenKeeps(c: Params, r: Ring, o: Seq16, stamp: Time32, lo: nat, e: nat, n: nat)
    requires Neat(r.slots) && lo <= e <= n && Clear(o, n)
    ensures var r' := WithoutBroken(c, r, o, stamp, lo, e);
      && Neat(r'.slots)
      && forall j {:trigger Nth(r'.slots, o, j)} :: e <= j < n ==> Nth(r'.slots, o, j) == Nth(r.slots, o, j)
    decreases e - lo
  {
    hide Clear, Neat, Index, Plus;
    NeatIsFull(r.slots);
    if lo < e {
      WithoutBrokenKeeps(c, r, o, stamp, lo, e - 1, n);
      var r1 := WithoutBroken(c, r, o, stamp, lo, e - 1);
      DiscardIsNeat(r1, Index(Plus(o, e - 1)));
      var r' := WithoutBroken(c, r, o, stamp, lo, e);
      forall j {:trigger Nth(r'.slots, o, j)} | e <= j < n ensures Nth(r'.slots, o, j) == Nth(r.slots, o, j) {
        assert Nth(r1.slots, o, j) == Nth(r.slots, o, j);
        ClearAt(o, n, j, e - 1);
      }
    }
  }

  lemma RunIsNeat(r: Ring, o: Seq16, first: nat, e: nat, n: nat)
    requires Neat(r.slots) && first < e < n <= 0xFFFF && Clear(o, n)
    ensures var r' := DiscardRun(r, Plus(o, first), e - first);
      && Neat(r'.slots)
      && forall j {:trigger Nth(r'.slots, o, j)} :: e <= j < n ==> Nth(r'.slots, o, j) == Nth(r.slots, o, j)
  {
    hide Clear, Index, Plus;
    var r' := DiscardRun(r, Plus(o, first), e - first);
    DiscardRunEffect(r, Plus(o, first), e - first);
    forall j {:trigger Nth(r'.slots, o, j)} | e <= j < n ensures Nth(r'.slots, o, j) == Nth(r.slots, o, j) {
      if Covers(Plus(o, first), e - first, Index(Plus(o, j))) {
        var i :| 0 <= i < e - first && Index(Plus(Plus(o, first), i)) == Index(Plus(o, j));
        PlusPlus(o, first, i);
        ClearAt(o, n, first + i, j);
      }
    }
  }

  // ---------- One position ----------

  /** What the loop makes of a packet that does not belong to another frame. */
  ghost predicate Looked(c: Params, s: Scan, r: Outcome)
    requires s.Valid()
  {
    var p := s.Current();
    && r.scan.oldest == s.oldest && r.scan.lastPop == s.lastPop && r.scan.log == s.log
    && r.scan.ring == (if Broken(c, p, s.lastPop) then Discard(s.ring, Index(s.i)) else s.ring)
    && (Hole(c, p, s.lastPop) && !Hurries(c) <==> r.Halt?)
    && (r.Halt? ==> r.ok)
    && (r.Next? ==> && r.scan.prev == s.i && r.scan.i == Plus(s.i, 1) && r.scan.first == s.first
                    && r.scan.continuous == (s.continuous && !Hole(c, p, s.lastPop))
                    && r.scan.start == if s.start.None? && Opens(c, p, s.lastPop) then Some(s.i) else s.start)
  }

  lemma DiscardedStamp(r: Ring, k: nat)
    requires Neat(r.slots) && k < CAPACITY
    ensures Discard(r, k).slots[k] == EMPTY
  {
    DiscardIsNeat(r, k);
  }

  lemma InspectLooks(c: Params, s: Scan)
    requires Neat(s.ring.slots) && s.Current().isPushed && s.Current().rtpTimestamp == s.lastPop
    ensures Looked(c, s, Inspect(c, s))
  {
    hide Expired, Neat;
    DiscardedStamp(s.ring, Index(s.i));
  }

  lemma InspectEmptyLooks(c: Params, s: Scan)
    requires Neat(s.ring.slots) && !s.Current().isPushed && Hurries(c)
    ensures Looked(c, s, Inspect(c, s.(continuous := false)))
  {
    hide Expired, Neat;
    DiscardedStamp(s.ring, Index(s.i));
  }

  lemma VisitLooks(c: Params, s: Scan)
    requires Neat(s.ring.slots) && !Foreign(s.Current(), s.lastPop)
    ensures Looked(c, s, Visit(c, s))
  {
    hide Expired, Inspect;
    if s.Current().isPushed {
      InspectLooks(c, s);
    } else {
      assert s.Current() == EMPTY;
      if Hurries(c) {
        InspectEmptyLooks(c, s);
      } else {
        HaltLooks(c, s);
      }
    }
  }

  lemma HaltLooks(c: Params, s: Scan)
    requires Neat(s.ring.slots) && s.Current() == EMPTY && !Hurries(c)
    ensures Looked(c, s, Halt(s.(continuous := false), true))
  {
    hide Expired;
    DiscardIsSame(s.ring, Index(s.i));
  }

  lemma DiscardIsSame(r: Ring, k: nat)
    requires k < |r.slots| && r.slots[k].packet.None?
    ensures Discard(r, k) == r
  {
  }

  // ---------- Inside a frame ----------

  /** The loop stands at number d of a pass over n numbers from o on, and at or behind the second number of
      the frame that begins at lo with ring r: what the five variables say, and that it was right not to
      stop before. */
  ghost predicate Inside(c: Params, s: Scan, r: Ring, o: Seq16, lo: nat, d: nat, n: nat, clean: bool) {
    && Neat(r.slots) && Clear(o, n) && lo < d <= n <= 0xFFFF
    && s.i == Plus(o, d) && s.prev == Plus(o, d - 1) && s.first == Plus(o, lo)
    && s.ring == WithoutBroken(c, r, o, s.lastPop, lo, d)
    && (var hole := FirstHole(c, r.slots, o, s.lastPop, lo, d);
        s.continuous == (clean && hole.None?) && (hole.Some? ==> Hurries(c)))
    && (var q := Opening(c, r.slots, o, s.lastPop, lo, d);
        s.start == if q.Some? then Some(Plus(o, q.value)) else None)
    && (forall j {:trigger Nth(r.slots, o, j)} :: lo + 1 <= j < d ==> !Foreign(Nth(r.slots, o, j), s.lastPop))
  }

  lemma InsideFacts(c: Params, s: Scan, r: Ring, o: Seq16, lo: nat, d: nat, n: nat, clean: bool)
    requires Inside(c, s, r, o, lo, d, n, clean)
    ensures s.Valid() && |r.slots| == CAPACITY && Neat(s.ring.slots)
    ensures d < n ==> s.Current() == Nth(r.slots, o, d)
    ensures FrameEnd(r.slots, o, s.lastPop, lo + 1, n) == FrameEnd(r.slots, o, s.lastPop, d, n)
  {
    hide Clear, Index, Plus, Neat, FrameEnd;
    NeatIsFull(r.slots);
    WithoutBrokenKeeps(c, r, o, s.lastPop, lo, d, n);
    FrameEndSkips(r.slots, o, s.lastPop, lo + 1, d, n);
    if d < n {
      assert Nth(s.ring.slots, o, d) == Nth(r.slots, o, d);
    }
  }

  lemma {:induction false} FrameEndSkips(slots: seq<Slot>, o: Seq16, stamp: Time32, d: nat, e: nat, n: nat)
    requires |slots| == CAPACITY && d <= e <= n
    requires forall j {:trigger Nth(slots, o, j)} :: d <= j < e ==> !Foreign(Nth(slots, o, j), stamp)
    ensures FrameEnd(slots, o, stamp, d, n) == FrameEnd(slots, o, stamp, e, n)
    decreases e - d
  {
    if d < e {
      assert !Foreign(Nth(slots, o, d), stamp);
      FrameEndSkips(slots, o, stamp, d + 1, e, n);
    }
  }

  /** The first hole stays the first. */
  lemma {:induction false} FirstHoleStays(c: Params, slots: seq<Slot>, o: Seq16, stamp: Time32, lo: nat, h: nat, e: nat)
    requires |slots| == CAPACITY && lo <= h < e
    requires FirstHole(c, slots, o, stamp, lo, h).None? && Hole(c, Nth(slots, o, h), stamp)
    ensures FirstHole(c, slots, o, stamp, lo, e) == Some(h)
    decreases e - h
  {
    if h + 1 < e {
      FirstHoleStays(c, slots, o, stamp, lo, h, e - 1);
    }
  }

  function Result(o: Outcome): Passed
    requires o.Halt?
  {
    Passed(o.scan.ring, o.scan.oldest, o.scan.lastPop, o.scan.log, o.ok)
  }

  /** The loop goes over one more packet of the frame. */
  lemma StepInside(c: Params, s: Scan, s': Scan, r: Ring, o: Seq16, lo: nat, d: nat, n: nat, clean: bool)
    requires Inside(c, s, r, o, lo, d, n, clean) && d < n && !Foreign(Nth(r.slots, o, d), s.lastPop)
    requires s.Valid() && s.Current() == Nth(r.slots, o, d) && Looked(c, s, Next(s'))
    ensures Inside(c, s', r, o, lo, d + 1, n, clean)
  {
    hide Neat, Clear, Index, Plus, Foreign, Broken, Opens, Hurries, Hole;
    PlusPlus(o, d, 1);
  }

  /** The loop stops at a hole. */
  lemma StopInside(c: Params, s: Scan, s': Outcome, r: Ring, o: Seq16, lo: nat, d: nat, n: nat, clean: bool)
    requires Inside(c, s, r, o, lo, d, n, clean) && d < n && !Foreign(Nth(r.slots, o, d), s.lastPop)
    requires s.Valid() && s.Current() == Nth(r.slots, o, d) && Looked(c, s, s') && s'.Halt?
    ensures Result(s') == FramePass(c, r, s.oldest, s.lastPop, s.log, o, lo, n, clean)
  {
    hide Neat, Clear, Index, Plus, Foreign, Broken, Opens, Hurries, Hole;
    NeatIsFull(r.slots);
    var e := FrameEnd(r.slots, o, s.lastPop, lo + 1, n);
    FrameEndSkips(r.slots, o, s.lastPop, lo + 1, d + 1, n);
    FirstHoleStays(c, r.slots, o, s.lastPop, lo, d, e);
  }

  /** The loop looks at the first packet of a frame. */
  lemma BeginFrame(c: Params, s: Scan, s': Outcome, o: Seq16, lo: nat, n: nat, clean: bool)
    requires Neat(s.ring.slots) && Clear(o, n) && lo < n <= 0xFFFF
    requires s.i == s.first == Plus(o, lo) && s.start.None? && s.continuous == clean
    requires Looked(c, s, s')
    ensures s'.Next? ==> Inside(c, s'.scan, s.ring, o, lo, lo + 1, n, clean)
    ensures s'.Halt? ==> Result(s') == FramePass(c, s.ring, s.oldest, s.lastPop, s.log, o, lo, n, clean)
  {
    hide Neat, Clear, Index, Plus, Foreign, Broken, Opens, Hurries, Hole, FrameEnd;
    NeatIsFull(s.ring.slots);
    PlusPlus(o, lo, 1);
    var r, stamp := s.ring, s.lastPop;
    assert s.Current() == Nth(r.slots, o, lo);
    assert FirstHole(c, r.slots, o, stamp, lo, lo).None? && Opening(c, r.slots, o, stamp, lo, lo).None?;
    assert WithoutBroken(c, r, o, stamp, lo, lo) == r;
    if s'.Halt? {
      FirstHoleStays(c, r.slots, o, stamp, lo, lo, FrameEnd(r.slots, o, stamp, lo + 1, n));
    }
  }

  /** The report that ends a frame, and the ring behind it. */
  lemma ReleaseFrame(c: Params, s: Scan, r: Ring, o: Seq16, lo: nat, d: nat, n: nat, clean: bool, isReady: bool, x: nat)
    requires Inside(c, s, r, o, lo, d, n, clean) && d < n && Foreign(Nth(r.slots, o, d), s.lastPop)
    requires s.Valid() && lo <= x < d
    ensures var s1 := Release(c, s, isReady, Plus(o, x)).scan; var next := Nth(r.slots, o, d);
      && s1.ring == DiscardRun(s.ring, Plus(o, x), d - x) && Neat(s1.ring.slots)
      && s1.oldest == next.sequenceNumber && s1.lastPop == next.rtpTimestamp && s1.Current() == next
      && s1.log == s.log + [Report(isReady, Plus(o, x), Plus(o, d - 1), s.ring.slots, s.lastPop)]
      && s1.i == s1.first == Plus(o, d) && s1.start.None? && s1.continuous == s.continuous
  {
    hide Neat, Clear, Index, Plus, Span, Foreign, DiscardRun;
    NeatIsFull(r.slots);
    InsideFacts(c, s, r, o, lo, d, n, clean);
    RangeLength(o, x, d);
    RunIsNeat(s.ring, o, x, d, n);
    var r2 := DiscardRun(s.ring, Plus(o, x), d - x);
    assert Nth(r2.slots, o, d) == Nth(s.ring.slots, o, d);
  }

  /** At the first packet of another frame: what the loop does is what the frame is told to do. */
  lemma EndFrame(c: Params, s: Scan, r: Ring, o: Seq16, lo: nat, d: nat, n: nat, clean: bool)
    requires Inside(c, s, r, o, lo, d, n, clean) && d < n && Foreign(Nth(r.slots, o, d), s.lastPop)
    requires s.Valid() && s.Current() == Nth(r.slots, o, d)
    ensures var a := Approach(c, s); var f := FramePass(c, r, s.oldest, s.lastPop, s.log, o, lo, n, clean);
      && (a.Halt? ==> Result(a) == f)
      && (a.Next? ==> && Neat(a.scan.ring.slots) && a.scan.Current() == Nth(r.slots, o, d)
                      && a.scan.lastPop == a.scan.Current().rtpTimestamp
                      && a.scan.i == a.scan.first == Plus(o, d) && a.scan.start.None?
                      && f == FramePass(c, a.scan.ring, a.scan.oldest, a.scan.lastPop, a.scan.log, o, d, n,
                                        a.scan.continuous))
  {
    hide Neat, Clear, Index, Plus, Release, Expired, Broken, Opens, Hurries, Hole;
    hide FirstHole, Opening, WithoutBroken, FrameEnd;
    NeatIsFull(r.slots);
    InsideFacts(c, s, r, o, lo, d, n, clean);
    EndsHere(r.slots, o, s.lastPop, d, n);
    var q := Opening(c, r.slots, o, s.lastPop, lo, d);
    ReleaseFrame(c, s, r, o, lo, d, n, clean, false, lo);
    ReleaseAnswers(c, s, false, Plus(o, lo));
    if q.Some? {
      ReleaseFrame(c, s, r, o, lo, d, n, clean, true, q.value);
      ReleaseAnswers(c, s, true, Plus(o, q.value));
    }
  }

  lemma EndsHere(slots: seq<Slot>, o: Seq16, stamp: Time32, d: nat, n: nat)
    requires |slots| == CAPACITY && d < n && Foreign(Nth(slots, o, d), stamp)
    ensures FrameEnd(slots, o, stamp, d, n) == d
  {
  }

  lemma ReleaseAnswers(c: Params, s: Scan, isReady: bool, first: Seq16)
    requires s.Valid()
    ensures var a := Release(c, s, isReady, first);
      && (a.Next? <==> c.handler(a.scan.log)) && (a.Halt? ==> !a.ok) && a.scan.log != []
  {
  }

  // ---------- The whole pass ----------

  lemma {:induction false} WalkIsFramePass(c: Params, s: Scan, r: Ring, o: Seq16, lo: nat, d: nat, n: nat, clean: bool)
    requires Inside(c, s, r, o, lo, d, n, clean) && s.Valid() && |r.slots| == CAPACITY && lo < n
    ensures Result(Walk(c, s, n - d)) == FramePass(c, r, s.oldest, s.lastPop, s.log, o, lo, n, clean)
    decreases n - d
  {
    hide Inside, FramePass, Visit, Approach, Looked, Neat, Clear, Plus, Index, Foreign;
    InsideFacts(c, s, r, o, lo, d, n, clean);
    if d == n {
      LastFrameWaits(c, s, r, o, lo, n, clean);
    } else if Foreign(Nth(r.slots, o, d), s.lastPop) {
      WalkUnfolds(c, s, n - d);
      ForeignStep(c, s, r, o, lo, d, n, clean);
      if Visit(c, s).Next? {
        var s' := Visit(c, s).scan;
        InsideFacts(c, s', Approach(c, s).scan.ring, o, d, d + 1, n, Approach(c, s).scan.continuous);
        WalkIsFramePass(c, s', Approach(c, s).scan.ring, o, d, d + 1, n, Approach(c, s).scan.continuous);
      }
    } else {
      WalkUnfolds(c, s, n - d);
      VisitLooks(c, s);
      OwnStep(c, s, r, o, lo, d, n, clean);
      if Visit(c, s).Next? {
        InsideFacts(c, Visit(c, s).scan, r, o, lo, d + 1, n, clean);
        WalkIsFramePass(c, Visit(c, s).scan, r, o, lo, d + 1, n, clean);
      }
    }
  }

  lemma LastFrameWaits(c: Params, s: Scan, r: Ring, o: Seq16, lo: nat, n: nat, clean: bool)
    requires Inside(c, s, r, o, lo, n, n, clean) && |r.slots| == CAPACITY && lo < n
    ensures Passed(s.ring, s.oldest, s.lastPop, s.log, true) ==
            FramePass(c, r, s.oldest, s.lastPop, s.log, o, lo, n, clean)
  {
    hide Neat, Clear, Index, Plus, Foreign, Hurries, FirstHole, Opening, WithoutBroken, FrameEnd;
    FrameEndSkips(r.slots, o, s.lastPop, lo + 1, n, n);
    EndsAtLast(r.slots, o, s.lastPop, n);
  }

  lemma EndsAtLast(slots: seq<Slot>, o: Seq16, stamp: Time32, n: nat)
    requires |slots| == CAPACITY
    ensures FrameEnd(slots, o, stamp, n, n) == n
  {
  }

  /** A step over a packet of the frame. */
  lemma OwnStep(c: Params, s: Scan, r: Ring, o: Seq16, lo: nat, d: nat, n: nat, clean: bool)
    requires Inside(c, s, r, o, lo, d, n, clean) && d < n && |r.slots| == CAPACITY && s.Valid()
    requires !Foreign(Nth(r.slots, o, d), s.lastPop) && s.Current() == Nth(r.slots, o, d)
    requires Looked(c, s, Visit(c, s))
    ensures var v := Visit(c, s);
      && (v.Halt? ==> Result(v) == FramePass(c, r, s.oldest, s.lastPop, s.log, o, lo, n, clean))
      && (v.Next? ==> && Inside(c, v.scan, r, o, lo, d + 1, n, clean)
                      && v.scan.oldest == s.oldest && v.scan.lastPop == s.lastPop && v.scan.log == s.log)
  {
    hide Inside, FramePass, Visit, Foreign, Nth;
    var v := Visit(c, s);
    if v.Next? {
      StepInside(c, s, v.scan, r, o, lo, d, n, clean);
    } else {
      StopInside(c, s, v, r, o, lo, d, n, clean);
    }
  }

  /** A step over the first packet of the next frame. */
  lemma ForeignStep(c: Params, s: Scan, r: Ring, o: Seq16, lo: nat, d: nat, n: nat, clean: bool)
    requires Inside(c, s, r, o, lo, d, n, clean) && d < n && |r.slots| == CAPACITY && s.Valid() && lo < n
    requires Foreign(Nth(r.slots, o, d), s.lastPop) && s.Current() == Nth(r.slots, o, d)
    ensures var v, a := Visit(c, s), Approach(c, s).scan;
      var f := FramePass(c, r, s.oldest, s.lastPop, s.log, o, lo, n, clean);
      && (v.Halt? ==> Result(v) == f)
      && (v.Next? ==> && Inside(c, v.scan, a.ring, o, d, d + 1, n, a.continuous) && |a.ring.slots| == CAPACITY
                      && f == FramePass(c, a.ring, v.scan.oldest, v.scan.lastPop, v.scan.log, o, d, n, a.continuous))
  {
    hide FramePass, Approach, Inspect, Neat, Clear, Plus;
    EndFrame(c, s, r, o, lo, d, n, clean);
    var a := Approach(c, s);
    if a.Next? {
      assert Nth(r.slots, o, d).isPushed;
      InspectLooks(c, a.scan);
      BeginFrame(c, a.scan, Inspect(c, a.scan), o, d, n, a.scan.continuous);
    }
  }

  /** The ring and the cursors a pass leaves, what it reports and whether it succeeds are those of the pass
      told frame by frame: for every codec and callback, and every interval whose numbers have slots of
      their own. */
  lemma PassIsFrameByFrame(b: Buffer, closing: bool, codec: Codec, handler: Handler)
    requires b.Valid() && Tidy(b.ring.slots) && Settled(b.ring.slots) && RejectsEmpty(codec)
    requires Clear(b.oldest, Span(b.oldest, b.newest))
    ensures Result(ScanBuffer(b, closing, codec, handler)) ==
            WholePass(ParamsOf(b, closing, codec, handler), b.ring, b.oldest, b.lastPop, Span(b.oldest, b.newest))
  {
    hide FramePass, Visit, Neat, Clear, Inside, Looked;
    var c, s := ParamsOf(b, closing, codec, handler), StartScan(b.ring, b.oldest, b.lastPop);
    var n := Span(b.oldest, b.newest);
    TidyIsNeat(b.ring.slots);
    assert Plus(b.oldest, 0) == b.oldest;
    if n > 0 {
      WalkUnfolds(c, s, n);
      if !Foreign(s.Current(), b.lastPop) {
        VisitLooks(c, s);
        FirstStep(c, s, Visit(c, s), b.oldest, n);
      } else {
        StrandedStep(c, s, b.oldest, n);
      }
    }
  }

  lemma TidyIsNeat(slots: seq<Slot>)
    requires Tidy(slots) && Settled(slots)
    ensures Neat(slots)
  {
  }

  lemma FirstStep(c: Params, s: Scan, v: Outcome, o: Seq16, n: nat)
    requires Neat(s.ring.slots) && Clear(o, n) && 0 < n <= 0xFFFF && s.Valid()
    requires s.i == s.first == o && s.start.None? && s.continuous && Looked(c, s, v)
    ensures v.Halt? ==> Result(v) == FramePass(c, s.ring, s.oldest, s.lastPop, s.log, o, 0, n, true)
    ensures v.Next? ==> v.scan.Valid()
    ensures v.Next? ==>
              Result(Walk(c, v.scan, n - 1)) == FramePass(c, s.ring, s.oldest, s.lastPop, s.log, o, 0, n, true)
  {
    hide FramePass, Neat, Clear, Inside;
    assert Plus(o, 0) == o;
    BeginFrame(c, s, v, o, 0, n, true);
    if v.Next? {
      InsideFacts(c, v.scan, s.ring, o, 0, 1, n, true);
      WalkIsFramePass(c, v.scan, s.ring, o, 0, 1, n, true);
    }
  }

  /** The first step at a stranded packet. */
  lemma StrandedStep(c: Params, s: Scan, o: Seq16, n: nat)
    requires Neat(s.ring.slots) && Clear(o, n) && 0 < n <= 0xFFFF && s.Valid() && RejectsEmpty(c.codec)
    requires s == StartScan(s.ring, o, s.lastPop) && Foreign(s.Current(), s.lastPop)
    ensures var v := Visit(c, s); var w := WholePass(c, s.ring, o, s.lastPop, n);
      && (v.Halt? ==> Result(v) == w)
      && (v.Next? ==> Result(Walk(c, v.scan, n - 1)) == w)
  {
    hide FramePass, Neat, Clear, Inspect, Expired;
    assert Plus(o, 0) == o;
    if Expired(c.newestTimestamp, c.tolerance, s.Current().rtpTimestamp) {
      var a := Release(c, s, false, o);
      StrandedRelease(c, s, o);
      if a.Next? {
        InspectClearedLooks(c, a.scan);
        FirstStep(c, a.scan, Inspect(c, a.scan), o, n);
      }
    }
  }

  lemma StrandedRelease(c: Params, s: Scan, o: Seq16)
    requires Neat(s.ring.slots) && s.Valid() && s == StartScan(s.ring, o, s.lastPop)
    ensures var a := Release(c, s, false, o); var s1 := a.scan;
      && s1.ring == Discard(s.ring, Index(o)) && Neat(s1.ring.slots) && s1.Current() == EMPTY
      && s1.oldest == 0 && s1.lastPop == 0 && s1.log == [Report(false, o, o, s.ring.slots, s.lastPop)]
      && s1.i == s1.first == o && s1.start.None? && s1.continuous
      && (if c.handler(s1.log) then a.Next? else a.Halt? && !a.ok)
  {
    hide Neat;
    assert Span(o, o) == 1;
    assert DiscardRun(Discard(s.ring, Index(o)), Plus(o, 1), 0) == Discard(s.ring, Index(o));
    DiscardedStamp(s.ring, Index(o));
    DiscardIsNeat(s.ring, Index(o));
  }

  /** An empty slot at timestamp zero is invalid for the codec. */
  lemma InspectClearedLooks(c: Params, s: Scan)
    requires Neat(s.ring.slots) && s.Current() == EMPTY && s.lastPop == 0 && RejectsEmpty(c.codec)
    ensures Looked(c, s, Inspect(c, s))
  {
    hide Expired, Neat;
    NeatIsFull(s.ring.slots);
    DiscardIsSame(s.ring, Index(s.i));
  }

  // ---------- Every pass, whatever the interval ----------

  /** The packet behind the dropped range is of another frame and expired. */
  ghost predicate DroppedForExpired(c: Params, r: Report) {
    && |r.slots| == CAPACITY
    && (!r.isReady ==>
          var next := r.slots[Index(Plus(r.last, 1))];
          Foreign(next, r.lastPop) && Expired(c.newestTimestamp, c.tolerance, next.rtpTimestamp))
  }

  /** The iteration adds no report, or one that is a ready frame or is dropped for the packet it stands at. */
  lemma VisitDropsExpired(c: Params, s: Scan) returns (report: Option<Report>)
    requires s.Valid()
    ensures Visit(c, s).scan.log == s.log + (if report.Some? then [report.value] else [])
    ensures Visit(c, s).Next? ==> Visit(c, s).scan.i == Plus(Visit(c, s).scan.prev, 1)
    ensures report.Some? ==> && report.value.slots == s.ring.slots && report.value.lastPop == s.lastPop
                             && report.value.last == s.prev
                             && (!report.value.isReady ==> report.value.first == s.first)
    ensures report.Some? && !report.value.isReady ==>
              Foreign(s.Current(), s.lastPop) && Expired(c.newestTimestamp, c.tolerance, s.Current().rtpTimestamp)
  {
    var p := s.Current();
    if Foreign(p, s.lastPop) && s.start.Some? && s.continuous {
      report := Some(Report(true, s.start.value, s.prev, s.ring.slots, s.lastPop));
    } else if Foreign(p, s.lastPop) && Expired(c.newestTimestamp, c.tolerance, p.rtpTimestamp) {
      report := Some(Report(false, s.first, s.prev, s.ring.slots, s.lastPop));
    } else {
      report := None;
    }
  }

  ghost predicate AllDroppedForExpired(c: Params, log: seq<Report>, from: nat) {
    forall k :: from <= k < |log| ==> DroppedForExpired(c, log[k])
  }

  lemma {:induction false} WalkDropsExpired(c: Params, s: Scan, n: nat, from: nat)
    requires s.Valid() && s.i == Plus(s.prev, 1) && AllDroppedForExpired(c, s.log, from)
    ensures AllDroppedForExpired(c, Walk(c, s, n).scan.log, from)
    decreases n
  {
    hide Visit, Expired, Foreign;
    if n > 0 {
      WalkUnfolds(c, s, n);
      var report := VisitDropsExpired(c, s);
      var log := Visit(c, s).scan.log;
      assert forall k :: 0 <= k < |s.log| ==> log[k] == s.log[k];
      if Visit(c, s).Next? {
        WalkDropsExpired(c, Visit(c, s).scan, n - 1, from);
      }
    }
  }

  /** Any pass over any buffer: a range is dropped only when the packet behind it belongs to another frame
      and is expired, so that no packet within the tolerance has a range dropped for it; a stranded oldest
      packet is dropped alone and only when it is expired itself. */
  lemma DropsAreExpired(b: Buffer, closing: bool, codec: Codec, handler: Handler)
    requires b.Valid()
    ensures var c := ParamsOf(b, closing, codec, handler); var log := ScanBuffer(b, closing, codec, handler).scan.log;
      if OldestIsStamped(b) then AllDroppedForExpired(c, log, 0)
      else && AllDroppedForExpired(c, log, 1)
           && (log != [] ==> OldestIsStranded(b) && !log[0].isReady && log[0].first == log[0].last == b.oldest)
  {
    hide Visit, Expired, Foreign, AllDroppedForExpired;
    var c, s := ParamsOf(b, closing, codec, handler), StartScan(b.ring, b.oldest, b.lastPop);
    var n := Span(b.oldest, b.newest);
    NothingDropped(c, [], 0);
    NothingDropped(c, [], 1);
    if n > 0 {
      var v := Visit(c, s);
      WalkUnfolds(c, s, n);
      FirstVisit(b, c);
      NothingDropped(c, v.scan.log, if OldestIsStamped(b) then 0 else 1);
      if v.Next? {
        WalkDropsExpired(c, v.scan, n - 1, if OldestIsStamped(b) then 0 else 1);
        WalkKeepsPrefix(c, v.scan, n - 1);
      }
    }
  }

  lemma FirstVisit(b: Buffer, c: Params)
    requires b.Valid() && c.newestTimestamp == b.newestTimestamp && c.tolerance == b.tolerance
    ensures var v := Visit(c, StartScan(b.ring, b.oldest, b.lastPop));
      && (v.Next? ==> v.scan.i == Plus(v.scan.prev, 1))
      && if OldestIsStranded(b) then v.scan.log == [Report(false, b.oldest, b.oldest, b.ring.slots, b.lastPop)]
         else v.scan.log == [] && (v.Next? ==> OldestIsStamped(b))
  {
    hide Expired;
    var s := StartScan(b.ring, b.oldest, b.lastPop);
    var report := VisitDropsExpired(c, s);
  }

  lemma NothingDropped(c: Params, log: seq<Report>, from: nat)
    requires |log| <= from
    ensures AllDroppedForExpired(c, log, from)
  {
  }

  /** Whatever the interval, and wherever the scan of a pass stands: at a packet of another frame that is not
      expired, with no complete frame gathered, the pass ends there. It succeeds, and neither the ring nor
      the cursors nor the reports change any more. */
  lemma PassWaitsAtFresh(c: Params, s: Scan, n: nat)
    requires s.Valid() && n > 0 && Foreign(s.Current(), s.lastPop)
    requires !Expired(c.newestTimestamp, c.tolerance, s.Current().rtpTimestamp) && !(s.start.Some? && s.continuous)
    ensures Walk(c, s, n) == Halt(s, true)
  {
    hide Expired;
    WalkUnfolds(c, s, n);
  }
}
