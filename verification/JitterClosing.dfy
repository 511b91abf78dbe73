/** The sweep of a closing pass reports everything that is left. */
module JitterClosing {
  import opened Circular
  import opened JitterModel
  import opened JitterRing
  import opened JitterOwnership
  import opened JitterDelivery

  /** Some report from the given one on is a drop that carries the payload. */
  ghost predicate Dropped(log: seq<Report>, from: nat, id: nat) {
    exists j :: from <= j < |log| && !log[j].isReady && Carries(log[j], id)
  }

  /** Slots were only cleared, and whatever was cleared had been reported. */
  ghost predicate ClearedAreDropped(before: seq<Slot>, s: Sweep, from: nat) {
    && |before| == |s.ring.slots| == CAPACITY
    && forall k :: 0 <= k < CAPACITY && s.ring.slots[k] != before[k] ==>
         s.ring.slots[k] == EMPTY && before[k].packet.Some? && Dropped(s.log, from, before[k].packet.value.id)
  }

  /** The sweep after d numbers from o, f of them in front of the current range. What lies in front is
      gone. The range ends at the previous number, unless it is just the gap it began with. */
  ghost predicate Swept(s: Sweep, o: Seq16, d: nat, f: nat) {
    && Tidy(s.ring.slots) && f <= d < 0x10000
    && s.i == Plus(o, d) && s.first == Plus(o, f)
    && (forall j {:trigger Plus(o, j)} :: 0 <= j < f ==> !s.ring.slots[Index(Plus(o, j))].isPushed)
    && (|| s.prev == Plus(o, d - 1)
        || d == 0
        || (d == f + 1 && !s.ring.slots[Index(Plus(o, f))].isPushed))
  }

  lemma DropRangeClears(s: Sweep, lastPop: Time32, before: seq<Slot>, from: nat)
    requires ClearedAreDropped(before, s, from) && from <= |s.log|
    ensures ClearedAreDropped(before, DropRange(s, lastPop), from)
  {
    var n, s' := Span(s.first, s.prev), DropRange(s, lastPop);
    var report := Report(false, s.first, s.prev, s.ring.slots, lastPop);
    DiscardRunEffect(s.ring, s.first, n);
    forall k | 0 <= k < CAPACITY && s'.ring.slots[k] != before[k]
      ensures s'.ring.slots[k] == EMPTY && before[k].packet.Some? && Dropped(s'.log, from, before[k].packet.value.id)
    {
      if s.ring.slots[k] == before[k] {
        var j :| 0 <= j < n && Index(Plus(s.first, j)) == k;
        assert CarriesAt(report, j, before[k].packet.value.id);
        assert s'.log[|s.log|] == report;
      } else {
        StillDropped(s.log, report, from, before[k].packet.value.id);
      }
    }
  }

  lemma StillDropped(log: seq<Report>, r: Report, from: nat, id: nat)
    requires Dropped(log, from, id)
    ensures Dropped(log + [r], from, id)
  {
    var j :| from <= j < |log| && !log[j].isReady && Carries(log[j], id);
    assert (log + [r])[j] == log[j];
  }

  /** After the range was dropped nothing pushed is left among the numbers visited. */
  lemma DropRangeEmpties(s: Sweep, lastPop: Time32, o: Seq16, d: nat, f: nat)
    requires Swept(s, o, d, f)
    ensures var r := DropRange(s, lastPop).ring;
      && Tidy(r.slots)
      && (forall j {:trigger Plus(o, j)} :: 0 <= j < d ==> !r.slots[Index(Plus(o, j))].isPushed)
      && (forall k :: 0 <= k < CAPACITY && !s.ring.slots[k].isPushed ==> !r.slots[k].isPushed)
  {
    var n, r := Span(s.first, s.prev), DropRange(s, lastPop).ring;
    DiscardRunEffect(s.ring, s.first, n);
    forall j {:trigger Plus(o, j)} | 0 <= j < d ensures !r.slots[Index(Plus(o, j))].isPushed {
      if f <= j && s.prev == Plus(o, d - 1) {
        PlusPlus(o, f, j - f);
        PlusPlus(o, d - 1, 1);
        PlusPlus(o, f, d - f);
        DistPlus(s.first, d - f);
        assert n == d - f;
        assert Covers(s.first, n, Index(Plus(o, j)));
      }
    }
  }

  lemma StepSweeps(handler: Handler, lastPop: Time32, s: Sweep, o: Seq16, d: nat, f: nat) returns (f': nat)
    requires Swept(s, o, d, f) && d < 0xFFFF
    ensures Swept(SweepStep(handler, lastPop, s), o, d + 1, f')
  {
    PlusPlus(o, d, 1);
    if s.ring.slots[Index(s.i)].isPushed {
      f' := f;
    } else {
      DropRangeEmpties(s, lastPop, o, d, f);
      f' := d;
    }
  }

  lemma StepClears(handler: Handler, lastPop: Time32, s: Sweep, before: seq<Slot>, from: nat)
    requires ClearedAreDropped(before, s, from) && from <= |s.log|
    ensures var s' := SweepStep(handler, lastPop, s);
      ClearedAreDropped(before, s', from) && from <= |s'.log|
  {
    DropRangeClears(s, lastPop, before, from);
  }

  lemma {:induction false} SweepRest(handler: Handler, lastPop: Time32, s: Sweep, n: nat, o: Seq16, d: nat, f: nat,
                                     before: seq<Slot>, from: nat)
    requires |s.ring.slots| == CAPACITY && Swept(s, o, d, f) && d + n <= 0xFFFF
    requires ClearedAreDropped(before, s, from) && from <= |s.log|
    ensures var r := SweepAll(handler, lastPop, s, n);
      && ClearedAreDropped(before, r, from)
      && forall j {:trigger Plus(o, j)} :: 0 <= j < d + n ==> !r.ring.slots[Index(Plus(o, j))].isPushed
    decreases n
  {
    hide Swept, ClearedAreDropped, DropRange, SweepStep;
    if n == 0 {
      DropRangeEmpties(s, lastPop, o, d, f);
      DropRangeClears(s, lastPop, before, from);
    } else {
      var f' := StepSweeps(handler, lastPop, s, o, d, f);
      StepClears(handler, lastPop, s, before, from);
      SweepRest(handler, lastPop, SweepStep(handler, lastPop, s), n - 1, o, d + 1, f', before, from);
    }
  }

  lemma SweepReportsTheRest(handler: Handler, lastPop: Time32, ring: Ring, o: Seq16, n: nat, log: seq<Report>, k: nat)
    requires Tidy(ring.slots) && n <= 0xFFFF && Covers(o, n, k) && k < CAPACITY && ring.slots[k].isPushed
    ensures var r := SweepAll(handler, lastPop, Sweep(ring, o, o, o, log), n);
      r.ring.slots[k] == EMPTY && Dropped(r.log, |log|, ring.slots[k].packet.value.id)
  {
    hide SweepAll, Dropped;
    var s := Sweep(ring, o, o, o, log);
    assert Plus(o, 0) == o;
    SweepRest(handler, lastPop, s, n, o, 0, 0, ring.slots, |log|);
    var j :| 0 <= j < n && Index(Plus(o, j)) == k;
    assert !SweepAll(handler, lastPop, s, n).ring.slots[Index(Plus(o, j))].isPushed;
  }

  /** Every packet that the scan of a closing pass left between the cursor and the newest number is
      reported to the drop callback before its slot is cleared, even if the callback fails. */
  lemma ClosingReportsTheRest(b: Buffer, codec: Codec, handler: Handler, k: nat)
    requires Good(b.ring, b.nextId) && k < CAPACITY
    ensures var o := ScanBuffer(b, true, codec, handler).scan;
      var r := Parse(b, true, codec, handler);
      Covers(o.oldest, Span(o.oldest, b.newest), k) && o.ring.slots[k].isPushed ==>
        o.ring.slots[k].packet.Some? && r.buffer.ring.slots[k] == EMPTY
        && Dropped(r.log, |o.log|, o.ring.slots[k].packet.value.id)
  {
    hide Owns, Dropped, SweepAll, Walk, Settled, Covers, Plus;
    var o := ScanBuffer(b, true, codec, handler).scan;
    WalkGood(ParamsOf(b, true, codec, handler), StartScan(b.ring, b.oldest, b.lastPop), Span(b.oldest, b.newest),
             b.nextId);
    if Covers(o.oldest, Span(o.oldest, b.newest), k) && o.ring.slots[k].isPushed {
      SweepReportsTheRest(handler, o.lastPop, o.ring, o.oldest, Span(o.oldest, b.newest), o.log, k);
    }
  }

  /** Freeing the buffer reports it all: what the scan of its closing pass leaves goes to the drop callback
      before the slots are cleared. */
  lemma FreeReportsTheRest(b: Buffer, codec: Codec, handler: Handler, k: nat)
    requires Good(b.ring, b.nextId) && b.isInit && k < CAPACITY
    ensures var o := ScanBuffer(b, true, codec, handler).scan; var r := Free(b, codec, handler);
      && !r.buffer.isInit && o.log <= r.log
      && (Covers(o.oldest, Span(o.oldest, b.newest), k) && o.ring.slots[k].isPushed ==>
            o.ring.slots[k].packet.Some? && Dropped(r.log, |o.log|, o.ring.slots[k].packet.value.id))
  {
    hide Good, Dropped, SweepAll, Walk, Covers, Plus;
    GoodIsFull(b.ring, b.nextId);
    var o := ScanBuffer(b, true, codec, handler).scan;
    assert ScanBuffer(b.(isInit := false), true, codec, handler).scan == o;
    ClosingReportsTheRest(b.(isInit := false), codec, handler, k);
    SweepKeepsPrefix(handler, o.lastPop, Sweep(o.ring, o.oldest, o.oldest, o.oldest, o.log), Span(o.oldest, b.newest));
  }

  lemma {:induction false} SweepKeepsPrefix(handler: Handler, lastPop: Time32, s: Sweep, n: nat)
    requires |s.ring.slots| == CAPACITY
    ensures s.log <= SweepAll(handler, lastPop, s, n).log
    decreases n
  {
    if n > 0 {
      SweepKeepsPrefix(handler, lastPop, SweepStep(handler, lastPop, s), n - 1);
    }
  }

  // ---------- The sweep told gap by gap ----------

  /** How many pushed packets come next, n at most. */
  function RunLength(slots: seq<Slot>, i: Seq16, n: nat): (g: nat)
    requires |slots| == CAPACITY
    ensures g <= n
    decreases n
  {
    if n == 0 || !slots[Index(i)].isPushed then 0 else 1 + RunLength(slots, Plus(i, 1), n - 1)
  }

  /** The sweep from number i on, n numbers before its end, in ranges: each range begins at a gap (the first
      at the cursor) and ends before the next gap. When the callback refuses a range, the end of the next
      one is counted from the end of the refused one, unless a packet comes in between. */
  function SweepRanges(handler: Handler, lastPop: Time32, ring: Ring, log: seq<Report>,
                       first: Seq16, last: Seq16, i: Seq16, n: nat): (Ring, seq<Report>)
    requires |ring.slots| == CAPACITY
    decreases n
  {
    var g := RunLength(ring.slots, i, n);
    var end := if g > 0 then Plus(i, g - 1) else last;
    var ring' := DiscardRun(ring, first, Span(first, end));
    var log' := log + [Report(false, first, end, ring.slots, lastPop)];
    var gap := Plus(i, g);
    if g == n then (ring', log')
    else SweepRanges(handler, lastPop, ring', log', gap, if handler(log') then gap else end, Plus(gap, 1), n - g - 1)
  }

  /** The loop of the sweep is that. */
  lemma {:induction false} SweepIsByRanges(handler: Handler, lastPop: Time32, s: Sweep, n: nat)
    requires |s.ring.slots| == CAPACITY
    ensures var r := SweepAll(handler, lastPop, s, n);
      (r.ring, r.log) == SweepRanges(handler, lastPop, s.ring, s.log, s.first, s.prev, s.i, n)
    decreases n
  {
    hide DiscardRun, Span, Index;
    if n > 0 {
      var s' := SweepStep(handler, lastPop, s);
      SweepIsByRanges(handler, lastPop, s', n - 1);
      if s.ring.slots[Index(s.i)].isPushed {
        RangeGoesOn(handler, lastPop, s, n);
      } else {
        PlusPlus(s.i, 0, 0);
        assert Plus(s.i, 0) == s.i;
      }
    }
  }

  lemma RangeGoesOn(handler: Handler, lastPop: Time32, s: Sweep, n: nat)
    requires |s.ring.slots| == CAPACITY && n > 0 && s.ring.slots[Index(s.i)].isPushed
    ensures SweepRanges(handler, lastPop, s.ring, s.log, s.first, s.i, Plus(s.i, 1), n - 1) ==
            SweepRanges(handler, lastPop, s.ring, s.log, s.first, s.prev, s.i, n)
  {
    hide DiscardRun, Span, Index;
    var g := RunLength(s.ring.slots, Plus(s.i, 1), n - 1);
    PlusPlus(s.i, 1, g);
    if g > 0 {
      PlusPlus(s.i, 1, g - 1);
    }
    assert Plus(s.i, 0) == s.i;
    assert RunLength(s.ring.slots, s.i, n) == g + 1;
  }
}
