/** Which packets a jitter buffer accepts, which it calls expired, and where its cursors go. */
module JitterPolicy {
  import opened Circular
  import opened JitterModel

  /** The two branches of the acceptance test are one circular window around the newest number. */
  lemma AcceptsIff(newest: Seq16, s: Seq16)
    ensures Accepts(newest, s) <==> (s - newest + 500) % 0x10000 <= 1000
  {
  }

  /** A packet is expired only if it is older than the tolerance. When the tolerance reaches back
      past zero, exactly the older ones are; otherwise timestamps ahead of the newest one are not. */
  lemma ExpiredIff(newestTimestamp: Time32, tolerance: Time32, t: Time32)
    ensures Expired(newestTimestamp, tolerance, t) <==>
            && tolerance != 0
            && Age(newestTimestamp, t) > tolerance
            && (newestTimestamp < tolerance || t <= newestTimestamp)
  {
  }

  /** A packet just added lies between the oldest and the newest number. */
  lemma AddedLiesInInterval(b: Buffer, s: Seq16, t: Time32)
    ensures var b' := AddPacket(b, s, t); Dist(b'.oldest, s) <= Dist(b'.oldest, b'.newest)
  {
  }

  lemma SpanIff(o: Seq16, s: Seq16, n: Seq16)
    requires Dist(o, s) <= Dist(o, n)
    ensures Dist(o, s) < Span(o, n) <==> Plus(n, 1) != o
  {
    if Plus(n, 1) != o {
      assert Span(o, n) == Dist(o, n) + 1;
    }
  }

  lemma LooksEmptyIff(b: Buffer, s: Seq16, t: Time32)
    ensures var b' := AddPacket(b, s, t);
      Plus(b'.newest, 1) == b'.oldest <==>
      || (b.oldest == 0 && s == 0xFFFF)
      || (b.newest == 0xFFFF && s <= 8 && (b.oldest == 0 || s == 0))
  {
    hide NewestAfter, LastPopAfter;
  }

  /** The pass after a push visits the packet, except when it scans nothing at all: the interval
      0..65535 looks empty to the loop. The numbers before the push tell which case it is. */
  lemma AddedIsVisitedIff(b: Buffer, s: Seq16, t: Time32)
    ensures var b' := AddPacket(b, s, t);
      Dist(b'.oldest, s) < Span(b'.oldest, b'.newest) <==>
      !(|| (b.oldest == 0 && s == 0xFFFF)
        || (b.newest == 0xFFFF && s <= 8 && (b.oldest == 0 || s == 0)))
  {
    hide AddPacket, Plus, Dist;
    var b' := AddPacket(b, s, t);
    AddedLiesInInterval(b, s, t);
    SpanIff(b'.oldest, s, b'.newest);
    LooksEmptyIff(b, s, t);
  }

  /** Where a packet moves the cursors. The oldest number is the smallest one. The newest number moves to any
      packet that is not below the oldest number, back as well as forth, once that number is ten or more. */
  lemma AddedMovesCursorsIff(b: Buffer, s: Seq16, t: Time32)
    ensures AddPacket(b, s, t).oldest == if s < b.oldest then s else b.oldest
    ensures AddPacket(b, s, t).newest ==
            if || s > b.newest
               || (b.newest >= 0x10000 - 10 && s >= b.newest - (0x10000 - 10))
               || (s >= b.oldest && (b.oldest >= 10 || s >= b.oldest + (0x10000 - 10)))
            then s else b.newest
  {
    hide NewestAfter, LastPopAfter;
  }

  /** The second branch of the timestamp update never fires: the cursor is a running minimum. */
  lemma LastPopIsMinimum(b: Buffer, s: Seq16, t: Time32)
    ensures AddPacket(b, s, t).lastPop == if t < b.lastPop then t else b.lastPop
  {
  }

  /** The newest timestamp moves up; near the wrap, within a tenth of a second, it also moves back to
      any earlier timestamp that is not smaller than the wrapped threshold. */
  lemma NewestTimestampIff(b: Buffer, s: Seq16, t: Time32)
    ensures var threshold := b.newestTimestamp + b.clockRate / 10;
      AddPacket(b, s, t).newestTimestamp ==
        if t > b.newestTimestamp || t >= threshold - 0x1_0000_0000 >= 0 then t else b.newestTimestamp
  {
  }
}
