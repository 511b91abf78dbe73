/** The jitter buffer in place: 1000 packet slots in an array, cursors in fields, payloads on a heap. */
module JitterBuffers {
  import opened Circular
  import opened JitterModel
  import opened Wrappers

  /** The local variables of the scanning loop. */
  datatype Locals = Locals(i: Seq16, prev: Seq16, first: Seq16, start: Option<Seq16>, continuous: bool)

  class JitterBuffer {
    var isInit: bool
    var isStart: bool
    var clockRate: Time32
    var tolerance: Time32
    var lastPop: Time32
    var oldest: Seq16
    var newest: Seq16
    var newestTimestamp: Time32
    const rtpPackets: array<Slot>
    const codec: Codec

    // The heap: the next block to hand out, and how often each block was freed.
    var nextId: nat
    var freed: multiset<nat>

    ghost predicate Valid() {
      rtpPackets.Length == CAPACITY
    }

    ghost function RingNow(): (r: Ring)
      requires Valid()
      reads this`freed, rtpPackets
      ensures |r.slots| == CAPACITY
    {
      Ring(rtpPackets[..], freed)
    }

    ghost function State(): (b: Buffer)
      requires Valid()
      reads this, rtpPackets
      ensures b.Valid()
    {
      Buffer(isInit, isStart, clockRate, tolerance, lastPop, oldest, newest, newestTimestamp,
             RingNow(), nextId)
    }

    ghost function ScanOf(l: Locals, log: seq<Report>): (s: Scan)
      requires Valid()
      reads this, rtpPackets
      ensures s.Valid()
    {
      Scan(RingNow(), oldest, lastPop, l.i, l.prev, l.first, l.start, l.continuous, log)
    }

    ghost function PassParams(closing: bool, handler: Handler): Params
      reads this
    {
      Params(closing, newestTimestamp, tolerance, codec, handler)
    }

    /** The zeroed structure of a new session. */
    constructor (codec: Codec)
      ensures Valid() && fresh(rtpPackets) && this.codec == codec
      ensures !isInit && nextId == 0 && State().ring == Ring(seq(CAPACITY, _ => EMPTY), multiset{})
    {
      isInit, isStart := false, false;
      clockRate, tolerance, lastPop, newestTimestamp := 0, 0, 0, 0;
      oldest, newest := 0, 0;
      rtpPackets := new Slot[CAPACITY](_ => EMPTY);
      this.codec := codec;
      nextId, freed := 0, multiset{};
      new;
      assert rtpPackets[..] == seq(CAPACITY, _ => EMPTY);
    }

    method ClearSlots()
      requires Valid()
      modifies rtpPackets
      ensures rtpPackets[..] == seq(CAPACITY, _ => EMPTY)
    {
      var k := 0;
      while k < CAPACITY
        invariant 0 <= k <= CAPACITY
        invariant forall j :: 0 <= j < k ==> rtpPackets[j] == EMPTY
      {
        rtpPackets[k] := EMPTY;
        k := k + 1;
      }
    }

    method Create(toleranceSec: Time32, rate: Time32, bits: CodecBits) returns (result: Result)
      requires Valid()
      modifies this, rtpPackets
      ensures (State(), result) == JitterModel.Create(old(State()), toleranceSec, rate, bits)
    {
      if bits == NoBits {
        return BadParameter;
      }
      ClearSlots();
      isStart, clockRate := false, rate;
      lastPop, newestTimestamp := 0xFFFFFFFF, 0xFFFFFFFF;
      newest, oldest := 0xFFFF, 0;
      tolerance := toleranceSec * rate % 0x1_0000_0000;
      isInit := bits == KnownBits;
      result := if bits == KnownBits then Ok else UnknownCodec;
    }

    method DiscardPacket(k: nat)
      requires Valid() && k < CAPACITY
      modifies this`freed, rtpPackets
      ensures RingNow() == Discard(old(RingNow()), k)
    {
      if rtpPackets[k].packet.Some? {
        freed := freed + multiset{rtpPackets[k].packet.value.id};
        rtpPackets[k] := EMPTY;
      }
    }

    /** One iteration of the discarding loop, n iterations before its bound. */
    method DiscardNext(i: Seq16, ghost n: nat)
      requires Valid() && n > 0
      modifies this`freed, rtpPackets
      ensures DiscardRun(RingNow(), Plus(i, 1), n - 1) == DiscardRun(old(RingNow()), i, n)
    {
      DiscardRunUnfolds(RingNow(), i, n);
      DiscardPacket(Index(i));
    }

    /** Frees the slots of every number from start up to the bound. */
    method DiscardUpTo(startSeq: Seq16, bound: Seq16)
      requires Valid()
      modifies this`freed, rtpPackets
      ensures RingNow() == DiscardRun(old(RingNow()), startSeq, Dist(startSeq, bound))
    {
      hide Plus, Dist;
      DistSelf(bound);
      var i := startSeq;
      ghost var n: nat := Dist(i, bound);
      ghost var whole := DiscardRun(RingNow(), i, n);
      while i != bound
        invariant n == Dist(i, bound)
        invariant DiscardRun(RingNow(), i, n) == whole
        decreases n
      {
        DistStep(i, bound);
        DiscardNext(i, n);
        i, n := Plus(i, 1), n - 1;
      }
    }

    /** Frees the range; then, given the index of a next packet, reads the cursors from it. */
    method DiscardPackets(startSeq: Seq16, endSeq: Seq16, nextPacket: Option<nat>)
      requires Valid() && (nextPacket.Some? ==> nextPacket.value < CAPACITY)
      modifies this`freed, this`oldest, this`lastPop, rtpPackets
      ensures RingNow() == DiscardRun(old(RingNow()), startSeq, (endSeq + 1 - startSeq) % 0x10000)
      ensures nextPacket.None? ==> oldest == old(oldest) && lastPop == old(lastPop)
      ensures nextPacket.Some? ==> oldest == rtpPackets[nextPacket.value].sequenceNumber
                                   && lastPop == rtpPackets[nextPacket.value].rtpTimestamp
    {
      DistToNext(startSeq, endSeq);
      DiscardUpTo(startSeq, Plus(endSeq, 1));
      if nextPacket.Some? {
        oldest := rtpPackets[nextPacket.value].sequenceNumber;
        lastPop := rtpPackets[nextPacket.value].rtpTimestamp;
      }
    }

    method InspectPacket(closing: bool, handler: Handler, l: Locals, ghost log: seq<Report>)
      returns (l': Locals, stop: bool)
      requires Valid()
      modifies this`freed, rtpPackets
      ensures Inspect(PassParams(closing, handler), old(ScanOf(l, log))) ==
              if stop then Halt(ScanOf(l', log), true) else Next(ScanOf(l', log))
    {
      var k := Index(l.i);
      l', stop := l, false;
      if rtpPackets[k].rtpTimestamp == lastPop {
        match codec(rtpPackets[k])
        case Valid(isStart) =>
          if l'.start.None? && isStart {
            l' := l'.(start := Some(l.i));
          }
        case Invalid =>
          l' := l'.(continuous := false);
          DiscardPacket(k);
          if !closing && !Expired(newestTimestamp, tolerance, rtpPackets[k].rtpTimestamp) {
            stop := true;
            return;
          }
      }
      l' := l'.(prev := l.i, i := Plus(l.i, 1));
    }

    /** Calls the ready or the drop callback for first..prev and discards the range. */
    method FlushRange(closing: bool, handler: Handler, isReady: bool, first: Seq16, l: Locals, log: seq<Report>)
      returns (l': Locals, log': seq<Report>, stop: bool, ok: bool)
      requires Valid()
      modifies this`freed, this`oldest, this`lastPop, rtpPackets
      ensures Flush(PassParams(closing, handler), old(ScanOf(l, log)), isReady, first) ==
              if stop then Halt(ScanOf(l', log'), ok) else Next(ScanOf(l', log'))
      ensures !stop ==> ok
    {
      DistToNext(first, l.prev);
      log' := log + [Report(isReady, first, l.prev, rtpPackets[..], lastPop)];
      ok := handler(log');
      DiscardPackets(first, l.prev, Some(Index(l.i)));
      l' := l.(start := None, first := l.i);
      stop := !ok;
      if ok {
        l', stop := InspectPacket(closing, handler, l', log');
      }
    }

    /** One iteration of the scanning loop. */
    method VisitPacket(closing: bool, handler: Handler, l: Locals, log: seq<Report>)
      returns (l': Locals, log': seq<Report>, stop: bool, ok: bool)
      requires Valid()
      modifies this`freed, this`oldest, this`lastPop, rtpPackets
      ensures Visit(PassParams(closing, handler), old(ScanOf(l, log))) ==
              if stop then Halt(ScanOf(l', log'), ok) else Next(ScanOf(l', log'))
      ensures !stop ==> ok
    {
      var p := rtpPackets[Index(l.i)];
      l', log', stop, ok := l, log, false, true;
      if !p.isPushed {
        l' := l'.(continuous := false);
        if !closing && !Expired(newestTimestamp, tolerance, p.rtpTimestamp) {
          stop := true;
        } else {
          l', stop := InspectPacket(closing, handler, l', log');
        }
      } else if p.rtpTimestamp != lastPop {
        if l.start.Some? && l.continuous {
          l', log', stop, ok := FlushRange(closing, handler, true, l.start.value, l, log);
        } else if Expired(newestTimestamp, tolerance, p.rtpTimestamp) {
          l', log', stop, ok := FlushRange(closing, handler, false, l.first, l, log);
        } else {
          stop := true;
        }
      } else {
        l', stop := InspectPacket(closing, handler, l', log');
      }
    }

    /** One iteration, n iterations before the bound of the loop. */
    method Iterate(closing: bool, handler: Handler, l: Locals, log: seq<Report>, ghost n: nat)
      returns (l': Locals, log': seq<Report>, stop: bool, ok: bool)
      requires Valid() && n > 0
      modifies this`freed, this`oldest, this`lastPop, rtpPackets
      ensures Walk(PassParams(closing, handler), old(ScanOf(l, log)), n) ==
              if stop then Halt(ScanOf(l', log'), ok) else Walk(PassParams(closing, handler), ScanOf(l', log'), n - 1)
      ensures !stop ==> ok && l'.i == Plus(l.i, 1)
    {
      VisitMoves(PassParams(closing, handler), ScanOf(l, log));
      WalkUnfolds(PassParams(closing, handler), ScanOf(l, log), n);
      l', log', stop, ok := VisitPacket(closing, handler, l, log);
    }

    /** The scanning loop, up to the bound. */
    method ScanUpTo(closing: bool, handler: Handler, bound: Seq16, start: Locals)
      returns (ok: bool, l: Locals, log: seq<Report>)
      requires Valid()
      modifies this`freed, this`oldest, this`lastPop, rtpPackets
      ensures Walk(PassParams(closing, handler), old(ScanOf(start, [])), Dist(start.i, bound)) ==
              Halt(ScanOf(l, log), ok)
    {
      hide Plus, Dist;
      DistSelf(bound);
      l, log, ok := start, [], true;
      var stop := false;
      ghost var n: nat := Dist(l.i, bound);
      ghost var whole := Walk(PassParams(closing, handler), ScanOf(l, log), n);
      while !stop && l.i != bound
        invariant !stop ==> ok && n == Dist(l.i, bound)
        invariant whole == if stop then Halt(ScanOf(l, log), ok)
                           else Walk(PassParams(closing, handler), ScanOf(l, log), n)
        decreases !stop, n
      {
        DistStep(l.i, bound);
        l, log, stop, ok := Iterate(closing, handler, l, log, n);
        n := n - 1;
      }
    }

    /** The scanning loop of a pass. */
    method ScanFrames(closing: bool, handler: Handler) returns (ok: bool, log: seq<Report>)
      requires Valid()
      modifies this`freed, this`oldest, this`lastPop, rtpPackets
      ensures var o := ScanBuffer(old(State()), closing, codec, handler);
        && log == o.scan.log && ok == o.ok
        && RingNow() == o.scan.ring && oldest == o.scan.oldest && lastPop == o.scan.lastPop
    {
      var l: Locals;
      ok, l, log := ScanUpTo(closing, handler, Plus(newest, 1), Locals(oldest, oldest, oldest, None, true));
    }

    ghost function SweepOf(i: Seq16, prev: Seq16, first: Seq16, log: seq<Report>): (s: Sweep)
      requires Valid()
      reads this`freed, rtpPackets
      ensures |s.ring.slots| == CAPACITY
    {
      Sweep(RingNow(), i, prev, first, log)
    }

    /** Calls the drop callback for first..prev and discards the range; the cursors stay. */
    method DropFrames(handler: Handler, ghost i: Seq16, prev: Seq16, first: Seq16, log: seq<Report>)
      returns (ok: bool, log': seq<Report>)
      requires Valid()
      modifies this`freed, this`oldest, this`lastPop, rtpPackets
      ensures oldest == old(oldest) && lastPop == old(lastPop)
      ensures SweepOf(i, prev, first, log') == DropRange(old(SweepOf(i, prev, first, log)), lastPop)
      ensures ok == handler(log')
    {
      DistToNext(first, prev);
      log' := log + [Report(false, first, prev, rtpPackets[..], lastPop)];
      ok := handler(log');
      DiscardPackets(first, prev, None);
    }

    /** One iteration of the sweep of a closing pass. */
    method SweepPacket(handler: Handler, i: Seq16, prev: Seq16, first: Seq16, log: seq<Report>)
      returns (prev': Seq16, first': Seq16, log': seq<Report>)
      requires Valid()
      modifies this`freed, this`oldest, this`lastPop, rtpPackets
      ensures oldest == old(oldest) && lastPop == old(lastPop)
      ensures SweepOf(Plus(i, 1), prev', first', log') == SweepStep(handler, lastPop, old(SweepOf(i, prev, first, log)))
    {
      prev', first', log' := prev, first, log;
      if !rtpPackets[Index(i)].isPushed {
        var ok;
        ok, log' := DropFrames(handler, i, prev, first, log);
        first' := i;
        if !ok {
          return;
        }
      }
      prev' := i;
    }

    /** The sweep from the cursor up to the bound, and the drop of the last range. */
    method SweepUpTo(handler: Handler, bound: Seq16, startLog: seq<Report>) returns (ok: bool, log: seq<Report>)
      requires Valid()
      modifies this`freed, this`oldest, this`lastPop, rtpPackets
      ensures oldest == old(oldest) && lastPop == old(lastPop)
      ensures var s := SweepAll(handler, lastPop, old(SweepOf(oldest, oldest, oldest, startLog)), Dist(oldest, bound));
        RingNow() == s.ring && log == s.log && ok == handler(s.log)
    {
      hide Plus, Dist, SweepStep, DropRange;
      DistSelf(bound);
      var first, prev, i := oldest, oldest, oldest;
      log := startLog;
      ghost var n: nat := Dist(i, bound);
      ghost var whole := SweepAll(handler, lastPop, SweepOf(i, prev, first, log), n);
      while i != bound
        invariant n == Dist(i, bound)
        invariant oldest == old(oldest) && lastPop == old(lastPop)
        invariant whole == SweepAll(handler, lastPop, SweepOf(i, prev, first, log), n)
        decreases n
      {
        DistStep(i, bound);
        prev, first, log := SweepPacket(handler, i, prev, first, log);
        i, n := Plus(i, 1), n - 1;
      }
      ok, log := DropFrames(handler, i, prev, first, log);
    }

    method ParseFrames(closing: bool, handler: Handler) returns (result: Result, log: seq<Report>)
      requires Valid()
      modifies this`freed, this`oldest, this`lastPop, rtpPackets
      ensures Parsed(State(), result, log) == Parse(old(State()), closing, codec, handler)
    {
      var ok;
      ok, log := ScanFrames(closing, handler);
      if closing {
        ok, log := SweepUpTo(handler, Plus(newest, 1), log);
      }
      result := Answer(ok);
    }

    method ShouldAccept(k: nat) returns (accepted: bool)
      requires Valid() && k < CAPACITY
      ensures accepted == Accepts(newest, rtpPackets[k].sequenceNumber)
    {
      hide Plus;
      var s := rtpPackets[k].sequenceNumber;
      var earliest := Plus(newest, -(CAPACITY / 2));
      var latest := Plus(newest, CAPACITY / 2);
      accepted := true;
      if latest >= earliest {
        if s < earliest || s > latest {
          accepted := false;
        }
      } else if s < earliest && s > latest {
        accepted := false;
      }
    }

    method AddTimestamp(timestamp: Time32)
      modifies this`newestTimestamp, this`lastPop
      ensures newestTimestamp == NewestAfter(old(newestTimestamp), clockRate, timestamp)
      ensures lastPop == LastPopAfter(old(lastPop), clockRate, timestamp)
    {
      if timestamp > newestTimestamp {
        newestTimestamp := timestamp;
      } else if (newestTimestamp + clockRate / 10) % 0x1_0000_0000 <= timestamp {
        newestTimestamp := timestamp;
      }
      if timestamp < lastPop || 10 * lastPop > 10 * timestamp + clockRate {
        lastPop := timestamp;
      }
    }

    /** UpdateJitterBufferAddPacket. */
    method AddPacket(s: Seq16, timestamp: Time32)
      requires Valid()
      modifies this`newest, this`oldest, this`newestTimestamp, this`lastPop
      ensures State() == JitterModel.AddPacket(old(State()), s, timestamp)
    {
      hide Plus, NewestAfter, LastPopAfter;
      if s > newest {
        newest := s;
      } else if Plus(newest, 10) <= s {
        newest := s;
      }
      if s < oldest {
        oldest := s;
      } else if Plus(oldest, -10) <= s {
        newest := s;
      }
      AddTimestamp(timestamp);
    }

    method AllocateBuffer(s: Seq16, size: nat) returns (result: Result)
      requires Valid()
      modifies this`freed, this`nextId, rtpPackets
      ensures State() == Allocate(old(State()), s, size)
      ensures result == if isInit && size > 0 then Ok else BadParameter
    {
      if !isInit || size == 0 {
        return BadParameter;
      }
      var k := Index(s);
      if rtpPackets[k].packet.Some? {
        DiscardPacket(k);
      }
      rtpPackets[k] := rtpPackets[k].(packet := Some(Payload(nextId, seq(size, _ => 0))));
      nextId := nextId + 1;
      result := Ok;
    }

    /** Push of the packet in slot k. */
    method Push(k: nat, handler: Handler) returns (result: Result, log: seq<Report>)
      requires Valid() && k < CAPACITY
      modifies this, rtpPackets
      ensures Parsed(State(), result, log) == JitterModel.Push(old(State()), k, codec, handler)
    {
      hide JitterModel.AddPacket, Parse, Accepts, Discard, Plus;
      log, result := [], Ok;
      if !isInit {
        result := BadParameter;
      } else {
        if !isStart {
          isStart := true;
          newest, newestTimestamp := rtpPackets[k].sequenceNumber, rtpPackets[k].rtpTimestamp;
          oldest := rtpPackets[k].sequenceNumber;
        }
        var accepted := ShouldAccept(k);
        if !accepted {
          result := Outdated;
        }
      }
      if result == Ok {
        rtpPackets[k] := rtpPackets[k].(isPushed := true);
        AddPacket(rtpPackets[k].sequenceNumber, rtpPackets[k].rtpTimestamp);
        result, log := ParseFrames(false, handler);
      } else {
        DiscardPacket(k);
      }
    }

    /** What HandleSrtpPacket does with a decrypted RTP packet: allocate, fill, push. */
    method Receive(s: Seq16, timestamp: Time32, data: seq<bv8>, handler: Handler)
      returns (result: Result, log: seq<Report>)
      requires Valid()
      modifies this, rtpPackets
      ensures Parsed(State(), result, log) == JitterModel.Receive(old(State()), s, timestamp, data, codec, handler)
    {
      log := [];
      result := AllocateBuffer(s, |data|);
      if result == Ok {
        var k := Index(s);
        var payload := rtpPackets[k].packet.value.(data := data);
        rtpPackets[k] := rtpPackets[k].(sequenceNumber := s, rtpTimestamp := timestamp, packet := Some(payload));
        result, log := Push(k, handler);
      }
    }

    method GetPacket(s: Seq16) returns (result: Result, packet: Option<Slot>)
      requires Valid()
      ensures (result, packet) == JitterModel.GetPacket(State(), s)
    {
      packet := None;
      if !isInit {
        result := BadParameter;
      } else if rtpPackets[Index(s)].sequenceNumber == s {
        result, packet := Ok, Some(rtpPackets[Index(s)]);
      } else {
        result := NotFound;
      }
    }

    method Free(handler: Handler) returns (result: Result, log: seq<Report>)
      requires Valid()
      modifies this, rtpPackets
      ensures Parsed(State(), result, log) == JitterModel.Free(old(State()), codec, handler)
    {
      hide Parse, DiscardRun;
      if isInit {
        isInit := false;
        result, log := ParseFrames(true, handler);
        DiscardPackets(0, CAPACITY - 1, None);
      } else {
        result, log := BadParameter, [];
      }
    }
  }
}
