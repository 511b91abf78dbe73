/** The RTP jitter buffer as a function of its state.

The ring has 1000 slots, indexed by a 16-bit sequence number modulo 1000. A parse pass walks the
sequence numbers from the oldest to the newest, reports complete frames and expired ranges to the
callbacks and frees what it reported. The class JitterBuffer carries this out in place. */
module JitterModel {
  import opened Circular
  import opened Wrappers

  const CAPACITY := 1000

  /** A heap block: id tells it apart from every other block ever allocated. */
  datatype Payload = Payload(id: nat, data: seq<bv8>)

  datatype Slot = Slot(isPushed: bool, sequenceNumber: Seq16, rtpTimestamp: Time32, packet: Option<Payload>)

  const EMPTY := Slot(false, 0, 0, None)

  /** What the codec helper says of a packet. */
  datatype Property = Invalid | Valid(isStart: bool)

  type Codec = Slot -> Property

  ghost predicate RejectsEmpty(codec: Codec) {
    forall p: Slot :: p.packet.None? ==> codec(p).Invalid?
  }

  /** The slots and the record of freed heap blocks. */
  datatype Ring = Ring(slots: seq<Slot>, freed: multiset<nat>)

  function Index(s: Seq16): (k: nat)
    ensures k < CAPACITY
  {
    s % CAPACITY
  }

  // ---------- Discarding ----------

  function Discard(r: Ring, k: nat): Ring
    requires k < |r.slots|
  {
    if r.slots[k].packet.Some? then
      Ring(r.slots[k := EMPTY], r.freed + multiset{r.slots[k].packet.value.id})
    else
      r
  }

  /** Discards the slots of n consecutive sequence numbers from s on. */
  function DiscardRun(r: Ring, s: Seq16, n: nat): (r': Ring)
    requires |r.slots| == CAPACITY
    ensures |r'.slots| == CAPACITY
    decreases n
  {
    if n == 0 then r else DiscardRun(Discard(r, Index(s)), Plus(s, 1), n - 1)
  }

  lemma DiscardRunUnfolds(r: Ring, s: Seq16, n: nat)
    requires |r.slots| == CAPACITY && n > 0
    ensures DiscardRun(r, s, n) == DiscardRun(Discard(r, Index(s)), Plus(s, 1), n - 1)
  {
  }

  /** The number of sequence numbers a loop from first to last visits. */
  function Span(first: Seq16, last: Seq16): nat {
    Dist(first, Plus(last, 1))
  }

  // ---------- Expiry and acceptance ----------

  function Expired(newestTimestamp: Time32, tolerance: Time32, timestamp: Time32): bool {
    var earliest := (newestTimestamp - tolerance) % 0x1_0000_0000;
    || (newestTimestamp > earliest && timestamp < earliest)
    || (newestTimestamp < earliest && timestamp < earliest && timestamp > newestTimestamp)
  }

  function Accepts(newest: Seq16, s: Seq16): bool {
    var earliest := Plus(newest, -(CAPACITY / 2));
    var latest := Plus(newest, CAPACITY / 2);
    if latest >= earliest then
      !(s < earliest || s > latest)
    else
      !(s < earliest && s > latest)
  }

  // ---------- One parse pass ----------

  /** A callback: the reported range and what the callback can see of the buffer. */
  datatype Report = Report(isReady: bool, first: Seq16, last: Seq16, slots: seq<Slot>, lastPop: Time32)

  /** Answers a callback from the reports of the pass so far, the current one last. */
  type Handler = seq<Report> -> bool

  datatype Params = Params(closing: bool, newestTimestamp: Time32, tolerance: Time32, codec: Codec, handler: Handler)

  /** The loop variables of a pass, and the fields a pass changes. */
  datatype Scan = Scan(ring: Ring, oldest: Seq16, lastPop: Time32, i: Seq16, prev: Seq16, first: Seq16,
                       start: Option<Seq16>, continuous: bool, log: seq<Report>)
  {
    predicate Valid() {
      |ring.slots| == CAPACITY
    }

    function Current(): Slot
      requires Valid()
    {
      ring.slots[Index(i)]
    }
  }

  datatype Outcome = Next(scan: Scan) | Halt(scan: Scan, ok: bool)

  function Advance(s: Scan): Scan {
    s.(prev := s.i, i := Plus(s.i, 1))
  }

  /** The end of an iteration: a packet stamped with the current timestamp is shown to the codec. */
  function Inspect(c: Params, s: Scan): (o: Outcome)
    requires s.Valid()
    ensures o.scan.Valid()
  {
    if s.Current().rtpTimestamp != s.lastPop then
      Next(Advance(s))
    else
      match c.codec(s.Current())
      case Valid(isStart) =>
        Next(Advance(if s.start.None? && isStart then s.(start := Some(s.i)) else s))
      case Invalid =>
        var s' := s.(continuous := false, ring := Discard(s.ring, Index(s.i)));
        if !c.closing && !Expired(c.newestTimestamp, c.tolerance, s'.Current().rtpTimestamp) then
          Halt(s', true)
        else
          Next(Advance(s'))
  }

  /** What an iteration decides before it looks at the current packet is followed by that look. */
  function ThenInspect(c: Params, before: Outcome): (o: Outcome)
    requires before.scan.Valid()
    ensures o.scan.Valid()
  {
    if before.Halt? then before else Inspect(c, before.scan)
  }

  /** Reports first..prev, discards it, and moves the cursors to the current packet. */
  function Release(c: Params, s: Scan, isReady: bool, first: Seq16): (o: Outcome)
    requires s.Valid()
    ensures o.scan.Valid()
  {
    var log := s.log + [Report(isReady, first, s.prev, s.ring.slots, s.lastPop)];
    var ring := DiscardRun(s.ring, first, Span(first, s.prev));
    var packet := ring.slots[Index(s.i)];
    var s' := s.(ring := ring, oldest := packet.sequenceNumber, lastPop := packet.rtpTimestamp,
                 start := None, first := s.i, log := log);
    if c.handler(log) then Next(s') else Halt(s', false)
  }

  function Flush(c: Params, s: Scan, isReady: bool, first: Seq16): (o: Outcome)
    requires s.Valid()
    ensures o.scan.Valid()
  {
    ThenInspect(c, Release(c, s, isReady, first))
  }

  /** An iteration up to the point where the current packet may be shown to the codec. */
  function Approach(c: Params, s: Scan): (o: Outcome)
    requires s.Valid()
    ensures o.scan.Valid()
  {
    var p := s.Current();
    if !p.isPushed then
      var s' := s.(continuous := false);
      if !c.closing && !Expired(c.newestTimestamp, c.tolerance, p.rtpTimestamp) then Halt(s', true) else Next(s')
    else if p.rtpTimestamp != s.lastPop then
      if s.start.Some? && s.continuous then
        Release(c, s, true, s.start.value)
      else if Expired(c.newestTimestamp, c.tolerance, p.rtpTimestamp) then
        Release(c, s, false, s.first)
      else
        Halt(s, true)
    else
      Next(s)
  }

  /** One iteration of the scanning loop. */
  function Visit(c: Params, s: Scan): (o: Outcome)
    requires s.Valid()
    ensures o.scan.Valid()
  {
    ThenInspect(c, Approach(c, s))
  }

  /** The rest of the scanning loop, n iterations before its bound. */
  function Walk(c: Params, s: Scan, n: nat): (o: Outcome)
    requires s.Valid()
    ensures o.Halt? && o.scan.Valid()
    decreases n
  {
    if n == 0 then
      Halt(s, true)
    else
      match Visit(c, s)
      case Halt(s', ok) => Halt(s', ok)
      case Next(s') => Walk(c, s', n - 1)
  }

  lemma WalkUnfolds(c: Params, s: Scan, n: nat)
    requires s.Valid() && n > 0
    ensures Walk(c, s, n) == if Visit(c, s).Halt? then Visit(c, s) else Walk(c, Visit(c, s).scan, n - 1)
  {
  }

  lemma VisitMoves(c: Params, s: Scan)
    requires s.Valid()
    ensures Visit(c, s).Next? ==> Visit(c, s).scan.i == Plus(s.i, 1)
  {
  }

  function StartScan(ring: Ring, oldest: Seq16, lastPop: Time32): Scan {
    Scan(ring, oldest, lastPop, oldest, oldest, oldest, None, true, [])
  }

  // ---------- The sweep of a closing pass ----------

  /** The loop variables of the second loop of a closing pass. */
  datatype Sweep = Sweep(ring: Ring, i: Seq16, prev: Seq16, first: Seq16, log: seq<Report>)

  function DropRange(s: Sweep, lastPop: Time32): Sweep
    requires |s.ring.slots| == CAPACITY
  {
    s.(ring := DiscardRun(s.ring, s.first, Span(s.first, s.prev)),
       log := s.log + [Report(false, s.first, s.prev, s.ring.slots, lastPop)])
  }

  /** One iteration: a gap ends the range, and a callback error leaves the previous number as it was. */
  function SweepStep(handler: Handler, lastPop: Time32, s: Sweep): (s': Sweep)
    requires |s.ring.slots| == CAPACITY
    ensures |s'.ring.slots| == CAPACITY
  {
    if s.ring.slots[Index(s.i)].isPushed then
      s.(prev := s.i, i := Plus(s.i, 1))
    else
      var d := DropRange(s, lastPop).(first := s.i);
      if handler(d.log) then d.(prev := s.i, i := Plus(s.i, 1)) else d.(i := Plus(s.i, 1))
  }

  function SweepAll(handler: Handler, lastPop: Time32, s: Sweep, n: nat): (s': Sweep)
    requires |s.ring.slots| == CAPACITY
    ensures |s'.ring.slots| == CAPACITY
    decreases n
  {
    if n == 0 then DropRange(s, lastPop) else SweepAll(handler, lastPop, SweepStep(handler, lastPop, s), n - 1)
  }

  // ---------- The buffer ----------

  datatype Result = Ok | BadParameter | UnknownCodec | Outdated | NotFound | CallbackFailed

  datatype Buffer = Buffer(isInit: bool, isStart: bool, clockRate: Time32, tolerance: Time32,
                           lastPop: Time32, oldest: Seq16, newest: Seq16, newestTimestamp: Time32,
                           ring: Ring, nextId: nat)
  {
    predicate Valid() {
      |ring.slots| == CAPACITY
    }
  }

  function ParamsOf(b: Buffer, closing: bool, codec: Codec, handler: Handler): Params {
    Params(closing, b.newestTimestamp, b.tolerance, codec, handler)
  }

  /** The scanning loop of a pass over b. */
  function ScanBuffer(b: Buffer, closing: bool, codec: Codec, handler: Handler): (o: Outcome)
    requires b.Valid()
    ensures o.Halt? && o.scan.Valid()
  {
    Walk(ParamsOf(b, closing, codec, handler), StartScan(b.ring, b.oldest, b.lastPop), Span(b.oldest, b.newest))
  }

  datatype Parsed = Parsed(buffer: Buffer, result: Result, log: seq<Report>)

  function Answer(ok: bool): Result {
    if ok then Ok else CallbackFailed
  }

  function Parse(b: Buffer, closing: bool, codec: Codec, handler: Handler): (r: Parsed)
    requires b.Valid()
    ensures r.buffer.Valid()
  {
    var o := ScanBuffer(b, closing, codec, handler);
    var b' := b.(ring := o.scan.ring, oldest := o.scan.oldest, lastPop := o.scan.lastPop);
    if closing then
      var s := SweepAll(handler, b'.lastPop, Sweep(b'.ring, b'.oldest, b'.oldest, b'.oldest, o.scan.log),
                        Span(b'.oldest, b'.newest));
      Parsed(b'.(ring := s.ring), Answer(handler(s.log)), s.log)
    else
      Parsed(b', Answer(o.ok), o.scan.log)
  }

  function NewestAfter(newestTimestamp: Time32, clockRate: Time32, timestamp: Time32): Time32 {
    if timestamp > newestTimestamp then timestamp
    else if (newestTimestamp + clockRate / 10) % 0x1_0000_0000 <= timestamp then timestamp
    else newestTimestamp
  }

  function LastPopAfter(lastPop: Time32, clockRate: Time32, timestamp: Time32): Time32 {
    if timestamp < lastPop || 10 * lastPop > 10 * timestamp + clockRate then timestamp else lastPop
  }

  /** The cursors after a packet was added. The branch that compares with the oldest number less ten
      assigns the newest number, as the program does. */
  function AddPacket(b: Buffer, s: Seq16, timestamp: Time32): Buffer {
    var newest1 :=
      if s > b.newest then s
      else if Plus(b.newest, 10) <= s then s
      else b.newest;
    var oldest := if s < b.oldest then s else b.oldest;
    var newest :=
      if s < b.oldest then newest1
      else if Plus(b.oldest, -10) <= s then s
      else newest1;
    b.(newest := newest, oldest := oldest,
       newestTimestamp := NewestAfter(b.newestTimestamp, b.clockRate, timestamp),
       lastPop := LastPopAfter(b.lastPop, b.clockRate, timestamp))
  }

  /** AllocateBuffer: the slot of a sequence number gets a fresh payload of the given size. */
  function Allocate(b: Buffer, s: Seq16, size: nat): Buffer
    requires b.Valid()
  {
    if !b.isInit || size == 0 then
      b
    else
      var ring := Discard(b.ring, Index(s));
      var slot := ring.slots[Index(s)].(packet := Some(Payload(b.nextId, seq(size, _ => 0))));
      b.(ring := ring.(slots := ring.slots[Index(s) := slot]), nextId := b.nextId + 1)
  }

  function Fill(b: Buffer, s: Seq16, timestamp: Time32, data: seq<bv8>): Buffer
    requires b.Valid() && b.ring.slots[Index(s)].packet.Some?
  {
    var slot := b.ring.slots[Index(s)];
    b.(ring := b.ring.(slots := b.ring.slots[Index(s) :=
      slot.(sequenceNumber := s, rtpTimestamp := timestamp, packet := Some(slot.packet.value.(data := data)))]))
  }

  /** Push of the packet in slot k. */
  function Push(b: Buffer, k: nat, codec: Codec, handler: Handler): (r: Parsed)
    requires b.Valid() && k < CAPACITY
    ensures r.buffer.Valid()
  {
    if !b.isInit then
      Parsed(b.(ring := Discard(b.ring, k)), BadParameter, [])
    else
      var p := b.ring.slots[k];
      var b1 := if b.isStart then b
                else b.(isStart := true, newest := p.sequenceNumber, newestTimestamp := p.rtpTimestamp,
                        oldest := p.sequenceNumber);
      if !Accepts(b1.newest, p.sequenceNumber) then
        Parsed(b1.(ring := Discard(b1.ring, k)), Outdated, [])
      else
        var b2 := b1.(ring := b1.ring.(slots := b1.ring.slots[k := p.(isPushed := true)]));
        Parse(AddPacket(b2, p.sequenceNumber, p.rtpTimestamp), false, codec, handler)
  }

  /** What the session does with a received RTP packet: allocate, fill, push. */
  function Receive(b: Buffer, s: Seq16, timestamp: Time32, data: seq<bv8>, codec: Codec, handler: Handler): (r: Parsed)
    requires b.Valid()
    ensures r.buffer.Valid()
  {
    if !b.isInit || data == [] then
      Parsed(b, BadParameter, [])
    else
      Push(Fill(Allocate(b, s, |data|), s, timestamp, data), Index(s), codec, handler)
  }

  function GetPacket(b: Buffer, s: Seq16): (Result, Option<Slot>)
    requires b.Valid()
  {
    if !b.isInit then (BadParameter, None)
    else if b.ring.slots[Index(s)].sequenceNumber == s then (Ok, Some(b.ring.slots[Index(s)]))
    else (NotFound, None)
  }

  /** A closing pass, and then all thousand indices are discarded. */
  function Free(b: Buffer, codec: Codec, handler: Handler): (r: Parsed)
    requires b.Valid()
    ensures r.buffer.Valid()
  {
    if !b.isInit then
      Parsed(b, BadParameter, [])
    else
      var r := Parse(b.(isInit := false), true, codec, handler);
      r.(buffer := r.buffer.(ring := DiscardRun(r.buffer.ring, 0, CAPACITY)))
  }

  /** The codec bits of a new buffer: none, none that is supported, or a supported one. */
  datatype CodecBits = NoBits | OtherBits | KnownBits

  /** Create refuses to go without a codec. Otherwise it clears the structure and does not look at what
      the slots held. */
  function Create(b: Buffer, toleranceSec: Time32, clockRate: Time32, bits: CodecBits): (Buffer, Result) {
    if bits.NoBits? then
      (b, BadParameter)
    else
      (Buffer(bits.KnownBits?, false, clockRate, toleranceSec * clockRate % 0x1_0000_0000,
              0xFFFFFFFF, 0, 0xFFFF, 0xFFFFFFFF,
              Ring(seq(CAPACITY, _ => EMPTY), b.ring.freed), b.nextId),
       if bits.KnownBits? then Ok else UnknownCodec)
  }
}
