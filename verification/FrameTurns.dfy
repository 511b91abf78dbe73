/** The producer of a frame queue next to the sending task. It tests whether the queue is full, receives
the oldest frame if it was, and sends; the sending task runs in between. The receive waits for a frame
without a limit. There is one producer for each queue. */
module FrameTurns {
  import opened FrameQueues

  /** Where the producer stands, with the frame it offers. */
  datatype Place = Resting | Dropping(frame: Frame) | Sending(frame: Frame)

  /** entered: the frames put into the queue so far; begun: those the producer was called with; refused:
      those the queue did not take. */
  datatype System = System(queue: Queue, place: Place, begun: seq<Frame>, entered: seq<Frame>, refused: seq<Frame>)

  const NEW := System(EMPTY, Resting, [], [], [])

  /** A call of the producer, a step of it, or a turn of the sending task. */
  datatype Turn = Call(frame: Frame) | GoOn | Take

  function DropOldest(q: Queue): Queue
    requires q.queued != []
  {
    q.(queued := q.queued[1..], dropped := q.dropped + [q.queued[0]], freed := Freed(q.freed, q.queued[0]))
  }

  function Apply(s: System, t: Turn): System {
    match t
    case Take => s.(queue := Send(s.queue))
    case Call(f) =>
      if s.place != Resting then s
      else s.(place := if |s.queue.queued| >= CAPACITY then Dropping(f) else Sending(f), begun := s.begun + [f])
    case GoOn =>
      match s.place
      case Resting => s
      case Dropping(f) => if s.queue.queued == [] then s else s.(queue := DropOldest(s.queue), place := Sending(f))
      case Sending(f) =>
        if |s.queue.queued| >= CAPACITY then s.(place := Resting, refused := s.refused + [f])
        else s.(place := Resting, queue := s.queue.(queued := s.queue.queued + [f]), entered := s.entered + [f])
  }

  function RunTurns(s: System, turns: seq<Turn>): System
    decreases |turns|
  {
    if turns == [] then s else RunTurns(Apply(s, turns[0]), turns[1..])
  }

  lemma {:induction false} RunAppend(s: System, a: seq<Turn>, b: seq<Turn>)
    ensures RunTurns(s, a + b) == RunTurns(RunTurns(s, a), b)
    decreases |a|
  {
    hide Apply;
    if a == [] {
      assert a + b == b;
    } else {
      assert (a + b)[1..] == a[1..] + b;
      RunAppend(Apply(s, a[0]), a[1..], b);
    }
  }

  // ---------- What became of the frames ----------

  function InHand(p: Place): seq<Frame> {
    if p.Resting? then [] else [p.frame]
  }

  /** The frames that entered are accounted for, no frame was refused, and only the one in hand has not
      entered yet. */
  ghost predicate InOrder(s: System, mask: seq<bool>) {
    && Accounted(s.queue, s.entered, mask)
    && s.begun == s.entered + InHand(s.place) && s.refused == []
    && (s.place.Sending? ==> |s.queue.queued| < CAPACITY)
  }

  lemma EnterKeeps(q: Queue, entered: seq<Frame>, mask: seq<bool>, f: Frame)
    requires Accounted(q, entered, mask) && |q.queued| < CAPACITY
    ensures Accounted(q.(queued := q.queued + [f]), entered + [f], mask)
  {
    hide Accounted;
    AccountedSize(q, entered, mask);
    OfferKeeps(q, entered, mask, f);
  }

  lemma AccountedSize(q: Queue, entered: seq<Frame>, mask: seq<bool>)
    requires Accounted(q, entered, mask)
    ensures |q.queued| <= CAPACITY
  {
  }

  lemma TurnKeeps(s: System, t: Turn, mask: seq<bool>) returns (mask': seq<bool>)
    requires InOrder(s, mask)
    ensures InOrder(Apply(s, t), mask') && mask <= mask'
  {
    hide Accounted;
    AccountedSize(s.queue, s.entered, mask);
    mask' := mask;
    if t.Take? {
      SendKeeps(s.queue, s.entered, mask);
      mask' := if s.queue.queued == [] then mask else mask + [true];
    } else if t.GoOn? && s.place.Dropping? && s.queue.queued != [] {
      LeaveKeeps(s.queue, s.entered, mask, false);
      mask' := mask + [false];
    } else if t.GoOn? && s.place.Sending? {
      EnterKeeps(s.queue, s.entered, mask, s.place.frame);
    }
  }

  /** Over every interleaving of the producer and the sending task: the frames that entered are, in order,
      the delivered and dropped ones followed by the at most ten queued ones; each block is freed once
      when its frame has left; the queue never refuses a frame. */
  lemma {:induction false} TurnsAreAccounted(s: System, turns: seq<Turn>, mask: seq<bool>) returns (mask': seq<bool>)
    requires InOrder(s, mask)
    ensures InOrder(RunTurns(s, turns), mask') && mask <= mask'
    decreases |turns|
  {
    hide InOrder, Apply;
    mask' := mask;
    if turns != [] {
      mask' := TurnKeeps(s, turns[0], mask);
      mask' := TurnsAreAccounted(Apply(s, turns[0]), turns[1..], mask');
    }
  }

  // ---------- What falls between the test and the receive ----------

  function Takes(n: nat): (turns: seq<Turn>)
    ensures |turns| == n
  {
    seq(n, _ => Take)
  }

  lemma {:induction false} TakesTake(s: System, n: nat)
    requires n <= |s.queue.queued|
    ensures var s' := RunTurns(s, Takes(n));
      s'.place == s.place && s'.queue.queued == s.queue.queued[n..] && s'.queue.dropped == s.queue.dropped
    decreases n
  {
    if n > 0 {
      assert Takes(n)[1..] == Takes(n - 1);
      TakesTake(Apply(s, Take), n - 1);
    }
  }

  lemma {:induction false} TakesNothing(s: System, n: nat)
    requires s.queue.queued == []
    ensures RunTurns(s, Takes(n)) == s
    decreases n
  {
    if n > 0 {
      assert Takes(n)[1..] == Takes(n - 1);
      TakesNothing(s, n - 1);
    }
  }

  /** The producer has found the queue full, and the sending task takes n frames before the producer
      receives. Below ten, the n-th frame is dropped, out of a queue of only 10 - n; with ten or more, the
      producer waits for a frame. */
  lemma DropsBehindTheTest(s: System, n: nat)
    requires s.place.Dropping? && |s.queue.queued| == CAPACITY
    ensures var s1 := RunTurns(s, Takes(n)); var s2 := Apply(s1, GoOn);
      && |s1.queue.queued| == (if n < CAPACITY then CAPACITY - n else 0)
      && s2.queue.dropped == s.queue.dropped + (if n < CAPACITY then [s.queue.queued[n]] else [])
      && (Waits(s2) <==> n >= CAPACITY)
  {
    if n <= CAPACITY {
      TakesTake(s, n);
    } else {
      TakesTake(s, CAPACITY);
      TakesNothing(RunTurns(s, Takes(CAPACITY)), n - CAPACITY);
      assert Takes(n) == Takes(CAPACITY) + Takes(n - CAPACITY);
      RunAppend(s, Takes(CAPACITY), Takes(n - CAPACITY));
    }
  }

  /** The producer waits for a frame that only it could bring. */
  predicate Waits(s: System) {
    s.place.Dropping? && s.queue.queued == []
  }

  /** From then on nothing changes, whoever runs and whatever is offered. */
  lemma {:induction false} WaitsForever(s: System, turns: seq<Turn>)
    requires Waits(s)
    ensures RunTurns(s, turns) == s
    decreases |turns|
  {
    if turns != [] {
      WaitsForever(s, turns[1..]);
    }
  }

  /** A call of the producer that nothing interrupts is Offer. */
  lemma CallIsOffer(s: System, f: Frame)
    requires s.place.Resting? && |s.queue.queued| <= CAPACITY
    ensures var s1 := Apply(s, Call(f)); var s2 := Apply(s1, GoOn);
      var s' := if s1.place.Dropping? then Apply(s2, GoOn) else s2;
      && s'.queue == Offer(s.queue, f) && s'.place == Resting
      && s'.entered == s.entered + [f] && s'.refused == s.refused
  {
  }

  /** Offers of frames while there is room. */
  function Filling(frames: seq<Frame>): seq<Turn> {
    if frames == [] then [] else [Call(frames[0]), GoOn] + Filling(frames[1..])
  }

  lemma {:induction false} FillingFills(s: System, frames: seq<Frame>)
    requires s.place.Resting? && |s.queue.queued| + |frames| <= CAPACITY
    ensures var s' := RunTurns(s, Filling(frames));
      s'.place.Resting? && s'.queue == s.queue.(queued := s.queue.queued + frames)
    decreases |frames|
  {
    if frames == [] {
      assert s.queue.queued + frames == s.queue.queued;
    } else {
      var s1 := Apply(s, Call(frames[0]));
      var s2 := Apply(s1, GoOn);
      assert [Call(frames[0]), GoOn][1..] == [GoOn];
      assert RunTurns(s, [Call(frames[0]), GoOn]) == RunTurns(s1, [GoOn]) == s2;
      RunAppend(s, [Call(frames[0]), GoOn], Filling(frames[1..]));
      FillingFills(s2, frames[1..]);
      assert s.queue.queued + [frames[0]] + frames[1..] == s.queue.queued + frames;
    }
  }

  /** Ten frames, an eleventh for which the queue is found full, ten turns of the sending task: the
      producer waits, and no later frame is ever queued, delivered or dropped. */
  lemma WaitingIsReached(frames: seq<Frame>, f: Frame, turns: seq<Turn>)
    requires |frames| == CAPACITY
    ensures var s := RunTurns(NEW, Filling(frames) + ([Call(f)] + Takes(CAPACITY)));
      Waits(s) && RunTurns(s, turns) == s
  {
    hide Filling;
    var s1 := RunTurns(NEW, Filling(frames));
    FillingFills(NEW, frames);
    RunAppend(NEW, Filling(frames), [Call(f)] + Takes(CAPACITY));
    var s2 := Apply(s1, Call(f));
    assert RunTurns(s1, [Call(f)]) == s2;
    RunAppend(s1, [Call(f)], Takes(CAPACITY));
    TakesTake(s2, CAPACITY);
    WaitsForever(RunTurns(s2, Takes(CAPACITY)), turns);
  }
}
