/** The queue of media frames of one track. The producer drops the oldest frame when the queue is full;
the sending thread takes frames in order. An offer is one step here; FrameTurns splits it. */
module FrameQueues {

  const CAPACITY := 10

  /** A frame with the block its data lives in; ownsData: the receiver must free the block. */
  datatype Frame = Frame(id: nat, ownsData: bool)

  /** The queue, the frames handed to the media hook so far, those dropped, and the blocks freed. */
  datatype Queue = Queue(queued: seq<Frame>, delivered: seq<Frame>, dropped: seq<Frame>, freed: multiset<nat>)

  const EMPTY := Queue([], [], [], multiset{})

  function Freed(freed: multiset<nat>, f: Frame): multiset<nat> {
    if f.ownsData then freed + multiset{f.id} else freed
  }

  /** OnFrameReadyToSend: the oldest frame goes when the queue is full. */
  function Offer(q: Queue, f: Frame): Queue {
    var q1 := if |q.queued| >= CAPACITY
              then q.(queued := q.queued[1..], dropped := q.dropped + [q.queued[0]],
                      freed := Freed(q.freed, q.queued[0]))
              else q;
    q1.(queued := q1.queued + [f])
  }

  /** One turn of the sending thread, when there is a frame. */
  function Send(q: Queue): Queue {
    if q.queued == [] then q
    else q.(queued := q.queued[1..], delivered := q.delivered + [q.queued[0]], freed := Freed(q.freed, q.queued[0]))
  }

  datatype Event = Offered(frame: Frame) | Sent

  function Step(q: Queue, e: Event): Queue {
    match e
    case Offered(f) => Offer(q, f)
    case Sent => Send(q)
  }

  function Run(q: Queue, events: seq<Event>): Queue
    decreases |events|
  {
    if events == [] then q else Run(Step(q, events[0]), events[1..])
  }

  function Offers(events: seq<Event>): seq<Frame> {
    if events == [] then [] else (if events[0].Offered? then [events[0].frame] else []) + Offers(events[1..])
  }

  // ---------- What became of the frames ----------

  /** The elements of s where the mask is set. */
  function Pick<T>(s: seq<T>, mask: seq<bool>, which: bool): (r: seq<T>)
    requires |s| == |mask|
    ensures |r| <= |s|
  {
    if s == [] then [] else (if mask[0] == which then [s[0]] else []) + Pick(s[1..], mask[1..], which)
  }

  lemma {:induction false} PickSnoc<T>(s: seq<T>, mask: seq<bool>, which: bool, x: T, b: bool)
    requires |s| == |mask|
    ensures Pick(s + [x], mask + [b], which) == Pick(s, mask, which) + (if b == which then [x] else [])
  {
    if s != [] {
      assert (s + [x])[1..] == s[1..] + [x] && (mask + [b])[1..] == mask[1..] + [b];
      PickSnoc(s[1..], mask[1..], which, x, b);
    }
  }

  function OwnedIds(s: seq<Frame>): multiset<nat> {
    if s == [] then multiset{} else Freed(OwnedIds(s[..|s| - 1]), s[|s| - 1])
  }

  /** The offered frames are those that left the queue, in order, followed by the queued ones. The
      mask tells the delivered from the dropped, each in the order of the offers, and the blocks freed
      are exactly those of the frames that left and own one. */
  ghost predicate Accounted(q: Queue, offered: seq<Frame>, mask: seq<bool>) {
    && |mask| + |q.queued| == |offered|
    && q.queued == offered[|mask|..]
    && q.delivered == Pick(offered[..|mask|], mask, true)
    && q.dropped == Pick(offered[..|mask|], mask, false)
    && q.freed == OwnedIds(offered[..|mask|])
    && |q.queued| <= CAPACITY
  }

  lemma LeaveKeeps(q: Queue, offered: seq<Frame>, mask: seq<bool>, b: bool)
    requires Accounted(q, offered, mask) && q.queued != []
    ensures var f := q.queued[0];
      var q' := q.(queued := q.queued[1..], freed := Freed(q.freed, f),
                   delivered := if b then q.delivered + [f] else q.delivered,
                   dropped := if b then q.dropped else q.dropped + [f]);
      Accounted(q', offered, mask + [b])
  {
    var n := |mask|;
    assert offered[..n + 1] == offered[..n] + [offered[n]];
    PickSnoc(offered[..n], mask, true, offered[n], b);
    PickSnoc(offered[..n], mask, false, offered[n], b);
    assert offered[..n + 1][..n] == offered[..n];
  }

  lemma OfferKeeps(q: Queue, offered: seq<Frame>, mask: seq<bool>, f: Frame)
    requires Accounted(q, offered, mask)
    ensures Accounted(Offer(q, f), offered + [f], if |q.queued| >= CAPACITY then mask + [false] else mask)
  {
    if |q.queued| >= CAPACITY {
      LeaveKeeps(q, offered, mask, false);
    }
    var m := if |q.queued| >= CAPACITY then mask + [false] else mask;
    assert (offered + [f])[..|m|] == offered[..|m|];
    assert (offered + [f])[|m|..] == offered[|m|..] + [f];
  }

  lemma SendKeeps(q: Queue, offered: seq<Frame>, mask: seq<bool>)
    requires Accounted(q, offered, mask)
    ensures Accounted(Send(q), offered, if q.queued == [] then mask else mask + [true])
  {
    if q.queued != [] {
      LeaveKeeps(q, offered, mask, true);
    }
  }

  lemma OneMoreOffer(offered: seq<Frame>, events: seq<Event>)
    requires events != [] && events[0].Offered?
    ensures offered + [events[0].frame] + Offers(events[1..]) == offered + Offers(events)
  {
  }

  lemma NoMoreOffer(events: seq<Event>)
    requires events != [] && !events[0].Offered?
    ensures Offers(events) == Offers(events[1..])
  {
  }

  lemma NoOffers(offered: seq<Frame>)
    ensures offered + Offers([]) == offered
  {
  }

  /** At every point of every run: what was offered is partitioned, in order, into delivered, dropped
      and queued frames; at most ten are queued; every block of a frame that left was freed once. */
  lemma {:induction false} FramesAreAccounted(q: Queue, events: seq<Event>, offered: seq<Frame>, mask: seq<bool>)
    returns (mask': seq<bool>)
    requires Accounted(q, offered, mask)
    ensures Accounted(Run(q, events), offered + Offers(events), mask')
    ensures mask <= mask'
    decreases |events|
  {
    hide Accounted, Offer, Send, Offers;
    if events == [] {
      NoOffers(offered);
      mask' := mask;
    } else {
      match events[0]
      case Offered(f) =>
        OfferKeeps(q, offered, mask, f);
        var m := if |q.queued| >= CAPACITY then mask + [false] else mask;
        mask' := FramesAreAccounted(Offer(q, f), events[1..], offered + [f], m);
        OneMoreOffer(offered, events);
      case Sent =>
        SendKeeps(q, offered, mask);
        mask' := FramesAreAccounted(Send(q), events[1..], offered, if q.queued == [] then mask else mask + [true]);
        NoMoreOffer(events);
    }
  }

  /** A frame is dropped only for a newer one, when ten frames were waiting. */
  lemma DropsOnlyWhenFull(q: Queue, e: Event)
    ensures Step(q, e).dropped != q.dropped <==> e.Offered? && |q.queued| >= CAPACITY
    ensures Step(q, e).dropped != q.dropped ==> Step(q, e).dropped == q.dropped + [q.queued[0]]
  {
  }

  /** With distinct blocks, none is freed twice, and none that is still queued is freed. */
  lemma {:induction false} FreedOnce(s: seq<Frame>, id: nat)
    requires forall j, k :: 0 <= j < k < |s| ==> s[j].id != s[k].id
    ensures OwnedIds(s)[id] == if exists k :: 0 <= k < |s| && s[k].id == id && s[k].ownsData then 1 else 0
    decreases |s|
  {
    if s != [] {
      var last := s[|s| - 1];
      FreedOnce(s[..|s| - 1], id);
      assert forall k :: 0 <= k < |s| - 1 ==> s[..|s| - 1][k] == s[k];
      if last.ownsData && last.id == id {
        assert forall k :: 0 <= k < |s| - 1 ==> s[k].id != id;
      }
    }
  }

  lemma FreedExactlyOnce(q: Queue, offered: seq<Frame>, mask: seq<bool>, k: nat)
    requires Accounted(q, offered, mask) && k < |offered| && offered[k].ownsData
    requires forall i, j :: 0 <= i < j < |offered| ==> offered[i].id != offered[j].id
    ensures q.freed[offered[k].id] == if k < |mask| then 1 else 0
  {
    FreedOnce(offered[..|mask|], offered[k].id);
    assert k < |mask| ==> offered[..|mask|][k] == offered[k];
  }

  // ---------- In place ----------

  class FrameQueue {
    var queued: seq<Frame>
    var freed: multiset<nat>
    ghost var delivered: seq<Frame>
    ghost var dropped: seq<Frame>

    // The frames offered so far, and which of those that left were delivered.
    ghost var offered: seq<Frame>
    ghost var mask: seq<bool>

    ghost function Value(): Queue
      reads this
    {
      Queue(queued, delivered, dropped, freed)
    }

    ghost predicate Valid()
      reads this
    {
      Accounted(Value(), offered, mask)
    }

    constructor ()
      ensures Valid() && Value() == EMPTY && offered == []
    {
      queued, delivered, dropped, freed := [], [], [], multiset{};
      offered, mask := [], [];
    }

    method FreeData(f: Frame)
      modifies this`freed
      ensures freed == Freed(old(freed), f)
    {
      if f.ownsData {
        freed := freed + multiset{f.id};
      }
    }

    /** Every frame offered stays accounted for. */
    method OnFrameReadyToSend(f: Frame)
      requires Valid()
      modifies this
      ensures Valid() && offered == old(offered) + [f] && old(mask) <= mask
      ensures Value() == Offer(old(Value()), f)
    {
      hide Accounted;
      OfferKeeps(Value(), offered, mask, f);
      if |queued| >= CAPACITY {
        var oldest := queued[0];
        queued, dropped := queued[1..], dropped + [oldest];
        mask := mask + [false];
        FreeData(oldest);
      }
      queued, offered := queued + [f], offered + [f];
    }

    /** One turn of the sending thread: the frame goes to the media hook and is then freed. */
    method SendNext() returns (sent: bool)
      requires Valid()
      modifies this
      ensures Valid() && offered == old(offered) && old(mask) <= mask
      ensures sent == (old(queued) != []) && Value() == Send(old(Value()))
    {
      hide Accounted;
      SendKeeps(Value(), offered, mask);
      sent := queued != [];
      if sent {
        var f := queued[0];
        queued, delivered := queued[1..], delivered + [f];
        mask := mask + [true];
        FreeData(f);
      }
    }
  }
}
