/** The media source that all sessions share: how many peers each track serves, and whether the
media port runs. */
module MediaSources {
  import opened SessionModel

  type Count32 = x: int | 0 <= x < 0x1_0000_0000

  datatype Media = Media(video: Count32, audio: Count32, total: Count32, running: bool)
  {
    function NumReady(t: Track): Count32 {
      if t.Video? then video else audio
    }

    function WithReady(t: Track, n: Count32, total: Count32): Media {
      if t.Video? then this.(video := n, total := total) else this.(audio := n, total := total)
    }
  }

  /** A peer became ready. The port starts when the total is one; it is assumed to start. */
  function OnReady(m: Media, t: Track, viewers: Count32): Media {
    var m' := if m.NumReady(t) < viewers then m.WithReady(t, m.NumReady(t) + 1, (m.total + 1) % 0x1_0000_0000) else m;
    if m'.total == 1 then m'.(running := true) else m'
  }

  /** A peer closed. The port stops when the total is zero. */
  function OnClosed(m: Media, t: Track): Media {
    var m' := if m.NumReady(t) > 0 then m.WithReady(t, m.NumReady(t) - 1, (m.total - 1) % 0x1_0000_0000) else m;
    if m'.total == 0 then m'.(running := false) else m'
  }

  /** The total is the sum of the tracks, the port runs exactly when it is not zero, and no track
      counts more than the viewers there can be. */
  predicate Consistent(m: Media, viewers: Count32) {
    && m.total == m.video + m.audio && m.running == (m.total > 0)
    && m.video <= viewers && m.audio <= viewers && viewers < 0x8000_0000
  }

  lemma ReadyCounts(m: Media, t: Track, viewers: Count32)
    requires m.total == m.video + m.audio && m.running == (m.total > 0)
    requires m.NumReady(t) < viewers < 0x8000_0000 && m.video <= viewers && m.audio <= viewers
    ensures OnReady(m, t, viewers) == m.WithReady(t, m.NumReady(t) + 1, m.total + 1).(running := true)
  {
    assert m.total + 1 < 0x1_0000_0000;
  }

  lemma ClosedCounts(m: Media, t: Track)
    requires m.total == m.video + m.audio && m.running == (m.total > 0) && m.NumReady(t) > 0
    ensures OnClosed(m, t) == m.WithReady(t, m.NumReady(t) - 1, m.total - 1).(running := m.total > 1)
  {
  }

  /** A callback of any track keeps the counters consistent: the guards see to it. */
  lemma CallbackKeepsConsistent(m: Media, t: Track, viewers: Count32)
    requires Consistent(m, viewers)
    ensures Consistent(OnReady(m, t, viewers), viewers)
    ensures Consistent(OnClosed(m, t), viewers)
  {
    if m.NumReady(t) < viewers {
      ReadyCounts(m, t, viewers);
    }
    if m.NumReady(t) > 0 {
      ClosedCounts(m, t);
    }
  }

  function Take(m: Media, n: Notice, viewers: Count32): Media {
    match n
    case PeerReady(t) => OnReady(m, t, viewers)
    case PeerClosed(t) => OnClosed(m, t)
  }

  function TakeAll(m: Media, notices: seq<Notice>, viewers: Count32): Media
    decreases |notices|
  {
    if notices == [] then m else TakeAll(Take(m, notices[0], viewers), notices[1..], viewers)
  }

  /** Any callbacks in any order keep the counters consistent. */
  lemma {:induction false} CallbacksKeepConsistent(m: Media, notices: seq<Notice>, viewers: Count32)
    requires Consistent(m, viewers)
    ensures Consistent(TakeAll(m, notices, viewers), viewers)
    decreases |notices|
  {
    hide Consistent, OnReady, OnClosed;
    if notices != [] {
      CallbackKeepsConsistent(m, notices[0].track, viewers);
      CallbacksKeepConsistent(Take(m, notices[0], viewers), notices[1..], viewers);
    }
  }

  class MediaSource {
    var total: Count32
    var running: bool
    const numReady: array<Count32>
    const viewers: Count32

    ghost predicate Valid() {
      numReady.Length == 2
    }

    ghost function Value(): Media
      requires Valid()
      reads this, numReady
    {
      Media(numReady[0], numReady[1], total, running)
    }

    constructor (viewers: Count32)
      ensures Valid() && fresh(numReady) && Value() == Media(0, 0, 0, false) && this.viewers == viewers
      ensures viewers < 0x8000_0000 ==> Consistent(Value(), viewers)
    {
      total, running := 0, false;
      numReady := new Count32[2](_ => 0);
      this.viewers := viewers;
    }

    method OnRemotePeerReady(t: Track)
      requires Valid()
      modifies this, numReady
      ensures Value() == OnReady(old(Value()), t, viewers)
      ensures old(Consistent(Value(), viewers)) ==> Consistent(Value(), viewers)
    {
      hide Consistent;
      if Consistent(Value(), viewers) {
        CallbackKeepsConsistent(Value(), t, viewers);
      }
      var k := if t.Video? then 0 else 1;
      if numReady[k] < viewers {
        numReady[k] := numReady[k] + 1;
        total := (total + 1) % 0x1_0000_0000;
      }
      if total == 1 {
        running := true;
      }
    }

    method OnRemotePeerClosed(t: Track)
      requires Valid()
      modifies this, numReady
      ensures Value() == OnClosed(old(Value()), t)
      ensures old(Consistent(Value(), viewers)) ==> Consistent(Value(), viewers)
    {
      hide Consistent;
      if Consistent(Value(), viewers) {
        CallbackKeepsConsistent(Value(), t, viewers);
      }
      var k := if t.Video? then 0 else 1;
      if numReady[k] > 0 {
        numReady[k] := numReady[k] - 1;
        total := (total - 1) % 0x1_0000_0000;
      }
      if total == 0 {
        running := false;
      }
    }
  }
}
