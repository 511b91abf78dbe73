/** The stream ids a peer gives the data channels it opens, section 6 of RFC 8832: the client side
of the DTLS handshake uses even ids, the server side odd ones. */
module StreamIds {
  import opened Wrappers

  type StreamId = x: int | 0 <= x < 0x10000

  /** The id the k-th open of an association gets, counting from 0. */
  function Nth(isServer: bool, k: nat): StreamId {
    ((if isServer then 1 else 0) + 2 * k) % 0x10000
  }

  /** Ids repeat with a period of 32768 and not before. */
  lemma SameIdIff(isServer: bool, j: nat, k: nat)
    ensures Nth(isServer, j) == Nth(isServer, k) <==> (k - j) % 0x8000 == 0
  {
    HalfOfNth(isServer, j);
    HalfOfNth(isServer, k);
    SameRemainderIff(j, k);
  }

  lemma SameRemainderIff(j: nat, k: nat)
    ensures j % 0x8000 == k % 0x8000 <==> (k - j) % 0x8000 == 0
  {
  }

  lemma HalfOfNth(isServer: bool, k: nat)
    ensures Nth(isServer, k) == (if isServer then 1 else 0) + 2 * (k % 0x8000)
  {
    var q, r := k / 0x8000, k % 0x8000;
    assert 2 * k == 0x10000 * q + 2 * r;
  }

  lemma NextId(isServer: bool, k: nat)
    ensures (Nth(isServer, k) + 2) % 0x10000 == Nth(isServer, k + 1)
  {
  }

  /** The two ends of an association never choose the same id, whatever each has opened before. */
  lemma RolesNeverCollide(isServer: bool, j: nat, k: nat)
    ensures Nth(isServer, j) != Nth(!isServer, k)
  {
    HalfOfNth(isServer, j);
    HalfOfNth(!isServer, k);
  }

  /** What the libraries answer to one open: was the DCEP message built, and was it sent. */
  datatype Answers = Answers(serialized: bool, sent: bool)

  /** The id the open of one channel sets, and whether it used an id up. */
  function IdsOf(isServer: bool, first: nat, answers: seq<Answers>): (ids: seq<Option<StreamId>>)
    ensures |ids| == |answers|
    decreases answers
  {
    if answers == [] then
      []
    else
      var a := answers[0];
      [if a.serialized && a.sent then Some(Nth(isServer, first)) else None]
        + IdsOf(isServer, if a.serialized then first + 1 else first, answers[1..])
  }

  lemma IdsFrom(isServer: bool, first: nat, answers: seq<Answers>, i: nat)
    requires i < |answers|
    ensures IdsOf(isServer, first, answers[i..]) ==
            [if answers[i].serialized && answers[i].sent then Some(Nth(isServer, first)) else None]
              + IdsOf(isServer, if answers[i].serialized then first + 1 else first, answers[i + 1..])
  {
    assert answers[i..][1..] == answers[i + 1..];
  }

  lemma IdsOfNone(isServer: bool, first: nat, answers: seq<Answers>)
    requires answers == []
    ensures IdsOf(isServer, first, answers) == []
  {
  }

  /** How many of the opens before the k-th used an id up. */
  function Used(answers: seq<Answers>): nat {
    if answers == [] then 0 else (if answers[0].serialized then 1 else 0) + Used(answers[1..])
  }

  lemma {:induction false} IdsOfAt(isServer: bool, first: nat, answers: seq<Answers>, k: nat)
    requires k < |answers|
    ensures IdsOf(isServer, first, answers)[k] ==
            if answers[k].serialized && answers[k].sent then Some(Nth(isServer, first + Used(answers[..k]))) else None
    decreases answers
  {
    if k > 0 {
      var a := answers[0];
      IdsOfAt(isServer, if a.serialized then first + 1 else first, answers[1..], k - 1);
      assert answers[..k][1..] == answers[1..][..k - 1];
    }
  }

  lemma {:induction false} UsedGrows(answers: seq<Answers>, j: nat, k: nat)
    requires j < k <= |answers|
    ensures Used(answers[..j]) + (if answers[j].serialized then 1 else 0) <= Used(answers[..k]) <= k
  {
    assert answers[..k][1..] == answers[1..][..k - 1];
    if j > 0 {
      assert answers[..j][1..] == answers[1..][..j - 1];
      UsedGrows(answers[1..], j - 1, k - 1);
    } else if k > 1 {
      UsedGrows(answers[1..], 0, k - 1);
    }
  }

  /** One more open among others uses up one more id exactly when its message is built, sent or not. */
  lemma {:induction false} OpenUsesIdIff(before: seq<Answers>, a: Answers, after: seq<Answers>)
    ensures Used([]) == 0
    ensures Used(before + [a] + after) == Used(before + after) + (if a.serialized then 1 else 0)
    decreases |before|
  {
    if before == [] {
      assert [] + [a] + after == [a] + after && ([a] + after)[1..] == after && [] + after == after;
    } else {
      assert (before + [a] + after)[1..] == before[1..] + [a] + after;
      assert (before + after)[1..] == before[1..] + after;
      OpenUsesIdIff(before[1..], a, after);
    }
  }

  /** Every id of an association has the parity of the role, past the wrap and past failed sends. */
  lemma IdsHaveParity(isServer: bool, answers: seq<Answers>, k: nat)
    requires k < |answers| && IdsOf(isServer, 0, answers)[k].Some?
    ensures IdsOf(isServer, 0, answers)[k].value % 2 == if isServer then 1 else 0
  {
    IdsOfAt(isServer, 0, answers, k);
    HalfOfNth(isServer, Used(answers[..k]));
  }

  /** Two opens of one association get the same id exactly when both succeed and the number of ids
      used up between them is a multiple of 32768. */
  lemma IdIsReusedIff(isServer: bool, answers: seq<Answers>, j: nat, k: nat)
    requires j < k < |answers|
    ensures var ids := IdsOf(isServer, 0, answers);
      ids[j].Some? && ids[k].Some? ==>
        (ids[j] == ids[k] <==> (Used(answers[..k]) - Used(answers[..j])) % 0x8000 == 0)
  {
    hide Nth;
    IdsOfAt(isServer, 0, answers, j);
    IdsOfAt(isServer, 0, answers, k);
    SameIdIff(isServer, Used(answers[..j]), Used(answers[..k]));
  }

  /** So the ids of any 32768 opens are distinct. */
  lemma IdsAreDistinct(isServer: bool, answers: seq<Answers>, j: nat, k: nat)
    requires j < k < |answers| <= 0x8000
    ensures var ids := IdsOf(isServer, 0, answers); ids[j].Some? && ids[k].Some? ==> ids[j] != ids[k]
  {
    hide Nth, IdsOf, Used;
    IdsOfAt(isServer, 0, answers, j);
    IdIsReusedIff(isServer, answers, j, k);
    UsedGrows(answers, j, k);
  }

  /** The SCTP association of a session. */
  class Association {
    var currentChannelId: StreamId
    ghost var isServer: bool
    ghost var used: nat

    ghost predicate Valid()
      reads this
    {
      currentChannelId == Nth(isServer, used)
    }

    constructor (isServer: bool)
      ensures Valid() && this.isServer == isServer && used == 0
    {
      currentChannelId := if isServer then 1 else 0;
      this.isServer, used := isServer, 0;
    }

    /** Opening one channel: the id is used up once the message is built, even when it is not sent. */
    method OpenDataChannel(a: Answers) returns (id: Option<StreamId>)
      requires Valid()
      modifies this
      ensures Valid() && isServer == old(isServer)
      ensures used == if a.serialized then old(used) + 1 else old(used)
      ensures id == if a.serialized && a.sent then Some(Nth(isServer, old(used))) else None
    {
      id := None;
      if a.serialized {
        var channelId := currentChannelId;
        NextId(isServer, used);
        currentChannelId := (currentChannelId + 2) % 0x10000;
        used := used + 1;
        if a.sent {
          id := Some(channelId);
        }
      }
    }

    /** Opening the channels a session was given before the association existed. Every one is tried. */
    method OpenAll(answers: seq<Answers>) returns (ids: seq<Option<StreamId>>, ok: bool)
      requires Valid()
      modifies this
      ensures Valid() && isServer == old(isServer)
      ensures ids == IdsOf(isServer, old(used), answers)
      ensures ok <==> None !in ids
    {
      hide Nth, IdsOf;
      assert answers[0..] == answers;
      ids, ok := [], true;
      var i := 0;
      while i < |answers|
        invariant Valid() && isServer == old(isServer) && i <= |answers| && |ids| == i
        invariant ids + IdsOf(isServer, used, answers[i..]) == IdsOf(isServer, old(used), answers[0..])
        invariant ok <==> None !in ids
      {
        IdsFrom(isServer, used, answers, i);
        var id := OpenDataChannel(answers[i]);
        ghost var rest := IdsOf(isServer, used, answers[i + 1..]);
        assert ids + ([id] + rest) == ids + [id] + rest;
        ids := ids + [id];
        ok := ok && id.Some?;
        i := i + 1;
      }
      IdsOfNone(isServer, used, answers[i..]);
    }
  }
}
