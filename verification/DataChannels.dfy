/** The pool of data channels and the list each session keeps of its own.

Four channels serve all sessions. A session owns at most two of them, on a list linked through the
channels. The pool counts the channels in use, each session counts its own. */
module DataChannels {

  const POOL_SIZE := 4
  const CHANNELS_PER_PEER := 2

  type ChannelId = x: int | 0 <= x < 0x10000

  ghost function Elements(list: seq<Channel>): set<Channel> {
    set ch | ch in list
  }

  ghost predicate Distinct(list: seq<Channel>) {
    forall j, k :: 0 <= j < k < |list| ==> list[j] != list[k]
  }

  class Channel {
    var active: bool
    var open: bool
    var channelId: ChannelId
    var session: Session?
    var next: Channel?

    constructor ()
      ensures !active && session == null && next == null
    {
      active, open, channelId, session, next := false, false, 0, null, null;
    }

    method Clear()
      modifies this
      ensures !active && !open && channelId == 0 && session == null && next == null
    {
      active, open, channelId, session, next := false, false, 0, null, null;
    }
  }

  class Session {
    var head: Channel?
    var count: nat
    ghost var list: seq<Channel>

    constructor ()
      ensures head == null && count == 0 && list == []
    {
      head, count, list := null, 0, [];
    }

    /** The list runs from the head over the next fields to null, and the counter is its length. */
    ghost predicate Linked()
      reads this, Elements(list)
    {
      && head == At(list, 0)
      && (forall k {:trigger list[k].next} :: 0 <= k < |list| ==> list[k].next == At(list, k + 1))
      && Distinct(list)
      && count == |list|
    }

    lemma LinkedFacts()
      requires Linked()
      ensures head == At(list, 0) && Distinct(list)
      ensures forall k {:trigger list[k].next} :: 0 <= k < |list| ==> list[k].next == At(list, k + 1)
    {
    }

    method Reset()
      modifies this
      ensures list == [] && head == null && count == 0 && Linked()
    {
      count, head, list := 0, null, [];
    }

    /** Appends a channel to the list. One that is on it already stays where it is, but is counted again. */
    method Append(ch: Channel)
      requires Linked()
      modifies this, ch`next, Elements(list)`next
      ensures list == (if ch in old(list) then old(list) else old(list) + [ch]) && count == old(count) + 1
      ensures Linked() <==> ch !in old(list)
    {
      if head == null {
        ch.next := null;
        head := ch;
        list := [ch];
      } else {
        var it: Channel := head;
        ghost var k := 0;
        while it != ch && it.next != null
          invariant 0 <= k < |list| && it == list[k] && Linked() && ch !in list[..k]
          decreases |list| - k
        {
          it, k := it.next, k + 1;
        }
        if it != ch {
          assert list[..k + 1] == list;
          ch.next := null;
          it.next := ch;
          list := list + [ch];
        }
      }
      count := count + 1;
    }

    /** The first channel on the list with this stream id. */
    method GetDataChannelWithId(id: ChannelId) returns (ch: Channel?, ghost k: nat)
      requires Linked()
      ensures k <= |list| && ch == At(list, k) && (forall j :: 0 <= j < k ==> list[j].channelId != id)
      ensures ch != null ==> ch.channelId == id
    {
      ch, k := head, 0;
      while ch != null && ch.channelId != id
        invariant k <= |list| && ch == At(list, k)
        invariant forall j :: 0 <= j < k ==> list[j].channelId != id
        decreases |list| - k
      {
        ch, k := ch.next, k + 1;
      }
    }

    /** Walks to the channel; prev is the one before it. */
    method Find(ch: Channel) returns (it: Channel?, prev: Channel?, ghost k: nat)
      requires Linked()
      ensures k <= |list| && it == At(list, k) && (it == null || it == ch)
      ensures prev == (if k == 0 then null else list[k - 1]) && ch !in list[..k]
    {
      it, prev, k := head, null, 0;
      while it != null && it != ch
        invariant k <= |list| && it == At(list, k) && prev == (if k == 0 then null else list[k - 1])
        invariant ch !in list[..k]
        decreases |list| - k
      {
        assert list[..k + 1] == list[..k] + [list[k]];
        prev := it;
        it, k := it.next, k + 1;
      }
    }

    /** Links the channel out, given the one before it. */
    method Unlink(it: Channel, prev: Channel?, ghost k: nat)
      requires Linked() && k < |list| && it == list[k] && prev == (if k == 0 then null else list[k - 1])
      modifies this, Elements(list)`next
      ensures list == old(list[..k] + list[k + 1..]) && Linked()
    {
      hide Distinct;
      ghost var was := list;
      if k > 0 {
        DistinctAt(was, k - 1, k);
      }
      if prev == null {
        head := it.next;
      } else {
        prev.next := it.next;
      }
      if count > 0 {
        count := count - 1;
      }
      list := was[..k] + was[k + 1..];
      forall j | 0 <= j < |list| ensures list[j].next == At(list, j + 1) {
        CutAt(was, k, j);
        CutAt(was, k, j + 1);
        if j < k - 1 {
          DistinctAt(was, j, k - 1);
        } else if j >= k {
          if k > 0 {
            DistinctAt(was, k - 1, j + 1);
          }
        }
      }
      CutAt(was, k, 0);
      CutIsDistinct(was, k);
    }

    lemma RemovedElements(ch: Channel)
      requires Linked()
      ensures Elements(Without(list, ch)) == Elements(list) - {ch}
      ensures |Without(list, ch)| == if ch in list then count - 1 else count
    {
      if ch in list {
        var k :| 0 <= k < |list| && list[k] == ch;
        WithoutAt(list, ch, k);
        forall c | c in list && c != ch ensures c in list[..k] + list[k + 1..] {
          var j :| 0 <= j < |list| && list[j] == c;
          assert j < k || list[k + 1..][j - k - 1] == c;
        }
      } else {
        WithoutAt(list, ch, |list|);
      }
    }

    lemma NothingRemoved(ch: Channel)
      requires ch !in list
      ensures Without(list, ch) == list
    {
      WithoutAt(list, ch, |list|);
    }

    /** Takes a channel off the list if it is on it. */
    method Remove(ch: Channel)
      requires Linked()
      modifies this, Elements(list)`next
      ensures list == Without(old(list), ch) && Linked() && count == |list|
    {
      var it, prev, k := Find(ch);
      WithoutAt(list, ch, k);
      if it != null {
        Unlink(it, prev, k);
      }
    }
  }

  ghost function At(list: seq<Channel>, k: nat): Channel? {
    if k < |list| then list[k] else null
  }

  ghost function Without(list: seq<Channel>, ch: Channel): seq<Channel> {
    if list == [] then [] else if list[0] == ch then list[1..] else [list[0]] + Without(list[1..], ch)
  }

  lemma InElements(list: seq<Channel>, k: nat)
    requires k < |list|
    ensures list[k] in Elements(list)
  {
  }

  lemma DistinctAt(list: seq<Channel>, j: nat, k: nat)
    requires Distinct(list) && j < k < |list|
    ensures list[j] != list[k]
  {
  }

  lemma CutAt(list: seq<Channel>, k: nat, j: nat)
    requires k < |list|
    ensures At(list[..k] + list[k + 1..], j) == At(list, if j < k then j else j + 1)
  {
  }

  lemma CutIsDistinct(list: seq<Channel>, k: nat)
    requires k < |list| && Distinct(list)
    ensures Distinct(list[..k] + list[k + 1..])
  {
  }

  lemma {:induction false} WithoutAt(list: seq<Channel>, ch: Channel, k: nat)
    requires k <= |list| && ch !in list[..k] && At(list, k) in {ch, null}
    ensures Without(list, ch) == if k < |list| then list[..k] + list[k + 1..] else list
  {
    if k > 0 {
      assert list[1..][..k - 1] == list[..k][1..];
      WithoutAt(list[1..], ch, k - 1);
      assert list == [list[0]] + list[1..];
    }
  }

  /** The channels of the process and the sessions that share them. */
  class Pool {
    const channels: seq<Channel>
    const sessions: seq<Session>
    var count: nat

    ghost predicate Shape() {
      && |channels| == POOL_SIZE
      && Distinct(channels)
      && (forall j, k :: 0 <= j < k < |sessions| ==> sessions[j] != sessions[k])
    }

    ghost function Active(): set<Channel>
      reads Elements(channels)
    {
      set ch | ch in channels && ch.active
    }

    /** Channels in use that no session knows of. */
    ghost function Orphans(): set<Channel>
      reads Elements(channels)
    {
      set ch | ch in channels && ch.active && ch.session == null
    }

    /** The channels in use and the session each belongs to; null for an orphan. */
    ghost function Owners(): (m: Ownership)
      reads Elements(channels)
      ensures m.Keys == Active()
    {
      map ch | ch in Active() :: ch.session
    }

    /** The session each channel names, in use or not. */
    ghost function Names(): Naming
      reads Elements(channels)
    {
      map ch | ch in channels :: ch.session
    }

    /** The list of a session holds channels in use that name this session as theirs. */
    ghost predicate Owned(s: Session)
      reads s, Elements(channels)
    {
      && Elements(s.list) <= Elements(channels)
      && (forall ch :: ch in s.list ==> ch in channels && ch.active && ch.session == s)
      && s.Linked()
      && s.count <= CHANNELS_PER_PEER
    }

    ghost predicate Valid()
      reads this, Elements(channels), sessions
    {
      && Shape()
      && (forall s :: s in sessions ==> Owned(s))
      && (forall ch :: ch in channels && ch.session != null ==> ch.session in sessions)
      && (forall ch :: ch in channels && ch.active && ch.session != null ==> ch in ch.session.list)
      && count == |Active()|
    }

    /** Every channel in use is on a list. */
    ghost predicate Strict()
      reads this, Elements(channels), sessions
    {
      Valid() && Orphans() == {}
    }

    lemma FreshPool()
      requires Shape() && count == 0
      requires forall ch :: ch in channels ==> !ch.active && ch.session == null
      requires forall s :: s in sessions ==> s.list == [] && s.head == null && s.count == 0
      ensures Strict() && Owners() == map[]
    {
      hide Shape;
      assert Active() == {};
    }

    lemma FourChannels(c0: Channel, c1: Channel, c2: Channel, c3: Channel)
      requires c0 != c1 && c0 != c2 && c0 != c3 && c1 != c2 && c1 != c3 && c2 != c3
      ensures Distinct([c0, c1, c2, c3])
    {
    }

    constructor (sessions: seq<Session>)
      requires forall j, k :: 0 <= j < k < |sessions| ==> sessions[j] != sessions[k]
      requires forall s :: s in sessions ==> s.list == [] && s.head == null && s.count == 0
      ensures Strict() && count == 0 && fresh(channels) && this.sessions == sessions && Owners() == map[]
      ensures forall ch :: ch in channels ==> ch in Names() && Names()[ch] == null
    {
      hide Strict, Owners, Session.Linked, Distinct;
      var c0 := new Channel();
      var c1 := new Channel();
      var c2 := new Channel();
      var c3 := new Channel();
      channels := [c0, c1, c2, c3];
      this.sessions := sessions;
      count := 0;
      new;
      FourChannels(c0, c1, c2, c3);
      FreshPool();
    }

    lemma AllActive()
      requires Shape()
      ensures |Active()| <= POOL_SIZE
      ensures |Active()| == POOL_SIZE <==> forall ch :: ch in channels ==> ch.active
    {
      var all := {channels[0], channels[1], channels[2], channels[3]};
      assert |all| == 4;
      assert Active() <= all;
      SubsetSize(Active(), all);
      assert forall ch :: ch in channels ==> ch in all;
      if |Active()| == POOL_SIZE {
        assert Active() == all;
        assert forall ch :: ch in channels ==> ch in Active();
      }
      if forall ch :: ch in channels ==> ch.active {
        assert Active() == all;
      }
    }

    lemma CountFits()
      requires Valid()
      ensures count <= POOL_SIZE
    {
      AllActive();
    }

    /** One channel names another session. */
    twostate lemma NamesChanged(ch: Channel)
      requires ch in channels && forall c :: c in channels && c != ch ==> c.session == old(c.session)
      ensures Names() == old(Names())[ch := ch.session]
    {
    }

    twostate lemma NamesKept()
      requires forall c :: c in channels ==> c.session == old(c.session)
      ensures Names() == old(Names())
    {
    }

    /** A channel was taken from the pool, the others kept their owners. */
    twostate lemma OwnerAdded(ch: Channel)
      requires Active() == old(Active()) + {ch}
      requires forall c :: c in old(Active()) && c != ch ==> c.session == old(c.session)
      ensures Owners() == old(Owners())[ch := ch.session]
    {
    }

    twostate lemma OwnersKept()
      requires Active() == old(Active())
      requires forall c :: c in Active() ==> c.session == old(c.session)
      ensures Owners() == old(Owners())
    {
    }

    /** A channel went back to the pool, the others kept their owners. */
    twostate lemma OwnerRemoved(ch: Channel)
      requires Active() == old(Active()) - {ch}
      requires forall c :: c in old(Active()) && c != ch ==> c.session == old(c.session)
      ensures Owners() == old(Owners()) - {ch}
    {
    }

    lemma OwnerIsKnown(ch: Channel)
      requires Valid() && ch in channels && ch.session != null
      ensures ch.session in sessions
    {
    }

    lemma FullPool()
      requires Valid() && count == POOL_SIZE
      ensures FirstFree(channels, Active()) == null
    {
      AllActive();
      FirstFreeAt(channels, Active(), POOL_SIZE);
    }

    /** The counter of a session is the number of channels that name it. */
    lemma CountIsOwned(s: Session)
      requires Valid() && s in sessions
      ensures CountOf(Owners(), s) == s.count
    {
      MembersOf(s);
      assert (set ch | ch in Owners() && Owners()[ch] == s) == set ch | ch in channels && ch.active && ch.session == s;
    }

    lemma Apart(s: Session, t: Session)
      requires Owned(s) && Owned(t) && s != t
      ensures forall ch :: ch in s.list ==> ch !in t.list
    {
    }

    twostate lemma Undisturbed(t: Session)
      requires old(Owned(t)) && unchanged(t)
      requires forall ch :: ch in t.list ==>
        ch.active == old(ch.active) && ch.session == old(ch.session) && ch.next == old(ch.next)
      ensures Owned(t)
    {
    }

    /** The channels that were in use before keep their id, their owner and whether they are open. */
    twostate predicate KeepsOthers()
      reads Elements(channels)
    {
      forall c :: c in old(Active()) ==>
        c.channelId == old(c.channelId) && c.open == old(c.open) && c.session == old(c.session)
    }

    lemma ActiveIsMember()
      ensures Active() <= Elements(channels)
    {
    }

    /** A cleared channel was put in use, and the others were left alone. */
    twostate lemma Claimed(ch: Channel)
      requires ch in channels && ch.active && ch.session == null && !old(ch.active)
      requires forall c :: c in channels && c != ch ==> unchanged(c)
      ensures ch !in old(Active()) && Active() == old(Active()) + {ch}
      ensures ch !in old(Orphans()) && Orphans() == old(Orphans()) + {ch}
    {
    }

    /** Takes a channel that is not in use. */
    method Claim(ch: Channel)
      requires Valid() && ch in channels && !ch.active
      modifies this`count, ch
      ensures ch.active && !ch.open && ch.channelId == 0 && ch.session == null && ch.next == null
      ensures count == old(count) + 1 && Active() == old(Active()) + {ch}
      ensures ch !in old(Active()) && ch !in old(Orphans()) && Orphans() == old(Orphans()) + {ch}
      ensures Valid()
    {
      hide Session.Linked, Shape, Active, Orphans;
      assert forall s :: s in sessions ==> ch !in s.list;
      ch.Clear();
      ch.active := true;
      count := count + 1;
      forall s | s in sessions ensures Owned(s) {
        Undisturbed(s);
      }
      Claimed(ch);
    }

    lemma AllActiveNow()
      requires Valid()
      ensures |channels| == POOL_SIZE && count <= POOL_SIZE
      ensures count == POOL_SIZE <==> forall ch :: ch in channels ==> ch.active
    {
      AllActive();
    }

    /** The first channel not in use, cleared. */
    method Allocate() returns (ch: Channel?)
      requires Valid()
      modifies this`count, Elements(channels)
      ensures ch == null <==> old(count) == POOL_SIZE
      ensures ch == null ==> count == old(count) && forall c :: c in channels ==> unchanged(c)
      ensures ch == FirstFree(channels, old(Active()))
      ensures ch == null ==> Active() == old(Active()) && Orphans() == old(Orphans())
      ensures ch != null ==> ch in channels && ch.session == null && count == old(count) + 1
                             && ch !in old(Active()) && Active() == old(Active()) + {ch}
                             && ch !in old(Orphans()) && Orphans() == old(Orphans()) + {ch}
      ensures forall c :: c in channels && c != ch ==> unchanged(c)
      ensures Valid()
    {
      hide Valid, Orphans;
      AllActiveNow();
      ch := null;
      if count < POOL_SIZE {
        var k := 0;
        while k < POOL_SIZE && channels[k].active
          invariant k <= POOL_SIZE
          invariant forall j :: 0 <= j < k ==> channels[j].active
        {
          k := k + 1;
        }
        ch := channels[k];
        FirstFreeAt(channels, Active(), k);
        Claim(ch);
      } else {
        FirstFreeAt(channels, Active(), POOL_SIZE);
      }
    }

    lemma OrphanIsOffLists(ch: Channel)
      requires ch in Orphans()
      ensures forall s :: Owned(s) ==> ch !in s.list
    {
    }

    /** Puts an orphan on the list of a session. */
    method Attach(s: Session, ch: Channel)
      requires Valid() && s in sessions && s.count < CHANNELS_PER_PEER && ch in Orphans()
      modifies s, Elements(channels)`session, Elements(channels)`next
      ensures Valid() && s.list == old(s.list) + [ch]
      ensures Active() == old(Active()) && Orphans() == old(Orphans()) - {ch}
      ensures ch.session == s && forall c :: c in channels && c != ch ==> c.session == old(c.session)
    {
      hide Session.Linked;
      OrphanIsOffLists(ch);
      assert s.Linked() && ch !in s.list;
      forall t | t in sessions && t != s ensures forall c :: c in t.list ==> c !in s.list {
        Apart(s, t);
      }
      ch.session := s;
      s.Append(ch);
      forall t | t in sessions && t != s ensures Owned(t) {
        Undisturbed(t);
      }
      assert Active() == old(Active());
    }

    /** Creates a channel to be opened with the association. A session at its limit is refused after
        the channel was taken from the pool, and the channel stays in use without an owner. */
    method CreateDataChannel(s: Session) returns (ok: bool, ch: Channel?, ghost taken: Channel?)
      requires Valid() && s in sessions
      modifies this`count, s, Elements(channels)
      ensures Valid()
      ensures ok <==> old(count) < POOL_SIZE && old(s.count) < CHANNELS_PER_PEER
      ensures taken == FirstFree(channels, old(Active())) && (taken == null <==> old(count) == POOL_SIZE)
      ensures ch == if ok then taken else null
      ensures s.list == if ok then old(s.list) + [taken] else old(s.list)
      ensures taken == null ==> Active() == old(Active()) && Orphans() == old(Orphans())
      ensures taken != null ==> taken !in old(Active()) && Active() == old(Active()) + {taken}
                                && taken.session == (if ok then s else null)
      ensures taken != null ==> taken !in old(Orphans())
                                && Orphans() == if ok then old(Orphans()) else old(Orphans()) + {taken}
      ensures Strict() <==> old(Strict()) && (ok || old(count) == POOL_SIZE)
      ensures KeepsOthers() && forall c :: c in channels && c != taken ==> c.session == old(c.session)
    {
      hide Valid, Owned, Shape, Session.Linked, Active, Orphans, FirstFree;
      CountFits();
      ActiveIsMember();
      var first := Allocate();
      ok, ch, taken := false, null, first;
      if first != null {
        if s.count < CHANNELS_PER_PEER {
          Attach(s, first);
          ok, ch := true, first;
        }
      }
    }

    method Label(ch: Channel, id: ChannelId)
      requires Valid() && ch in channels
      modifies ch`channelId, ch`open
      ensures Valid() && Active() == old(Active()) && Orphans() == old(Orphans())
      ensures ch.channelId == id && ch.open
    {
      ch.channelId := id;
      ch.open := true;
      assert forall s :: s in sessions ==> Owned(s);
      assert Active() == old(Active());
    }

    /** The remote peer opened a channel. */
    method OnDataChannelOpen(s: Session, id: ChannelId) returns (ghost ch: Channel?)
      requires Valid() && s in sessions
      modifies this`count, s, Elements(channels)
      ensures Valid() && Orphans() == old(Orphans())
      ensures ch != null <==> old(count) < POOL_SIZE && old(s.count) < CHANNELS_PER_PEER
      ensures ch == null ==> unchanged(s) && Active() == old(Active())
      ensures ch != null ==> ch == FirstFree(channels, old(Active())) && ch !in old(Active())
                             && Active() == old(Active()) + {ch} && s.list == old(s.list) + [ch]
                             && ch.channelId == id && ch.open && ch.session == s
      ensures KeepsOthers() && forall c :: c in channels && c != ch ==> c.session == old(c.session)
    {
      hide Valid, Owned, Shape, Session.Linked, Active, Orphans, FirstFree;
      CountFits();
      ActiveIsMember();
      ch := null;
      if count >= POOL_SIZE {
        return;
      }
      if s.count < CHANNELS_PER_PEER {
        var taken := Allocate();
        if taken != null {
          Label(taken, id);
          Attach(s, taken);
          ch := taken;
        }
      }
    }

    method Deallocate(ch: Channel)
      modifies this`count, ch`active
      ensures !ch.active && count == if old(count) > 0 then old(count) - 1 else 0
    {
      ch.active := false;
      if count > 0 {
        count := count - 1;
      }
    }

    /** Only the list of s and its channels were changed. */
    twostate lemma OthersStayOwned(s: Session)
      requires old(Valid()) && s in sessions
      requires forall t :: t in sessions && t != s ==> unchanged(t)
      requires forall c :: c in channels && c !in old(s.list) ==> unchanged(c)
      ensures forall t :: t in sessions && t != s ==> Owned(t)
    {
      hide Session.Linked, Shape;
      assert old(Owned(s));
      forall t | t in sessions && t != s ensures Owned(t) {
        assert old(Owned(t)) && forall c :: c in t.list ==> c !in old(s.list);
        Undisturbed(t);
      }
    }

    lemma OwnerHolds(s: Session, ch: Channel)
      requires Valid() && ch in channels && ch.session == s && ch.active
      ensures s in sessions && Owned(s) && ch in s.list && ch in Active() && s.Linked() && count == |Active()|
    {
    }

    /** Taking a channel off the list of its session and out of use. */
    method Release(s: Session, ch: Channel)
      requires Valid() && ch in channels && ch.session == s && ch.active
      modifies this`count, s, Elements(channels)`next, ch`active
      ensures Valid() && s.list == Without(old(s.list), ch)
      ensures Active() == old(Active()) - {ch} && Orphans() == old(Orphans()) && count == old(count) - 1
    {
      hide Session.Linked, Shape, Without;
      OwnerHolds(s, ch);
      s.RemovedElements(ch);
      s.Remove(ch);
      Deallocate(ch);
      OthersStayOwned(s);
      assert Active() == old(Active()) - {ch};
      assert Owned(s) by {
        assert forall c :: c in s.list ==> c in Elements(s.list);
      }
      forall c | c in channels && c.active && c.session == s ensures c in s.list {
        assert c in Elements(s.list);
      }
    }

    method MarkClosed(ch: Channel)
      requires Valid() && ch in channels
      modifies ch`open
      ensures Valid() && Active() == old(Active()) && Orphans() == old(Orphans())
      ensures !ch.open
    {
      ch.open := false;
      assert forall s :: s in sessions ==> Owned(s);
      assert Active() == old(Active());
    }

    lemma ListsAreEmpty()
      requires Valid()
      ensures count == 0 ==> forall t :: t in sessions ==> t.list == []
    {
      forall t | t in sessions && count == 0 ensures t.list == [] {
        OwnedIsActive(t);
        ElementsCount(t.list);
        assert Elements(t.list) == {};
      }
    }

    /** A channel that is not in use is released again: it is on no list, but the counter goes down. */
    method ReleaseAgain(s: Session, ch: Channel)
      requires Valid() && ch in channels && ch.session == s && !ch.active
      modifies this`count, s, Elements(channels)`next, ch`active
      ensures s.list == old(s.list) == Without(old(s.list), ch)
      ensures Active() == old(Active()) == old(Active()) - {ch} && Orphans() == old(Orphans())
      ensures count == if old(count) > 0 then old(count) - 1 else 0
      ensures Valid() <==> old(count) == 0
    {
      hide Session.Linked, Shape, Without, Distinct;
      assert Owned(s) && ch !in s.list;
      s.NothingRemoved(ch);
      ListsAreEmpty();
      s.Remove(ch);
      Deallocate(ch);
      assert Active() == old(Active());
      forall t | t in sessions && old(count) == 0 ensures Owned(t) {
        if t != s {
          Undisturbed(t);
        }
      }
    }

    /** Closing a channel. The pool counter stays right exactly when the channel was in use, or the
        association refused, or the counter was zero anyway: closing twice counts twice. */
    method CloseDataChannel(ch: Channel, ghost s: Session, closed: bool) returns (ok: bool)
      requires Valid() && ch in channels && ch.session == s
      modifies this`count, s, Elements(channels)
      ensures ok == closed
      ensures !closed ==> count == old(count) && unchanged(s) && forall c :: c in channels ==> unchanged(c)
      ensures closed ==> !ch.open && s.list == Without(old(s.list), ch)
      ensures closed ==> Active() == old(Active()) - {ch} && Orphans() == old(Orphans())
      ensures closed ==> count == if old(count) > 0 then old(count) - 1 else 0
      ensures Valid() <==> old(ch.active) || !closed || old(count) == 0
      ensures forall c :: c in channels && c != ch ==>
        c.channelId == old(c.channelId) && c.open == old(c.open)
      ensures forall c :: c in channels ==> c.session == old(c.session)
    {
      hide Owned, Session.Linked, Shape, Without;
      var owner: Session := ch.session;
      ok := closed;
      if closed {
        assert Owned(s);
        MarkClosed(ch);
        if ch.active {
          Release(owner, ch);
        } else {
          ReleaseAgain(owner, ch);
        }
      }
    }

    method GiveBack(ch: Channel)
      requires ch in Active() && count == |Active()|
      modifies this`count, ch`active
      ensures Active() == old(Active()) - {ch} && count == old(count) - 1 && count == |Active()|
    {
      Deallocate(ch);
      assert Active() == old(Active()) - {ch};
    }

    /** The first k channels of a list have been given back. */
    ghost predicate GivenBack(list: seq<Channel>, k: nat, before: set<Channel>, total: nat)
      reads this, Elements(channels)
    {
      && k <= |list|
      && Active() == before - Elements(list[..k])
      && count == total - k
      && count == |Active()|
    }

    method GiveBackNext(ghost list: seq<Channel>, ghost k: nat, ch: Channel,
                        ghost before: set<Channel>, ghost total: nat)
      requires k < |list| && ch == list[k] && Distinct(list) && Elements(list) <= before
      requires GivenBack(list, k, before, total)
      modifies this`count, ch`active
      ensures GivenBack(list, k + 1, before, total)
    {
      assert ch in Elements(list) && list[..k + 1] == list[..k] + [ch];
      GiveBack(ch);
    }

    /** Walks a list and gives its channels back. */
    method DeallocateList(s: Session)
      requires s.Linked() && Elements(s.list) <= Elements(channels)
      requires Elements(s.list) <= Active() && count == |Active()|
      modifies this`count, Elements(channels)`active
      ensures Active() == old(Active()) - Elements(s.list)
      ensures count == old(count) - |s.list| && count == |Active()|
    {
      hide Session.Linked, GivenBack, Active, Distinct, Elements;
      ghost var list, before, total := s.list, Active(), count;
      s.LinkedFacts();
      NothingGivenBack(list);
      var it := s.head;
      ghost var k := 0;
      while it != null
        invariant k <= |list| && it == At(list, k)
        invariant GivenBack(list, k, before, total)
        decreases |list| - k
      {
        InElements(list, k);
        GiveBackNext(list, k, it, before, total);
        it, k := it.next, k + 1;
      }
      AllGivenBack(list, before, total);
    }

    lemma NothingGivenBack(list: seq<Channel>)
      requires count == |Active()|
      ensures GivenBack(list, 0, Active(), count)
    {
    }

    lemma AllGivenBack(list: seq<Channel>, before: set<Channel>, total: nat)
      requires GivenBack(list, |list|, before, total)
      ensures Active() == before - Elements(list) && count == total - |list| && count == |Active()|
    {
      assert list[..|list|] == list;
    }

    twostate lemma Survivors(gone: set<Channel>)
      requires Active() == old(Active()) - gone
      ensures forall c :: c in channels ==> c.active == (old(c.active) && c !in gone)
    {
      forall c | c in channels ensures c.active == (old(c.active) && c !in gone) {
        assert c in Active() <==> c in old(Active()) && c !in gone;
      }
    }

    /** The channels of one session went out of use and its list was dropped; nothing else changed. */
    twostate predicate TornDown(s: Session)
      reads s, sessions, Elements(channels)
    {
      && (forall c :: c in channels ==> c.active == (old(c.active) && c !in Elements(old(s.list))))
      && (forall c :: c in channels ==> c.session == old(c.session) && c.next == old(c.next))
      && (forall t :: t in sessions && t != s ==> unchanged(t))
      && s.list == [] && s.head == null && s.count == 0
    }

    twostate lemma TornDownIsOwned(s: Session)
      requires old(Valid()) && s in sessions && TornDown(s)
      ensures forall t :: t in sessions ==> Owned(t)
    {
      assert old(Owned(s));
      forall t | t in sessions && t != s ensures Owned(t) {
        assert old(Owned(t));
        assert forall c :: c in t.list ==> c !in Elements(old(s.list));
        Undisturbed(t);
      }
    }

    twostate lemma TornDownIsListed(s: Session)
      requires old(Valid()) && s in sessions && TornDown(s)
      ensures forall ch :: ch in channels && ch.session != null ==> ch.session in sessions
      ensures forall ch :: ch in channels && ch.active && ch.session != null ==> ch in ch.session.list
      ensures Orphans() == old(Orphans())
    {
      assert old(Owned(s));
    }

    lemma OwnedIsActive(s: Session)
      requires Valid() && s in sessions
      ensures s.Linked() && Elements(s.list) <= Elements(channels) && Elements(s.list) <= Active()
      ensures count == |Active()|
    {
      assert Owned(s);
    }

    method DropList(s: Session)
      requires Valid() && s in sessions
      modifies this`count, s, Elements(channels)`active
      ensures TornDown(s) && count == old(count) - |old(s.list)| && count == |Active()|
      ensures Active() == old(Active()) - Elements(old(s.list))
    {
      OwnedIsActive(s);
      hide Valid, Owned, Active, Elements, Session.Linked;
      DeallocateList(s);
      s.Reset();
      Survivors(Elements(old(s.list)));
    }

    /** What closing a session does to its channels. */
    method Teardown(s: Session)
      requires Valid() && s in sessions
      modifies this`count, s, Elements(channels)`active
      ensures Valid() && s.list == [] && s.head == null && Orphans() == old(Orphans())
      ensures Active() == old(Active()) - Elements(old(s.list))
      ensures count == old(count) - |old(s.list)|
      ensures forall c :: c in channels ==> c.session == old(c.session)
    {
      hide Shape, Owned, Active, Orphans;
      DropList(s);
      TornDownIsOwned(s);
      TornDownIsListed(s);
    }

    // ---------- Conservation ----------

    ghost function TotalCount(k: nat): nat
      requires k <= |sessions|
      reads sessions
    {
      if k == 0 then 0 else TotalCount(k - 1) + sessions[k - 1].count
    }

    /** The channels in use that belong to the first k sessions. */
    ghost function HeldBy(k: nat): set<Channel>
      requires k <= |sessions|
      reads Elements(channels)
    {
      set ch | ch in channels && ch.active && ch.session in sessions[..k]
    }

    /** The channels in use that name a session are its list. */
    lemma MembersOf(s: Session)
      requires Valid() && s in sessions
      ensures (set ch | ch in channels && ch.active && ch.session == s) == Elements(s.list)
      ensures |Elements(s.list)| == s.count
    {
      hide Shape;
      assert Owned(s);
      ElementsCount(s.list);
    }

    lemma {:induction false} HeldIsCounted(k: nat)
      requires Valid() && k <= |sessions|
      ensures |HeldBy(k)| == TotalCount(k)
    {
      hide Owned, Elements, Distinct;
      if k == 0 {
        assert HeldBy(0) == {};
      } else {
        var s := sessions[k - 1];
        HeldIsCounted(k - 1);
        MembersOf(s);
        HeldByOneMore(k);
      }
    }

    lemma HeldByOneMore(k: nat)
      requires Shape() && 0 < k <= |sessions|
      ensures var members := set ch | ch in channels && ch.active && ch.session == sessions[k - 1];
        HeldBy(k) == HeldBy(k - 1) + members && HeldBy(k - 1) !! members
    {
      assert sessions[..k] == sessions[..k - 1] + [sessions[k - 1]] && sessions[k - 1] !in sessions[..k - 1];
    }

    /** The pool counter is the sum of the session counters and the channels lost to refused creates. */
    lemma CountersAgree()
      requires Valid()
      ensures count == TotalCount(|sessions|) + |Orphans()| && count <= POOL_SIZE
    {
      HeldIsCounted(|sessions|);
      CountFits();
      assert sessions[..|sessions|] == sessions;
      assert Active() == HeldBy(|sessions|) + Orphans() && HeldBy(|sessions|) !! Orphans();
    }

    // ---------- Runs ----------

    predicate InScope(op: Op) {
      match op
      case Create(s) => s in sessions
      case RemoteOpen(s, _) => s in sessions
      case Close(ch, _) => ch in channels
      case CloseSession(s) => s in sessions
    }

    /** Any sequence of calls. It is ended by the first call that breaks the heap invariant: the first close
        that goes through for a channel which is not in use while others are. A run without one keeps the
        invariant to its end. Then the channels in use and their owners are those of the model, and each
        create that was refused with a free channel in the pool lost that channel for good. Every channel
        in use is on a list exactly when no create met a session at its limit. A channel that names no
        session cannot be closed. */
    method Run(ops: seq<Op>) returns (done: nat, lost: nat)
      requires Valid() && forall op :: op in ops ==> InScope(op)
      modifies this`count, sessions, Elements(channels)
      ensures done <= |ops| && (Valid() <==> AllHarmless(channels, old(Owners()), old(Names()), ops))
      ensures if Valid() then done == |ops|
              else 0 < done && FirstHarmful(channels, old(Owners()), old(Names()), ops, done - 1)
      ensures Valid() ==> Owners() == AfterAll(channels, old(Owners()), ops)
      ensures Valid() ==> lost == Lost(channels, old(Owners()), ops)
      ensures Valid() ==> old(Orphans()) <= Orphans() && |Orphans()| == old(|Orphans()|) + lost
      ensures Valid() ==> (Strict() <==> old(Strict()) && InLimit(channels, old(Owners()), ops))
    {
      hide Valid, Owned, Shape, Session.Linked, Orphans, Owners, Names, After, NamesAfter, Refused, Harmless;
      lost, done := 0, 0;
      ghost var m, names := Owners(), Names();
      assert ops[0..] == ops;
      while done < |ops|
        invariant done <= |ops| && Valid()
        invariant old(Orphans()) <= Orphans() && |Orphans()| == old(|Orphans()|) + lost
        invariant AfterAll(channels, Owners(), ops[done..]) == AfterAll(channels, m, ops)
        invariant lost + Lost(channels, Owners(), ops[done..]) == Lost(channels, m, ops)
        invariant (Owners(), Names()) == StateAt(channels, m, names, ops, done)
        invariant forall k :: 0 <= k < done ==> HarmlessAt(channels, m, names, ops, k)
      {
        assert InScope(ops[done]) && ops[done..][1..] == ops[done + 1..];
        var broken, refused := Perform(ops[done]);
        lost := lost + (if refused then 1 else 0);
        done := done + 1;
        if broken {
          assert !HarmlessAt(channels, m, names, ops, done - 1);
          return;
        }
      }
      InLimitIff(channels, m, ops);
    }

    /** One call of a run; tells whether it broke the invariant, and whether it was a create refused with a
        free channel. */
    method Perform(op: Op) returns (broken: bool, refused: bool)
      requires Valid() && InScope(op)
      modifies this`count, sessions, Elements(channels)
      ensures broken == !Harmless(old(Owners()), old(Names()), op) && (Valid() <==> !broken)
      ensures !broken ==> Owners() == After(channels, old(Owners()), op)
      ensures !broken ==> Names() == NamesAfter(channels, old(Owners()), old(Names()), op)
      ensures refused == Refused(channels, old(Owners()), op)
      ensures !broken ==> old(Orphans()) <= Orphans() && |Orphans()| == old(|Orphans()|) + if refused then 1 else 0
    {
      hide Valid, After, Owners, Names, Orphans, Active, FirstFree, CountOf;
      broken, refused := false, false;
      match op
      case Create(s) => refused := PerformCreate(s);
      case RemoteOpen(s, id) => PerformOpen(s, id);
      case Close(ch, closed) => broken := PerformClose(ch, closed);
      case CloseSession(s) => PerformTeardown(s);
    }

    method PerformCreate(s: Session) returns (refused: bool)
      requires Valid() && s in sessions
      modifies this`count, s, Elements(channels)
      ensures Valid() && Owners() == After(channels, old(Owners()), Create(s))
      ensures Names() == NamesAfter(channels, old(Owners()), old(Names()), Create(s))
      ensures refused == Refused(channels, old(Owners()), Create(s))
      ensures old(Orphans()) <= Orphans() && |Orphans()| == old(|Orphans()|) + if refused then 1 else 0
    {
      hide Valid, Orphans, Active, Owners, Names, CountOf, FirstFree;
      CountIsOwned(s);
      var free := count < POOL_SIZE;
      CountFits();
      ActiveIsMember();
      var ok, _, taken := CreateDataChannel(s);
      ActiveIsMember();
      refused := !ok && free;
      if taken != null {
        OwnerAdded(taken);
        NamesChanged(taken);
      } else {
        OwnersKept();
        NamesKept();
      }
    }

    method PerformOpen(s: Session, id: ChannelId)
      requires Valid() && s in sessions
      modifies this`count, s, Elements(channels)
      ensures Valid() && Owners() == After(channels, old(Owners()), RemoteOpen(s, id))
      ensures Names() == NamesAfter(channels, old(Owners()), old(Names()), RemoteOpen(s, id))
      ensures Orphans() == old(Orphans())
    {
      hide Valid, Orphans, Active, Owners, Names, CountOf, FirstFree;
      CountIsOwned(s);
      FreeIff();
      CountFits();
      var ch := OnDataChannelOpen(s, id);
      ActiveIsMember();
      if ch != null {
        OwnerAdded(ch);
        NamesChanged(ch);
      } else {
        OwnersKept();
        NamesKept();
      }
    }

    method PerformClose(ch: Channel, closed: bool) returns (broken: bool)
      requires Valid() && ch in channels
      modifies this`count, sessions, Elements(channels)
      ensures broken == !Harmless(old(Owners()), old(Names()), Close(ch, closed)) && (Valid() <==> !broken)
      ensures Owners() == After(channels, old(Owners()), Close(ch, closed))
      ensures Names() == old(Names()) && Orphans() == old(Orphans())
    {
      hide Valid, Orphans;
      NoneActive();
      broken := false;
      if ch.session != null {
        OwnerIsKnown(ch);
        broken := closed && !ch.active && count > 0;
        var ok := CloseDataChannel(ch, ch.session, closed);
        NamesKept();
        if ok {
          OwnerRemoved(ch);
        }
      }
    }

    lemma NoneActive()
      requires Valid()
      ensures count == 0 <==> Owners() == map[]
    {
      assert Owners().Keys == Active();
    }

    method PerformTeardown(s: Session)
      requires Valid() && s in sessions
      modifies this`count, s, Elements(channels)
      ensures Valid() && Owners() == After(channels, old(Owners()), CloseSession(s))
      ensures Names() == old(Names()) && Orphans() == old(Orphans())
    {
      hide Valid, Orphans;
      MembersOf(s);
      Teardown(s);
      NamesKept();
    }

    lemma FreeIff()
      requires Valid()
      ensures FirstFree(channels, Active()) == null <==> count == POOL_SIZE
    {
      AllActive();
      if count == POOL_SIZE {
        FullPool();
      } else {
        var k :| 0 <= k < POOL_SIZE && !channels[k].active;
        SomeFree(channels, Active(), k);
      }
    }
  }

  datatype Op = Create(s: Session) | RemoteOpen(s: Session, id: ChannelId) | Close(ch: Channel, closed: bool)
              | CloseSession(s: Session)

  // ---------- The pool as a map from channels to owners ----------

  type Ownership = map<Channel, Session?>

  type Naming = map<Channel, Session?>

  ghost function FirstFree(chs: seq<Channel>, used: set<Channel>): Channel? {
    if chs == [] then null else if chs[0] !in used then chs[0] else FirstFree(chs[1..], used)
  }

  ghost function CountOf(m: Ownership, s: Session): nat {
    |set ch | ch in m && m[ch] == s|
  }

  /** A create refused although the pool has a free channel. */
  ghost predicate Refused(chs: seq<Channel>, m: Ownership, op: Op) {
    op.Create? && FirstFree(chs, m.Keys) != null && CountOf(m, op.s) >= CHANNELS_PER_PEER
  }

  ghost function After(chs: seq<Channel>, m: Ownership, op: Op): Ownership {
    match op
    case Create(s) =>
      var ch := FirstFree(chs, m.Keys);
      if ch == null then m else m[ch := if CountOf(m, s) < CHANNELS_PER_PEER then s else null]
    case RemoteOpen(s, _) =>
      var ch := FirstFree(chs, m.Keys);
      if ch == null || CountOf(m, s) >= CHANNELS_PER_PEER then m else m[ch := s]
    case Close(ch, closed) =>
      if closed && ch in m && m[ch] != null then m - {ch} else m
    case CloseSession(s) =>
      map ch | ch in m && m[ch] != s :: m[ch]
  }

  ghost function AfterAll(chs: seq<Channel>, m: Ownership, ops: seq<Op>): Ownership
    decreases |ops|
  {
    if ops == [] then m else AfterAll(chs, After(chs, m, ops[0]), ops[1..])
  }

  /** A channel names the session it was last given to; taking it from the pool clears it. */
  ghost function NamesAfter(chs: seq<Channel>, m: Ownership, names: Naming, op: Op): Naming {
    var ch := FirstFree(chs, m.Keys);
    match op
    case Create(s) =>
      if ch == null then names else names[ch := if CountOf(m, s) < CHANNELS_PER_PEER then s else null]
    case RemoteOpen(s, _) => if ch == null || CountOf(m, s) >= CHANNELS_PER_PEER then names else names[ch := s]
    case _ => names
  }

  /** The owners and the names before the k-th call of a run. */
  ghost function StateAt(chs: seq<Channel>, m: Ownership, names: Naming, ops: seq<Op>, k: nat): (Ownership, Naming)
    requires k <= |ops|
  {
    if k == 0 then (m, names)
    else
      var (m', names') := StateAt(chs, m, names, ops, k - 1);
      (After(chs, m', ops[k - 1]), NamesAfter(chs, m', names', ops[k - 1]))
  }

  /** A close is for a channel in use or one that names no session, or is refused, or no channel is in use. */
  ghost predicate Harmless(m: Ownership, names: Naming, op: Op) {
    op.Close? && op.closed && op.ch !in m && op.ch in names && names[op.ch] != null ==> m == map[]
  }

  ghost predicate HarmlessAt(chs: seq<Channel>, m: Ownership, names: Naming, ops: seq<Op>, k: nat)
    requires k < |ops|
  {
    Harmless(StateAt(chs, m, names, ops, k).0, StateAt(chs, m, names, ops, k).1, ops[k])
  }

  ghost predicate AllHarmless(chs: seq<Channel>, m: Ownership, names: Naming, ops: seq<Op>) {
    forall k :: 0 <= k < |ops| ==> HarmlessAt(chs, m, names, ops, k)
  }

  ghost predicate FirstHarmful(chs: seq<Channel>, m: Ownership, names: Naming, ops: seq<Op>, k: nat) {
    && k < |ops| && !HarmlessAt(chs, m, names, ops, k)
    && forall j :: 0 <= j < k ==> HarmlessAt(chs, m, names, ops, j)
  }

  /** The number of refused creates of a run. */
  ghost function Lost(chs: seq<Channel>, m: Ownership, ops: seq<Op>): nat
    decreases |ops|
  {
    if ops == [] then 0
    else (if Refused(chs, m, ops[0]) then 1 else 0) + Lost(chs, After(chs, m, ops[0]), ops[1..])
  }

  /** No create comes to a session at its limit while the pool has a free channel. */
  ghost predicate InLimit(chs: seq<Channel>, m: Ownership, ops: seq<Op>)
    decreases |ops|
  {
    ops != [] ==> !Refused(chs, m, ops[0]) && InLimit(chs, After(chs, m, ops[0]), ops[1..])
  }

  lemma {:induction false} InLimitIff(chs: seq<Channel>, m: Ownership, ops: seq<Op>)
    ensures InLimit(chs, m, ops) <==> Lost(chs, m, ops) == 0
    decreases |ops|
  {
    if ops != [] {
      InLimitIff(chs, After(chs, m, ops[0]), ops[1..]);
    }
  }

  // ---------- Two runs of a new pool ----------

  /** Three creates of one session lose a channel. */
  lemma ThirdCreateIsLost(chs: seq<Channel>, s: Session)
    requires |chs| == POOL_SIZE && Distinct(chs)
    ensures Lost(chs, map[], [Create(s), Create(s), Create(s)]) == 1
  {
    hide Lost, FirstFree, CountOf;
    var m1: Ownership := map[chs[0] := s];
    var m2 := m1[chs[1] := s];
    TwoCreates(chs, s, map[]);
    FirstFreeAt(chs, m2.Keys, 2);
    assert CountOf(m2, s) == 2 by {
      CountIs(m2, s, {chs[0], chs[1]});
    }
    LostOne(chs, map[], Create(s), [Create(s)] + ([Create(s)] + []));
    LostOne(chs, m1, Create(s), [Create(s)] + []);
    LostOne(chs, m2, Create(s), []);
    LostNone(chs, After(chs, m2, Create(s)));
    assert [Create(s)] + ([Create(s)] + ([Create(s)] + [])) == [Create(s), Create(s), Create(s)];
  }

  /** Two creates of one session take the first two channels. */
  lemma TwoCreates(chs: seq<Channel>, s: Session, names: Naming)
    requires |chs| == POOL_SIZE && Distinct(chs)
    ensures After(chs, map[], Create(s)) == map[chs[0] := s] && !Refused(chs, map[], Create(s))
    ensures NamesAfter(chs, map[], names, Create(s)) == names[chs[0] := s]
    ensures var m1: Ownership := map[chs[0] := s];
      && After(chs, m1, Create(s)) == m1[chs[1] := s] && !Refused(chs, m1, Create(s))
      && NamesAfter(chs, m1, names, Create(s)) == names[chs[1] := s]
  {
    hide FirstFree, CountOf;
    var m0: Ownership := map[];
    var m1: Ownership := map[chs[0] := s];
    FirstFreeAt(chs, m0.Keys, 0);
    FirstFreeAt(chs, m1.Keys, 1);
    CountIs(m0, s, {});
    CountIs(m1, s, {chs[0]});
  }

  lemma CountIs(m: Ownership, s: Session, held: set<Channel>)
    requires forall ch :: ch in held <==> ch in m && m[ch] == s
    ensures CountOf(m, s) == |held|
  {
    assert (set ch | ch in m && m[ch] == s) == held;
  }

  lemma LostOne(chs: seq<Channel>, m: Ownership, op: Op, rest: seq<Op>)
    ensures Lost(chs, m, [op] + rest) == (if Refused(chs, m, op) then 1 else 0) + Lost(chs, After(chs, m, op), rest)
  {
    hide Refused, After;
    assert ([op] + rest)[1..] == rest;
  }

  lemma LostNone(chs: seq<Channel>, m: Ownership)
    ensures Lost(chs, m, []) == 0
  {
  }

  /** Two creates and the same channel closed twice: the fourth call counts down once too often. */
  lemma ClosedTwiceIsHarmful(chs: seq<Channel>, s: Session, names: Naming)
    requires |chs| == POOL_SIZE && Distinct(chs)
    ensures FirstHarmful(chs, map[], names, [Create(s), Create(s), Close(chs[0], true), Close(chs[0], true)], 3)
  {
    hide FirstFree, CountOf;
    var ops := [Create(s), Create(s), Close(chs[0], true), Close(chs[0], true)];
    var m1: Ownership := map[chs[0] := s];
    var m2 := m1[chs[1] := s];
    var names1 := names[chs[0] := s];
    TwoCreates(chs, s, names);
    TwoCreates(chs, s, names1);
    assert StateAt(chs, map[], names, ops, 1) == (m1, names1);
    assert StateAt(chs, map[], names, ops, 2) == (m2, names1[chs[1] := s]);
    var m3: Ownership := map[chs[1] := s];
    assert m2 - {chs[0]} == m3;
    assert StateAt(chs, map[], names, ops, 3) == (m3, names1[chs[1] := s]);
    DistinctAt(chs, 0, 1);
    assert chs[1] in m3 && chs[0] !in m3 && names1[chs[1] := s][chs[0]] == s;
    assert !HarmlessAt(chs, map[], names, ops, 3);
    assert HarmlessAt(chs, map[], names, ops, 0) && HarmlessAt(chs, map[], names, ops, 1);
    assert HarmlessAt(chs, map[], names, ops, 2);
  }

  lemma {:induction false} FirstFreeAt(chs: seq<Channel>, used: set<Channel>, k: nat)
    requires k <= |chs| && forall j :: 0 <= j < k ==> chs[j] in used
    requires k < |chs| ==> chs[k] !in used
    ensures FirstFree(chs, used) == if k < |chs| then chs[k] else null
  {
    if k > 0 {
      FirstFreeAt(chs[1..], used, k - 1);
    }
  }

  lemma {:induction false} SomeFree(chs: seq<Channel>, used: set<Channel>, k: nat)
    requires k < |chs| && chs[k] !in used
    ensures FirstFree(chs, used) != null
  {
    if k > 0 {
      SomeFree(chs[1..], used, k - 1);
    }
  }

  lemma {:induction false} ElementsCount(list: seq<Channel>)
    requires Distinct(list)
    ensures |Elements(list)| == |list|
  {
    if list != [] {
      ElementsCount(list[1..]);
      assert Elements(list) == {list[0]} + Elements(list[1..]);
    }
  }

  lemma SubsetSize<T>(a: set<T>, b: set<T>)
    requires a <= b
    ensures |a| <= |b|
    ensures |a| == |b| ==> a == b
  {
    assert b == a + (b - a);
  }
}
