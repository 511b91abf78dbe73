/** Which session a message of a remote client goes to. */
module SessionTables {
  import opened Wrappers

  const MAX_ID := 256

  /** A session with the client it was last started for, and whether it is back in the inited state. */
  datatype Entry = Entry(id: string, inited: bool)

  /** strncmp over the whole of two ids of the same length: a zero character ends both. */
  predicate SameText(a: string, b: string)
    requires |a| == |b|
    decreases |a|
  {
    a == [] || (a[0] == b[0] && (a[0] == '\0' || SameText(a[1..], b[1..])))
  }

  predicate Matches(a: string, b: string) {
    |a| == |b| && SameText(a, b)
  }

  lemma {:induction false} SameTextSymmetric(a: string, b: string)
    requires |a| == |b|
    ensures SameText(a, b) == SameText(b, a)
    decreases |a|
  {
    if a != [] {
      SameTextSymmetric(a[1..], b[1..]);
    }
  }

  lemma {:induction false} SameTextTransitive(a: string, b: string, c: string)
    requires |a| == |b| == |c| && SameText(a, b) && SameText(b, c)
    ensures SameText(a, c)
    decreases |a|
  {
    if a != [] && a[0] != '\0' {
      SameTextTransitive(a[1..], b[1..], c[1..]);
    }
  }

  lemma MatchesIsSymmetric(a: string, b: string)
    ensures Matches(a, b) <==> Matches(b, a)
  {
    if |a| == |b| {
      SameTextSymmetric(a, b);
    }
  }

  /** Two ids that match a third match each other. */
  lemma MatchesIsTransitive(a: string, b: string, c: string)
    requires Matches(a, b) && Matches(c, b)
    ensures Matches(a, c)
  {
    SameTextSymmetric(c, b);
    SameTextTransitive(a, b, c);
  }

  lemma {:induction false} MatchesIsReflexive(a: string)
    ensures Matches(a, a)
    decreases |a|
  {
    if a != [] {
      MatchesIsReflexive(a[1..]);
    }
  }

  /** Without zero characters the comparison is equality. */
  lemma {:induction false} MatchesIsEquality(a: string, b: string)
    requires '\0' !in a
    ensures Matches(a, b) <==> a == b
    decreases |a|
  {
    if a != [] && |a| == |b| {
      MatchesIsEquality(a[1..], b[1..]);
      assert a == [a[0]] + a[1..] && b == [b[0]] + b[1..];
    }
  }

  // ---------- Routing ----------

  function FirstMatch(t: seq<Entry>, id: string): (i: nat)
    ensures i <= |t|
  {
    if t == [] || Matches(t[0].id, id) then 0 else 1 + FirstMatch(t[1..], id)
  }

  function FirstInited(t: seq<Entry>): (i: nat)
    ensures i <= |t|
  {
    if t == [] || t[0].inited then 0 else 1 + FirstInited(t[1..])
  }

  /** The first session bound to the client, or else the first inited one. */
  function Route(t: seq<Entry>, id: string): Option<nat> {
    if FirstMatch(t, id) < |t| then Some(FirstMatch(t, id))
    else if FirstInited(t) < |t| then Some(FirstInited(t))
    else None
  }

  /** The new table and the answer. Starting the session may also fail for a reason outside the table. */
  function Lookup(t: seq<Entry>, id: string, starts: bool): (seq<Entry>, Option<nat>) {
    var r := Route(t, id);
    if r.None? then (t, None)
    else if !t[r.value].inited then (t, r)
    else if starts && |id| <= MAX_ID then (t[r.value := Entry(id, false)], r)
    else (t, None)
  }

  lemma {:induction false} FirstMatchIff(t: seq<Entry>, id: string, i: nat)
    requires i <= |t|
    ensures FirstMatch(t, id) == i <==>
            (i < |t| ==> Matches(t[i].id, id)) && forall k :: 0 <= k < i ==> !Matches(t[k].id, id)
    decreases |t|
  {
    if t != [] && i > 0 {
      FirstMatchIff(t[1..], id, i - 1);
      assert forall k :: 0 < k < i ==> t[k] == t[1..][k - 1];
    }
  }

  lemma {:induction false} FirstInitedIff(t: seq<Entry>, i: nat)
    requires i <= |t|
    ensures FirstInited(t) == i <==> (i < |t| ==> t[i].inited) && forall k :: 0 <= k < i ==> !t[k].inited
    decreases |t|
  {
    if t != [] && i > 0 {
      FirstInitedIff(t[1..], i - 1);
      assert forall k :: 0 < k < i ==> t[k] == t[1..][k - 1];
    }
  }

  // ---------- The invariant ----------

  /** No two sessions are bound to one client; the empty id is nobody's. */
  ghost predicate Distinct(t: seq<Entry>) {
    forall j, k :: 0 <= j < |t| && 0 <= k < |t| && j != k && t[j].id != "" ==> !Matches(t[j].id, t[k].id)
  }

  lemma LookupKeepsDistinct(t: seq<Entry>, id: string, starts: bool)
    requires Distinct(t)
    ensures Distinct(Lookup(t, id, starts).0)
  {
    var t' := Lookup(t, id, starts).0;
    FirstMatchIff(t, id, FirstMatch(t, id));
    if t' != t {
      var r := Route(t, id).value;
      forall k | 0 <= k < |t| && k != r ensures Matches(t[k].id, id) ==> id == "" {
        if Matches(t[k].id, id) {
          MatchesIsTransitive(t[k].id, id, t[r].id);
        }
      }
      OnlyOne(t, id, r);
    }
  }

  lemma OnlyOne(t: seq<Entry>, id: string, r: nat)
    requires Distinct(t) && r < |t| && forall k :: 0 <= k < |t| && k != r ==> Matches(t[k].id, id) ==> id == ""
    ensures Distinct(t[r := Entry(id, false)])
  {
    var t' := t[r := Entry(id, false)];
    forall j, k | 0 <= j < |t'| && 0 <= k < |t'| && j != k && t'[j].id != ""
      ensures !Matches(t'[j].id, t'[k].id)
    {
      if j == r {
        MatchesIsSymmetric(id, t[k].id);
      } else if k != r {
        assert t'[j] == t[j] && t'[k] == t[k];
      }
    }
  }

  // ---------- Runs ----------

  /** A lookup, or a change of a session's state elsewhere: it left or came back to the inited state. */
  datatype Event = LookedUp(id: string, starts: bool) | Left(i: nat) | CameBack(i: nat)

  function Step(t: seq<Entry>, e: Event): (t': seq<Entry>)
    ensures |t'| == |t|
  {
    match e
    case LookedUp(id, starts) => Lookup(t, id, starts).0
    case Left(i) => if i < |t| then t[i := t[i].(inited := false)] else t
    case CameBack(i) => if i < |t| then t[i := t[i].(inited := true)] else t
  }

  function Run(t: seq<Entry>, events: seq<Event>): (t': seq<Entry>)
    ensures |t'| == |t|
    decreases |events|
  {
    if events == [] then t else Run(Step(t, events[0]), events[1..])
  }

  lemma StepKeepsDistinct(t: seq<Entry>, e: Event)
    requires Distinct(t)
    ensures Distinct(Step(t, e))
  {
    match e
    case LookedUp(id, starts) => LookupKeepsDistinct(t, id, starts);
    case Left(i) =>
      assert forall k :: 0 <= k < |t| ==> Step(t, e)[k].id == t[k].id;
    case CameBack(i) =>
      assert forall k :: 0 <= k < |t| ==> Step(t, e)[k].id == t[k].id;
  }

  /** Over every run no two sessions are bound to one client. */
  lemma {:induction false} ClientsStayDistinct(t: seq<Entry>, events: seq<Event>)
    requires Distinct(t)
    ensures Distinct(Run(t, events))
    decreases |events|
  {
    if events != [] {
      StepKeepsDistinct(t, events[0]);
      ClientsStayDistinct(Step(t, events[0]), events[1..]);
    }
  }

  /** In terms of equality, for ids without zero characters. */
  lemma DistinctIds(t: seq<Entry>, events: seq<Event>, j: nat, k: nat)
    requires Distinct(t) && j < |t| && k < |t| && j != k
    requires Run(t, events)[j].id != "" && '\0' !in Run(t, events)[j].id
    ensures Run(t, events)[j].id != Run(t, events)[k].id
  {
    ClientsStayDistinct(t, events);
    MatchesIsEquality(Run(t, events)[j].id, Run(t, events)[k].id);
  }

  /** A lookup changes the client of session i exactly when i is inited, the lookup comes to i, it is
      for another id, and the start goes through. */
  lemma DisplacedIff(t: seq<Entry>, id: string, starts: bool, i: nat)
    requires i < |t|
    ensures Lookup(t, id, starts).0[i].id != t[i].id <==>
            t[i].inited && Route(t, id) == Some(i) && id != t[i].id && starts && |id| <= MAX_ID
  {
    FirstMatchIff(t, id, FirstMatch(t, id));
    FirstInitedIff(t, FirstInited(t));
  }

  /** A client bound to a session that is not inited is routed to it, and the answer never fails. */
  lemma BoundIsRouted(t: seq<Entry>, id: string, starts: bool, i: nat)
    requires Distinct(t) && i < |t| && id != "" && !t[i].inited && Matches(t[i].id, id)
    ensures Lookup(t, id, starts) == (t, Some(i))
  {
    var m := FirstMatch(t, id);
    FirstMatchIff(t, id, m);
    if m < |t| && m != i {
      MatchesIsTransitive(t[i].id, id, t[m].id);
    }
  }

  /** The binding holds over every run in which that session does not come back to the inited state. */
  lemma {:induction false} BindingHolds(t: seq<Entry>, events: seq<Event>, i: nat)
    requires i < |t| && !t[i].inited && CameBack(i) !in events
    ensures Run(t, events)[i] == t[i]
    decreases |events|
  {
    if events != [] {
      var e := events[0];
      if e.LookedUp? {
        DisplacedIff(t, e.id, e.starts, i);
        FirstMatchIff(t, e.id, FirstMatch(t, e.id));
        FirstInitedIff(t, FirstInited(t));
      }
      assert Step(t, e)[i] == t[i];
      BindingHolds(Step(t, e), events[1..], i);
    }
  }

  /** Sticky routing: while its session is not inited, every lookup of a client goes to that session. */
  lemma RoutingIsSticky(t: seq<Entry>, events: seq<Event>, i: nat, starts: bool)
    requires Distinct(t) && i < |t| && t[i].id != "" && !t[i].inited && CameBack(i) !in events
    ensures Lookup(Run(t, events), t[i].id, starts) == (Run(t, events), Some(i))
  {
    ClientsStayDistinct(t, events);
    BindingHolds(t, events, i);
    MatchesIsReflexive(t[i].id);
    BoundIsRouted(Run(t, events), t[i].id, starts, i);
  }

  // ---------- What a lookup leaves behind ----------

  /** Session i is answered exactly when it is the first one bound to the client, or nobody is and it is
      the first inited one; and it is in use already, or the start goes through. */
  lemma AnswerIff(t: seq<Entry>, id: string, starts: bool, i: nat)
    ensures Lookup(t, id, starts).1 == Some(i) <==>
            && i < |t|
            && (|| (Matches(t[i].id, id) && forall k :: 0 <= k < i ==> !Matches(t[k].id, id))
                || (&& (forall k :: 0 <= k < |t| ==> !Matches(t[k].id, id))
                    && t[i].inited && forall k :: 0 <= k < i ==> !t[k].inited))
            && (t[i].inited ==> starts && |id| <= MAX_ID)
  {
    FirstMatchIff(t, id, FirstMatch(t, id));
    FirstInitedIff(t, FirstInited(t));
    if i < |t| {
      FirstMatchIff(t, id, i);
      FirstMatchIff(t, id, |t|);
      FirstInitedIff(t, i);
    }
  }

  /** The session that is answered is bound to the client and in use, whether it was so before or the
      lookup started it; no other session changes. A lookup without an answer changes nothing. */
  lemma AnswerIsInUse(t: seq<Entry>, id: string, starts: bool)
    ensures var (t', r) := Lookup(t, id, starts);
      && (r.None? ==> t' == t)
      && (r.Some? ==> r.value < |t'| == |t| && Matches(t'[r.value].id, id) && !t'[r.value].inited
                      && forall k :: 0 <= k < |t| && k != r.value ==> t'[k] == t[k])
  {
    FirstMatchIff(t, id, FirstMatch(t, id));
    FirstInitedIff(t, FirstInited(t));
    MatchesIsReflexive(id);
  }

  /** A client that is bound to no session is never given one that another client uses. */
  lemma NewClientGetsFreeSession(t: seq<Entry>, id: string, starts: bool)
    requires forall k :: 0 <= k < |t| ==> !Matches(t[k].id, id)
    ensures var r := Lookup(t, id, starts).1; r.Some? ==> r.value < |t| && t[r.value].inited
  {
    if Lookup(t, id, starts).1.Some? {
      AnswerIff(t, id, starts, Lookup(t, id, starts).1.value);
    }
  }

  /** From the lookup that answers on, and until that session comes back to the inited state, every lookup
      of the client goes to it, whatever the other clients do. */
  lemma StickyFromLookup(t: seq<Entry>, id: string, starts: bool, events: seq<Event>, again: bool)
    requires Distinct(t) && id != "" && Lookup(t, id, starts).1.Some?
    requires CameBack(Lookup(t, id, starts).1.value) !in events
    ensures var (t', r) := Lookup(t, id, starts);
      Lookup(Run(t', events), id, again) == (Run(t', events), r)
  {
    hide Lookup, Distinct;
    var (t', r) := Lookup(t, id, starts);
    AnswerIsInUse(t, id, starts);
    LookupKeepsDistinct(t, id, starts);
    BindingHolds(t', events, r.value);
    ClientsStayDistinct(t', events);
    BoundIsRouted(Run(t', events), id, again, r.value);
  }

  // ---------- In place ----------

  class SessionTable {
    const sessions: array<Entry>

    constructor (n: nat)
      ensures fresh(sessions) && sessions[..] == seq(n, _ => Entry("", true)) && Distinct(sessions[..])
    {
      sessions := new Entry[n](_ => Entry("", true));
      new;
      assert sessions[..] == seq(n, _ => Entry("", true));
    }

    /** The loop over the sessions: the first match ends it, the first inited session is kept. */
    method Find(id: string) returns (i: Option<nat>)
      ensures i == Route(sessions[..], id)
    {
      FirstMatchIff(sessions[..], id, FirstMatch(sessions[..], id));
      FirstInitedIff(sessions[..], FirstInited(sessions[..]));
      i := None;
      var k := 0;
      while k < sessions.Length
        invariant k <= sessions.Length
        invariant forall j :: 0 <= j < k ==> !Matches(sessions[..][j].id, id)
        invariant i.Some? ==> i.value < k && sessions[i.value].inited
                              && forall j :: 0 <= j < i.value ==> !sessions[..][j].inited
        invariant i.None? ==> forall j :: 0 <= j < k ==> !sessions[..][j].inited
      {
        assert sessions[..][k] == sessions[k];
        if Matches(sessions[k].id, id) {
          FirstMatchIff(sessions[..], id, k);
          return Some(k);
        }
        if i.None? && sessions[k].inited {
          i := Some(k);
        }
        k := k + 1;
      }
      FirstMatchIff(sessions[..], id, k);
      FirstInitedIff(sessions[..], if i.Some? then i.value else k);
    }

    /** The session for a client, started for it if it was inited. */
    method GetPeerConnectionSession(id: string, starts: bool) returns (i: Option<nat>)
      modifies sessions
      ensures (sessions[..], i) == Lookup(old(sessions[..]), id, starts)
    {
      i := Find(id);
      if i.Some? && sessions[i.value].inited {
        if |id| > MAX_ID || !starts {
          i := None;
        } else {
          sessions[i.value] := Entry(id, false);
        }
      }
    }
  }
}
