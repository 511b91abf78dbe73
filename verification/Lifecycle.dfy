/** Several sessions and one media source: the counters of the media source agree with the states of
the sessions, over every interleaving. */
module Lifecycle {
  import opened SessionModel
  import opened MediaSources
  import opened Wrappers

  /** A session, and the tracks the media source counts it for. The latter is not program state. */
  datatype Peer = Peer(session: Session, counted: set<Track>)

  datatype System = System(peers: seq<Peer>, media: Media)

  /** A step of a session, or one callback of a session reaching the media source. */
  datatype Action = On(i: nat, event: Event) | Deliver(i: nat)

  function Counted(c: set<Track>, n: Notice): set<Track> {
    match n
    case PeerReady(t) => c + {t}
    case PeerClosed(t) => c - {t}
  }

  predicate InRange(sys: System, a: Action) {
    && a.i < |sys.peers| < 0x8000_0000
  }

  function Apply(sys: System, a: Action): (sys': System)
    requires InRange(sys, a)
    ensures |sys'.peers| == |sys.peers|
  {
    var p := sys.peers[a.i];
    match a
    case On(i, e) => sys.(peers := sys.peers[i := p.(session := Step(p.session, e))])
    case Deliver(i) =>
      if p.session.pending == [] then
        sys
      else
        var n := p.session.pending[0];
        System(sys.peers[i := Peer(p.session.(pending := p.session.pending[1..]), Counted(p.counted, n))],
               Take(sys.media, n, |sys.peers|))
  }

  // ---------- The invariant ----------

  predicate Fits(c: set<Track>, n: Notice) {
    n.PeerReady? != (n.track in c)
  }

  /** The tracks a session is counted for once its pending callbacks are through; none if a callback
      would count a track twice or take away one that is not counted. */
  function Settle(c: set<Track>, pending: seq<Notice>): Option<set<Track>>
    decreases |pending|
  {
    if pending == [] then
      Some(c)
    else if Fits(c, pending[0]) then
      Settle(Counted(c, pending[0]), pending[1..])
    else
      None
  }

  predicate Active(s: State) {
    s.Start? || s.FindConnection? || s.P2PConnectionFound? || s.ConnectionReady?
  }

  predicate PeerOk(p: Peer) {
    && Settle(p.counted, p.session.pending) == Some(if p.session.state.ConnectionReady? then {Video, Audio} else {})
    && (Active(p.session.state) ==> p.session.transceivers == BOTH)
    && (p.session.state.ConnectionReady? ==> p.session.dtls.Ready?)
    && |p.session.transceivers| <= MAX_TRANSCEIVERS
  }

  function Count(peers: seq<Peer>, t: Track): (n: nat)
    ensures n <= |peers|
  {
    if peers == [] then 0 else (if t in peers[0].counted then 1 else 0) + Count(peers[1..], t)
  }

  predicate MediaOk(peers: seq<Peer>, m: Media) {
    && m.video == Count(peers, Video)
    && m.audio == Count(peers, Audio)
    && m.total == m.video + m.audio
    && m.running == (m.total > 0)
  }

  predicate Inv(sys: System) {
    && (forall p :: p in sys.peers ==> PeerOk(p))
    && MediaOk(sys.peers, sys.media)
  }

  // ---------- One session ----------

  lemma {:induction false} SettleAppend(c: set<Track>, p: seq<Notice>, q: seq<Notice>)
    ensures Settle(c, p + q) == if Settle(c, p).None? then None else Settle(Settle(c, p).value, q)
    decreases |p|
  {
    if p == [] {
      assert p + q == q;
    } else {
      assert (p + q)[1..] == p[1..] + q;
      if Fits(c, p[0]) {
        SettleAppend(Counted(c, p[0]), p[1..], q);
      }
    }
  }

  /** A round of callbacks for both transceivers turns nothing into everything, or back. */
  lemma RoundSettles(c: set<Track>, pending: seq<Notice>, ready: bool)
    requires Settle(c, pending) == Some(if ready then {} else {Video, Audio})
    ensures Settle(c, pending + Notices(ready, BOTH)) == Some(if ready then {Video, Audio} else {})
  {
    var n := Notices(ready, BOTH);
    var c0 := if ready then {} else {Video, Audio};
    SettleAppend(c, pending, n);
    assert n[1..][0] == n[1] && n[1..][1..] == [];
    assert Counted(Counted(c0, n[0]), n[1]) == if ready then {Video, Audio} else {};
    assert Settle(Counted(c0, n[0]), n[1..]) == Settle(Counted(Counted(c0, n[0]), n[1]), []);
  }

  lemma CloseKeeps(p: Peer)
    requires PeerOk(p)
    ensures PeerOk(p.(session := CloseSession(p.session)))
  {
    if p.session.state.ConnectionReady? {
      RoundSettles(p.counted, p.session.pending, false);
    }
  }

  lemma CompleteKeepsIff(p: Peer, setupOk: bool)
    requires PeerOk(p) && !p.session.state.ConnectionReady?
    ensures PeerOk(p.(session := HandshakeComplete(p.session, setupOk)))
            <==> (setupOk ==> p.session.transceivers == BOTH)
  {
    if p.session.transceivers == BOTH {
      RoundSettles(p.counted, p.session.pending, true);
    }
  }

  /** The steps that keep the invariant, told before they happen. */
  predicate Harmless(s: Session, e: Event) {
    match e
    case RemoteDescription(r) =>
      && (!r.Rejected? ==> !s.state.ConnectionReady?)
      && (r.Accepted? ==> s.transceivers == BOTH)
    case ConnectionFound(o) =>
      && s.transceivers == BOTH
      && (o.timedOut || !(s.state.ConnectionReady? || (Completes(s, o.answer) && o.setupOk)))
    case PacketReceived(o) =>
      PacketCompletes(s, o.answer) && o.setupOk ==> s.transceivers == BOTH
    case IceClosed => !s.state.ConnectionReady?
    case _ => true
  }

  lemma HandshakeKeeps(p: Peer, o: Outcome)
    requires PeerOk(p) && p.session.transceivers == BOTH
    ensures PeerOk(p.(session := ExecuteHandshake(p.session, o)))
  {
    var s := p.session;
    if Completes(s, o.answer) {
      CompleteKeepsIff(p, o.setupOk);
      CloseKeeps(p.(session := HandshakeComplete(s, o.setupOk)));
    } else {
      CloseKeeps(p);
    }
  }

  lemma FoundKeepsIff(p: Peer, o: Outcome)
    requires PeerOk(p)
    ensures PeerOk(p.(session := Found(p.session, o))) <==> Harmless(p.session, ConnectionFound(o))
  {
    if p.session.transceivers == BOTH {
      HandshakeKeeps(p, o);
    }
  }

  lemma PacketKeepsIff(p: Peer, o: Outcome)
    requires PeerOk(p)
    ensures PeerOk(p.(session := ProcessPacket(p.session, o))) <==> Harmless(p.session, PacketReceived(o))
  {
    if PacketCompletes(p.session, o.answer) {
      CompleteKeepsIff(p, o.setupOk);
    } else {
      CloseKeeps(p);
    }
  }

  /** A step of a session keeps its part of the invariant exactly when it is harmless. */
  lemma StepKeepsIff(p: Peer, e: Event)
    requires PeerOk(p)
    ensures PeerOk(p.(session := Step(p.session, e))) <==> Harmless(p.session, e)
  {
    match e
    case ConnectionFound(o) => FoundKeepsIff(p, o);
    case PacketReceived(o) => PacketKeepsIff(p, o);
    case Checking(o) =>
      if p.session.state.P2PConnectionFound? {
        HandshakeKeeps(p, o);
      }
    case Close => CloseKeeps(p);
    case CloseNoIce => CloseKeeps(p);
    case _ =>
  }

  // ---------- The media source ----------

  lemma {:induction false} CountUpdate(peers: seq<Peer>, i: nat, p: Peer, t: Track)
    requires i < |peers|
    ensures Count(peers[i := p], t) ==
            Count(peers, t) - (if t in peers[i].counted then 1 else 0) + (if t in p.counted then 1 else 0)
    decreases i
  {
    if i > 0 {
      assert peers[i := p][1..] == peers[1..][i - 1 := p];
      CountUpdate(peers[1..], i - 1, p, t);
    } else {
      assert peers[i := p][1..] == peers[1..];
    }
  }

  /** A callback that fits is stopped by neither guard of the media source. */
  lemma TakeKeeps(peers: seq<Peer>, i: nat, p: Peer, m: Media, n: Notice)
    requires i < |peers| < 0x8000_0000 && MediaOk(peers, m)
    requires Fits(peers[i].counted, n) && p.counted == Counted(peers[i].counted, n)
    ensures MediaOk(peers[i := p], Take(m, n, |peers|))
  {
    hide OnReady, OnClosed, Count;
    CountUpdate(peers, i, p, Video);
    CountUpdate(peers, i, p, Audio);
    RoomToCount(peers, i, n.track);
    if n.PeerReady? {
      ReadyCounts(m, n.track, |peers|);
    } else {
      ClosedCounts(m, n.track);
    }
  }

  lemma {:induction false} RoomToCount(peers: seq<Peer>, i: nat, t: Track)
    requires i < |peers|
    ensures t in peers[i].counted ==> Count(peers, t) > 0
    ensures t !in peers[i].counted ==> Count(peers, t) < |peers|
    decreases i
  {
    if i > 0 {
      RoomToCount(peers[1..], i - 1, t);
    }
  }

  lemma DeliverKeeps(sys: System, i: nat)
    requires InRange(sys, Deliver(i)) && Inv(sys)
    ensures Inv(Apply(sys, Deliver(i)))
  {
    hide MediaOk, Take, Count;
    var p := sys.peers[i];
    assert PeerOk(p);
    if p.session.pending != [] {
      var n := p.session.pending[0];
      var p' := Peer(p.session.(pending := p.session.pending[1..]), Counted(p.counted, n));
      TakeKeeps(sys.peers, i, p', sys.media, n);
      forall q | q in sys.peers[i := p'] ensures PeerOk(q) {
        assert q == p' || q in sys.peers;
      }
    }
  }

  /** The system invariant is kept by an action exactly when the action is harmless for its session. */
  lemma ActionKeepsIff(sys: System, a: Action)
    requires InRange(sys, a) && Inv(sys)
    ensures Inv(Apply(sys, a)) <==> (a.On? ==> Harmless(sys.peers[a.i].session, a.event))
  {
    match a
    case Deliver(i) => DeliverKeeps(sys, i);
    case On(i, e) =>
      var p := sys.peers[i];
      var p' := p.(session := Step(p.session, e));
      StepKeepsIff(p, e);
      CountUpdate(sys.peers, i, p', Video);
      CountUpdate(sys.peers, i, p', Audio);
      assert Apply(sys, a).peers[i] == p';
      forall q | q in sys.peers[i := p'] && q != p' ensures PeerOk(q) {
        assert q in sys.peers;
      }
  }

  // ---------- Runs ----------

  function Run(sys: System, actions: seq<Action>): (sys': System)
    requires |sys.peers| < 0x8000_0000 && forall a :: a in actions ==> a.i < |sys.peers|
    ensures |sys'.peers| == |sys.peers|
    decreases |actions|
  {
    if actions == [] then sys else Run(Apply(sys, actions[0]), actions[1..])
  }

  predicate AllHarmless(sys: System, actions: seq<Action>)
    requires |sys.peers| < 0x8000_0000 && forall a :: a in actions ==> a.i < |sys.peers|
    decreases |actions|
  {
    actions != [] ==>
      && (actions[0].On? ==> Harmless(sys.peers[actions[0].i].session, actions[0].event))
      && AllHarmless(Apply(sys, actions[0]), actions[1..])
  }

  predicate InvThroughout(sys: System, actions: seq<Action>)
    requires |sys.peers| < 0x8000_0000 && forall a :: a in actions ==> a.i < |sys.peers|
    decreases |actions|
  {
    Inv(sys) && (actions != [] ==> InvThroughout(Apply(sys, actions[0]), actions[1..]))
  }

  /** Over every interleaving of any number of sessions: the invariant holds at every point of a run
      exactly when every step is harmless. */
  lemma {:induction false} RunKeepsInvariantIff(sys: System, actions: seq<Action>)
    requires |sys.peers| < 0x8000_0000 && forall a :: a in actions ==> a.i < |sys.peers|
    requires Inv(sys)
    ensures InvThroughout(sys, actions) <==> AllHarmless(sys, actions)
    ensures AllHarmless(sys, actions) ==> Inv(Run(sys, actions))
    decreases |actions|
  {
    hide Inv, Apply, Harmless;
    if actions != [] {
      var a := actions[0];
      ActionKeepsIff(sys, a);
      if Inv(Apply(sys, a)) {
        RunKeepsInvariantIff(Apply(sys, a), actions[1..]);
      }
    }
  }

  /** The way the program is meant to be driven. A remote description reaches DTLS_Init only on a
      started session, the connection is found only while looking for one and the handshake does not
      complete inside that callback, a packet completes it only afterwards, and the last callback of
      the ICE controller comes to a closing session. */
  predicate Disciplined(s: Session, e: Event) {
    match e
    case RemoteDescription(r) => r.Rejected? || s.state.Start?
    case ConnectionFound(o) => s.state.FindConnection? && !(Completes(s, o.answer) && o.setupOk)
    case PacketReceived(o) => PacketCompletes(s, o.answer) ==> s.state.P2PConnectionFound?
    case IceClosed => s.state.Closing? || s.state.Inited?
    case _ => true
  }

  predicate AllDisciplined(sys: System, actions: seq<Action>)
    requires |sys.peers| < 0x8000_0000 && forall a :: a in actions ==> a.i < |sys.peers|
    decreases |actions|
  {
    actions != [] ==>
      && (actions[0].On? ==> Disciplined(sys.peers[actions[0].i].session, actions[0].event))
      && AllDisciplined(Apply(sys, actions[0]), actions[1..])
  }

  lemma DisciplinedIsHarmless(p: Peer, e: Event)
    requires PeerOk(p) && Disciplined(p.session, e)
    ensures Harmless(p.session, e)
  {
  }

  /** Driven that way, every step is harmless, so the invariant holds. */
  lemma {:induction false} DisciplinedRunIsHarmless(sys: System, actions: seq<Action>)
    requires |sys.peers| < 0x8000_0000 && forall a :: a in actions ==> a.i < |sys.peers|
    requires Inv(sys) && AllDisciplined(sys, actions)
    ensures AllHarmless(sys, actions)
    decreases |actions|
  {
    hide Disciplined, Harmless, Apply;
    if actions != [] {
      var a := actions[0];
      if a.On? {
        DisciplinedIsHarmless(sys.peers[a.i], a.event);
      }
      ActionKeepsIff(sys, a);
      DisciplinedRunIsHarmless(Apply(sys, a), actions[1..]);
    }
  }

  lemma {:induction false} FreshSystem(n: nat)
    ensures Inv(System(seq(n, _ => Peer(FRESH, {})), Media(0, 0, 0, false)))
    decreases n
  {
    var peers := seq(n, _ => Peer(FRESH, {}));
    if n > 0 {
      FreshSystem(n - 1);
      assert peers[1..] == seq(n - 1, _ => Peer(FRESH, {}));
    }
  }

  function NumConnected(peers: seq<Peer>): nat {
    if peers == [] then 0 else (if peers[0].session.state.ConnectionReady? then 1 else 0) + NumConnected(peers[1..])
  }

  lemma {:induction false} CountIsNumConnected(peers: seq<Peer>, t: Track)
    requires forall p :: p in peers ==> PeerOk(p) && p.session.pending == []
    ensures Count(peers, t) == NumConnected(peers)
  {
    if peers != [] {
      assert PeerOk(peers[0]);
      CountIsNumConnected(peers[1..], t);
    }
  }

  /** When no callback is on its way: each track counts the sessions that are ready, the total is
      the sum, and the port runs exactly when some session is ready. */
  lemma MediaAgreesWithSessions(sys: System)
    requires Inv(sys) && forall p :: p in sys.peers ==> p.session.pending == []
    ensures var m := sys.media;
      && m.video == m.audio == NumConnected(sys.peers)
      && m.total == 2 * NumConnected(sys.peers)
      && (m.running <==> NumConnected(sys.peers) > 0)
  {
    CountIsNumConnected(sys.peers, Video);
    CountIsNumConnected(sys.peers, Audio);
  }
}
