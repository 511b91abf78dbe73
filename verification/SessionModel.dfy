/** The state machine of one peer connection session, its DTLS context included, and the notices it
gives to the media source. */
module SessionModel {

  datatype State = Closing | Inited | Start | FindConnection | P2PConnectionFound | ConnectionReady

  datatype DtlsState = Unset | New | Handshaking | Ready

  datatype Track = Video | Audio

  const MAX_TRANSCEIVERS := 2

  const BOTH := [Video, Audio]

  /** A callback of a transceiver that has not reached the media source yet. */
  datatype Notice = PeerReady(track: Track) | PeerClosed(track: Track)

  /** inits, completions, readyRounds and closedRounds count what happened so far. */
  datatype Session = Session(state: State, dtls: DtlsState, transceivers: seq<Track>, pending: seq<Notice>,
                             inits: nat, completions: nat, readyRounds: nat, closedRounds: nat)

  const FRESH := Session(Inited, Unset, [], [], 0, 0, 0, 0)

  /** One callback for every transceiver, in order. */
  function Notices(ready: bool, tracks: seq<Track>): (n: seq<Notice>)
    ensures |n| == |tracks|
    ensures forall k :: 0 <= k < |n| ==> n[k] == if ready then PeerReady(tracks[k]) else PeerClosed(tracks[k])
  {
    seq(|tracks|, k requires 0 <= k < |tracks| => if ready then PeerReady(tracks[k]) else PeerClosed(tracks[k]))
  }

  // ---------- DTLS ----------

  /** What mbedTLS answers to a handshake call, or to reading a packet. */
  datatype TlsAnswer = Waiting | Complete | Failed

  /** What surrounds a handshake step: the checks after its completion, and the clock. */
  datatype Outcome = Outcome(answer: TlsAnswer, setupOk: bool, timedOut: bool)

  /** DTLS_ExecuteHandshake: does this call report the completion? A context that was never set up
      cannot complete. */
  predicate Completes(s: Session, answer: TlsAnswer) {
    answer.Complete? && (s.dtls.New? || s.dtls.Handshaking?)
  }

  /** DTLS_ProcessPacket reports the completion only while handshaking. */
  predicate PacketCompletes(s: Session, answer: TlsAnswer) {
    answer.Complete? && s.dtls.Handshaking?
  }

  // ---------- Steps ----------

  function CloseSession(s: Session): Session {
    if s.state.ConnectionReady? then
      s.(state := Closing, pending := s.pending + Notices(false, s.transceivers),
         closedRounds := s.closedRounds + 1)
    else
      s.(state := Closing)
  }

  function OnClose(s: Session): Session {
    s.(state := Inited, transceivers := [])
  }

  /** The handshake has just completed; the fingerprint, the keys, SRTP and SCTP come next. */
  function HandshakeComplete(s: Session, setupOk: bool): Session {
    var s' := s.(dtls := Ready, completions := s.completions + 1);
    if setupOk then
      s'.(state := ConnectionReady, pending := s.pending + Notices(true, s.transceivers),
          readyRounds := s.readyRounds + 1)
    else
      CloseSession(s')
  }

  function ExecuteHandshake(s: Session, o: Outcome): Session {
    var completes := Completes(s, o.answer);
    var s' := if completes then HandshakeComplete(s, o.setupOk) else s;
    var failed := if completes then !o.setupOk else !s.dtls.Ready? && !o.answer.Waiting?;
    if !failed && o.timedOut then CloseSession(s') else s'
  }

  /** The peer-to-peer-found callback: the state is set after the handshake call, whatever that did. */
  function Found(s: Session, o: Outcome): Session {
    ExecuteHandshake(s, o).(state := P2PConnectionFound)
  }

  /** The periodic check retries the handshake. */
  function PeriodicCheck(s: Session, o: Outcome): Session {
    if s.state.P2PConnectionFound? then ExecuteHandshake(s, o) else s
  }

  function ProcessPacket(s: Session, o: Outcome): Session {
    if o.answer.Failed? then CloseSession(s)
    else if PacketCompletes(s, o.answer) then HandshakeComplete(s, o.setupOk)
    else s
  }

  /** How far a remote description gets. */
  datatype Remote = Rejected | DtlsInitFails | LaterFails | Accepted

  function SetRemoteDescription(s: Session, r: Remote): Session {
    match r
    case Rejected => s
    case DtlsInitFails => s.(dtls := New, inits := s.inits + 1)
    case LaterFails => s.(dtls := Handshaking, inits := s.inits + 1)
    case Accepted => s.(dtls := Handshaking, inits := s.inits + 1, state := FindConnection)
  }

  /** Which of its parts a start gets through before something outside the model fails. */
  datatype Reach = Nothing | VideoAdded | Everything

  function AddTransceiver(s: Session, t: Track): Session {
    if |s.transceivers| < MAX_TRANSCEIVERS then s.(transceivers := s.transceivers + [t]) else s
  }

  /** Starting an inited session: it gets a video and an audio transceiver. What a failed start
      added stays. */
  function StartSession(s: Session, reach: Reach): Session {
    if !s.state.Inited? || reach.Nothing? || |s.transceivers| == MAX_TRANSCEIVERS then
      s
    else
      var s' := AddTransceiver(s, Video);
      if reach.VideoAdded? || |s'.transceivers| == MAX_TRANSCEIVERS then
        s'
      else
        AddTransceiver(s', Audio).(state := Start)
  }

  /** A start goes through exactly when nothing outside fails and the session has no transceiver. One
      that failed after it added a transceiver makes every later one fail, until the session closes. */
  lemma StartsIff(s: Session, reach: Reach)
    requires |s.transceivers| <= MAX_TRANSCEIVERS && s.state.Inited?
    ensures StartSession(s, reach).state.Start? <==> reach.Everything? && s.transceivers == []
    ensures StartSession(s, reach).state.Start? ==> StartSession(s, reach).transceivers == BOTH
    ensures s.transceivers != [] ==> StartSession(s, reach).transceivers != []
  {
  }

  /** What can happen to one session. */
  datatype Event =
    | Starting(reach: Reach)
    | RemoteDescription(remote: Remote)
    | ConnectionFound(outcome: Outcome)
    | Checking(outcome: Outcome)
    | PacketReceived(outcome: Outcome)
    | Close
    | IceClosed
    | CloseNoIce

  function Step(s: Session, e: Event): Session {
    match e
    case Starting(reach) => StartSession(s, reach)
    case RemoteDescription(r) => SetRemoteDescription(s, r)
    case ConnectionFound(o) => Found(s, o)
    case Checking(o) => PeriodicCheck(s, o)
    case PacketReceived(o) => ProcessPacket(s, o)
    case Close => CloseSession(s)
    case IceClosed => OnClose(s)
    case CloseNoIce => OnClose(CloseSession(s))
  }

  // ---------- Accounting, over every run ----------

  /** A completion needs an init of its own, a ready round a completion, a closed round a ready round. */
  predicate Accounted(s: Session) {
    && s.completions + (if s.dtls.New? || s.dtls.Handshaking? then 1 else 0) <= s.inits
    && s.readyRounds <= s.completions
    && s.closedRounds + (if s.state.ConnectionReady? then 1 else 0) <= s.readyRounds
  }

  lemma StepAccounted(s: Session, e: Event)
    requires Accounted(s)
    ensures Accounted(Step(s, e))
  {
  }

  function RunSession(s: Session, events: seq<Event>): Session
    decreases |events|
  {
    if events == [] then s else RunSession(Step(s, events[0]), events[1..])
  }

  /** However the calls of a session come, one after the other: a handshake completes at most once for each
      DTLS_Init, and there are never more closed rounds than ready rounds, nor more of those than
      completions. SessionTasks says what becomes of this when calls overlap. */
  lemma {:induction false} RoundsAreAccounted(s: Session, events: seq<Event>)
    requires Accounted(s)
    ensures Accounted(RunSession(s, events))
    decreases |events|
  {
    if events != [] {
      StepAccounted(s, events[0]);
      RoundsAreAccounted(Step(s, events[0]), events[1..]);
    }
  }

  /** No call reports a completion between two calls of DTLS_Init once one has. */
  lemma {:induction false} CompletesOncePerInit(s: Session, events: seq<Event>)
    requires forall e :: e in events ==> !(e.RemoteDescription? && !e.remote.Rejected?)
    ensures RunSession(s, events).completions <= s.completions + 1
    ensures s.dtls.Ready? ==> RunSession(s, events).completions == s.completions
    decreases |events|
  {
    if events != [] {
      CompletesOncePerInit(Step(s, events[0]), events[1..]);
    }
  }

  // ---------- What each event comes to ----------

  /** The event runs the handshake with this outcome: the connection was found, or the periodic check
      retries it. */
  predicate RunsHandshake(s: Session, e: Event) {
    e.ConnectionFound? || (e.Checking? && s.state.P2PConnectionFound?)
  }

  /** The handshake completes in the event: in a handshake call on a context that was set up and is not ready,
      or in a packet while handshaking. */
  predicate Completing(s: Session, e: Event) {
    || (RunsHandshake(s, e) && e.outcome.answer == Complete && s.dtls in {New, Handshaking})
    || (e.PacketReceived? && e.outcome.answer == Complete && s.dtls == Handshaking)
  }

  predicate BecomesReady(s: Session, e: Event) {
    Completing(s, e) && e.outcome.setupOk
  }

  /** The event closes the session: asked for, by a packet that breaks the connection off, by a set-up that
      fails, or by the time running out in a handshake call that did not fail. */
  predicate Ends(s: Session, e: Event) {
    || e.Close? || e.CloseNoIce?
    || (e.PacketReceived? && e.outcome.answer == Failed)
    || (Completing(s, e) && !e.outcome.setupOk)
    || (&& RunsHandshake(s, e) && e.outcome.timedOut
        && (BecomesReady(s, e) || s.dtls == Ready || e.outcome.answer == Waiting))
  }

  /** The rounds of callbacks an event sends: a ready round when the session becomes ready, and a closed
      round when it closes a session that is ready, or has just become so. One callback for each
      transceiver. */
  lemma RoundsOfEvent(s: Session, e: Event)
    ensures var s' := Step(s, e); var closes := Ends(s, e) && (s.state == ConnectionReady || BecomesReady(s, e));
      && s'.completions == s.completions + (if Completing(s, e) then 1 else 0)
      && s'.readyRounds == s.readyRounds + (if BecomesReady(s, e) then 1 else 0)
      && s'.closedRounds == s.closedRounds + (if closes then 1 else 0)
      && s'.pending == s.pending + (if BecomesReady(s, e) then Notices(true, s.transceivers) else [])
                                 + (if closes then Notices(false, s.transceivers) else [])
  {
    hide Notices;
    assert s.pending + [] == s.pending;
    assert s.pending + [] + Notices(false, s.transceivers) == s.pending + Notices(false, s.transceivers);
  }

  /** The state an event leaves: the found callback always leaves the found state; otherwise a session that
      ends is closing, one that becomes ready is ready, and so on. */
  lemma StateOfEvent(s: Session, e: Event)
    requires |s.transceivers| <= MAX_TRANSCEIVERS
    ensures Step(s, e).state ==
            if e.ConnectionFound? then P2PConnectionFound
            else if e.IceClosed? || e.CloseNoIce? then Inited
            else if Ends(s, e) then Closing
            else if BecomesReady(s, e) then ConnectionReady
            else if e == RemoteDescription(Accepted) then FindConnection
            else if e == Starting(Everything) && s.state == Inited && s.transceivers == [] then Start
            else s.state
  {
    hide Notices;
  }

  /** The DTLS context an event leaves, and how often it was set up. */
  lemma ContextOfEvent(s: Session, e: Event)
    ensures Step(s, e).dtls ==
            if Completing(s, e) then Ready
            else if e == RemoteDescription(DtlsInitFails) then New
            else if e == RemoteDescription(LaterFails) || e == RemoteDescription(Accepted) then Handshaking
            else s.dtls
    ensures Step(s, e).inits == s.inits + (if e.RemoteDescription? && e.remote != Rejected then 1 else 0)
  {
    hide Notices;
  }

  /** The transceivers an event leaves: a start adds them until there is no room or something fails, the end
      of the session takes them all. */
  lemma TransceiversOfEvent(s: Session, e: Event)
    requires |s.transceivers| <= MAX_TRANSCEIVERS
    ensures Step(s, e).transceivers ==
            if e.IceClosed? || e.CloseNoIce? then []
            else if e.Starting? && s.state == Inited && e.reach != Nothing && |s.transceivers| < MAX_TRANSCEIVERS then
              s.transceivers + (if e.reach == Everything && s.transceivers == [] then [Video, Audio] else [Video])
            else s.transceivers
  {
    hide Notices;
  }

  /** However a session got where it is, closing it makes it ready for use again: a start right after that
      goes through exactly when nothing outside fails, and the session then has one transceiver of each
      kind. */
  lemma ClosedIsReusable(s: Session, events: seq<Event>, close: Event, reach: Reach)
    requires close.IceClosed? || close.CloseNoIce?
    ensures var closed := RunSession(s, events + [close]);
      && closed.state.Inited? && closed.transceivers == []
      && var again := RunSession(s, events + [close] + [Starting(reach)]);
         && (again.state.Start? <==> reach.Everything?)
         && (again.state.Start? ==> again.transceivers == BOTH)
  {
    RunAppend(s, events, close);
    RunAppend(s, events + [close], Starting(reach));
  }

  lemma {:induction false} RunAppend(s: Session, events: seq<Event>, e: Event)
    ensures RunSession(s, events + [e]) == Step(RunSession(s, events), e)
    decreases |events|
  {
    hide Step;
    if events == [] {
      assert [e][1..] == [];
      assert RunSession(s, [e]) == RunSession(Step(s, e), []);
      assert events + [e] == [e];
    } else {
      assert (events + [e])[1..] == events[1..] + [e];
      RunAppend(Step(s, events[0]), events[1..], e);
    }
  }

  /** When the handshake completes inside the found callback, the callback overwrites the ready state:
      the ready round is out, and the close that follows tells the media source nothing. */
  lemma OverwrittenReadyIsNeverClosed(s: Session, o: Outcome)
    requires Completes(s, o.answer) && o.setupOk && !o.timedOut
    ensures var s' := CloseSession(Found(s, o));
      && s'.pending == s.pending + Notices(true, s.transceivers)
      && s'.readyRounds == s.readyRounds + 1 && s'.closedRounds == s.closedRounds
  {
  }

  lemma RunOne(s: Session, e: Event, rest: seq<Event>)
    ensures RunSession(s, [e] + rest) == RunSession(Step(s, e), rest)
  {
    assert ([e] + rest)[1..] == rest;
  }

  /** A new session gets there in three steps. */
  lemma OverwrittenReadyIsReached()
    ensures var o := Outcome(Complete, true, false);
      var s := RunSession(FRESH, [Starting(Everything), RemoteDescription(Accepted), ConnectionFound(o), Close]);
      && s.state.Closing? && s.pending == Notices(true, BOTH) && s.readyRounds == 1 && s.closedRounds == 0
  {
    hide RunSession, Notices;
    var o := Outcome(Complete, true, false);
    var s1 := StartSession(FRESH, Everything);
    var s2 := Step(s1, RemoteDescription(Accepted));
    assert s1.transceivers == BOTH;
    assert [] + Notices(true, BOTH) == Notices(true, BOTH);
    RunOne(FRESH, Starting(Everything), [RemoteDescription(Accepted)] + ([ConnectionFound(o)] + ([Close] + [])));
    RunOne(s1, RemoteDescription(Accepted), [ConnectionFound(o)] + ([Close] + []));
    RunOne(s2, ConnectionFound(o), [Close] + []);
    RunOne(Found(s2, o), Close, []);
    RunNone(CloseSession(Found(s2, o)));
    assert [Starting(Everything)] + ([RemoteDescription(Accepted)] + ([ConnectionFound(o)] + ([Close] + []))) ==
           [Starting(Everything), RemoteDescription(Accepted), ConnectionFound(o), Close];
  }

  lemma RunNone(s: Session)
    ensures RunSession(s, []) == s
  {
  }
}
