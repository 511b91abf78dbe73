/** A peer connection session in place. The methods carry out the steps of SessionModel; a callback
of a transceiver is queued as a notice until the media source takes it. */
module PeerSessions {
  import opened SessionModel

  class PeerSession {
    var state: State
    var dtls: DtlsState
    var transceivers: seq<Track>
    var pending: seq<Notice>
    ghost var inits: nat
    ghost var completions: nat
    ghost var readyRounds: nat
    ghost var closedRounds: nat

    ghost function Value(): Session
      reads this
    {
      Session(state, dtls, transceivers, pending, inits, completions, readyRounds, closedRounds)
    }

    constructor ()
      ensures Value() == FRESH
    {
      state, dtls, transceivers, pending := Inited, Unset, [], [];
      inits, completions, readyRounds, closedRounds := 0, 0, 0, 0;
    }

    /** Calls back every transceiver. */
    method Notify(ready: bool)
      modifies this`pending
      ensures pending == old(pending) + Notices(ready, transceivers)
    {
      ghost var all := Notices(ready, transceivers);
      var i := 0;
      while i < |transceivers|
        invariant 0 <= i <= |transceivers| && pending == old(pending) + all[..i]
      {
        pending := pending + [if ready then PeerReady(transceivers[i]) else PeerClosed(transceivers[i])];
        assert all[..i + 1] == all[..i] + [all[i]];
        i := i + 1;
      }
      assert all[..i] == all;
    }

    method CloseSession()
      modifies this
      ensures Value() == SessionModel.CloseSession(old(Value()))
    {
      var notifyTransceiver := false;
      if state == ConnectionReady {
        notifyTransceiver := true;
        closedRounds := closedRounds + 1;
      }
      state := Closing;
      if notifyTransceiver {
        Notify(false);
      }
    }

    method OnClose()
      modifies this
      ensures Value() == SessionModel.OnClose(old(Value()))
    {
      transceivers := [];
      state := Inited;
    }

    /** DTLS_ExecuteHandshake. */
    method DtlsHandshake(answer: TlsAnswer) returns (status: TlsAnswer)
      modifies this`dtls, this`completions
      ensures status.Complete? <==> old(Completes(Value(), answer))
      ensures status.Failed? <==> !old(dtls.Ready?) && !status.Complete? && !answer.Waiting?
      ensures dtls == if status.Complete? then Ready else old(dtls)
      ensures completions == if status.Complete? then old(completions) + 1 else old(completions)
    {
      if dtls == Ready {
        status := Waiting;
      } else if dtls == Unset {
        status := if answer == Waiting then Waiting else Failed;
      } else {
        status := answer;
        if answer == Complete {
          dtls := Ready;
          completions := completions + 1;
        }
      }
    }

    method OnHandshakeComplete(setupOk: bool)
      modifies this
      ensures old(dtls.Ready?) && old(completions) > 0 ==>
        Value() == HandshakeComplete(old(Value()).(completions := old(completions) - 1), setupOk)
    {
      if setupOk {
        state := ConnectionReady;
        readyRounds := readyRounds + 1;
        Notify(true);
      } else {
        CloseSession();
      }
    }

    method ExecuteHandshake(o: Outcome)
      modifies this
      ensures Value() == SessionModel.ExecuteHandshake(old(Value()), o)
    {
      var status := DtlsHandshake(o.answer);
      var failed := status == Failed;
      if status == Complete {
        OnHandshakeComplete(o.setupOk);
        failed := !o.setupOk;
      }
      if !failed && o.timedOut {
        CloseSession();
      }
    }

    method OnConnectionFound(o: Outcome)
      modifies this
      ensures Value() == Found(old(Value()), o)
    {
      ExecuteHandshake(o);
      state := P2PConnectionFound;
    }

    method OnPeriodicCheck(o: Outcome)
      modifies this
      ensures Value() == PeriodicCheck(old(Value()), o)
    {
      if state == P2PConnectionFound {
        ExecuteHandshake(o);
      }
    }

    method ProcessPacket(o: Outcome)
      modifies this
      ensures Value() == SessionModel.ProcessPacket(old(Value()), o)
    {
      if o.answer == Failed {
        CloseSession();
      } else if o.answer == Complete && dtls == Handshaking {
        dtls := Ready;
        completions := completions + 1;
        OnHandshakeComplete(o.setupOk);
      }
    }

    method SetRemoteDescription(r: Remote)
      modifies this
      ensures Value() == SessionModel.SetRemoteDescription(old(Value()), r)
    {
      if r == Rejected {
        return;
      }
      dtls := New;
      inits := inits + 1;
      if r == DtlsInitFails {
        return;
      }
      dtls := Handshaking;
      if r == Accepted {
        state := FindConnection;
      }
    }

    method AddTransceiver(t: Track) returns (ok: bool)
      modifies this`transceivers
      ensures transceivers == old(SessionModel.AddTransceiver(Value(), t).transceivers)
      ensures ok <==> |old(transceivers)| < MAX_TRANSCEIVERS
    {
      ok := |transceivers| < MAX_TRANSCEIVERS;
      if ok {
        transceivers := transceivers + [t];
      }
    }

    method StartSession(reach: Reach) returns (ok: bool)
      requires |transceivers| <= MAX_TRANSCEIVERS
      modifies this
      ensures Value() == SessionModel.StartSession(old(Value()), reach)
      ensures ok <==> old(state.Inited?) && reach.Everything? && old(transceivers) == []
    {
      ok := state == Inited && reach != Nothing;
      if ok {
        ok := AddTransceiver(Video);
      }
      if ok && reach == Everything {
        ok := AddTransceiver(Audio);
        if ok {
          state := Start;
        }
      } else {
        ok := false;
      }
    }

    /** One thing that happens to the session, as the request loop and the callbacks pass it on. */
    method Handle(e: Event)
      requires |transceivers| <= MAX_TRANSCEIVERS
      modifies this
      ensures Value() == Step(old(Value()), e) && |transceivers| <= MAX_TRANSCEIVERS
    {
      match e
      case Starting(reach) => var _ := StartSession(reach);
      case RemoteDescription(r) => SetRemoteDescription(r);
      case ConnectionFound(o) => OnConnectionFound(o);
      case Checking(o) => OnPeriodicCheck(o);
      case PacketReceived(o) => ProcessPacket(o);
      case Close => CloseSession();
      case IceClosed => OnClose();
      case CloseNoIce =>
        CloseSession();
        OnClose();
    }

    /** The life of a session. Whatever happens to it, its rounds of callbacks stay accounted for. */
    method HandleAll(events: seq<Event>)
      requires |transceivers| <= MAX_TRANSCEIVERS && Accounted(Value())
      modifies this
      ensures Value() == RunSession(old(Value()), events) && Accounted(Value())
    {
      hide Step, Accounted;
      RoundsAreAccounted(Value(), events);
      var i := 0;
      assert events[0..] == events;
      while i < |events|
        invariant i <= |events| && |transceivers| <= MAX_TRANSCEIVERS
        invariant RunSession(Value(), events[i..]) == RunSession(old(Value()), events)
      {
        assert events[i..][1..] == events[i + 1..];
        Handle(events[i]);
        i := i + 1;
      }
    }
  }
}
