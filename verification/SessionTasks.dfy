/** One session under several tasks. Nothing guards a session against two tasks inside its calls at
once, so a call is split at every point where it has read something it acts on later. */
module SessionTasks {
  import opened SessionModel

  /** What a task still has to do once it is out of a handshake or of CloseSession. */
  datatype After = Return | SetFound | Reset

  /** Where a task stands in a call. */
  datatype Place =
    | Idle
    | Entering(outcome: Outcome, after: After)
    | Tested(outcome: Outcome, after: After)
    | PacketTested(outcome: Outcome)
    | Completed(outcome: Outcome, checksTime: bool, after: After)
    | Timing(outcome: Outcome, after: After)
    | InClose(wasReady: bool, after: After)
    | Finding
    | Resetting
    | Initing(remote: Remote)
    | Describing(remote: Remote)

  function Rest(after: After): Place {
    match after
    case Return => Idle
    case SetFound => Finding
    case Reset => Resetting
  }

  /** CloseSession reads the state. */
  function EnterClose(s: Session, after: After): Place {
    InClose(s.state.ConnectionReady?, after)
  }

  function Begin(s: Session, e: Event): (Session, Place) {
    match e
    case Starting(reach) => (StartSession(s, reach), Idle)
    case RemoteDescription(r) => if r.Rejected? then (s, Idle) else (s.(dtls := New, inits := s.inits + 1), Initing(r))
    case ConnectionFound(o) => (s, Entering(o, SetFound))
    case Checking(o) => (s, if s.state.P2PConnectionFound? then Entering(o, Return) else Idle)
    case PacketReceived(o) =>
      (s, if o.answer.Failed? then EnterClose(s, Return)
          else if PacketCompletes(s, o.answer) then PacketTested(o)
          else Idle)
    case Close => (s, EnterClose(s, Return))
    case IceClosed => (OnClose(s), Idle)
    case CloseNoIce => (s, EnterClose(s, Reset))
  }

  /** The context is set to ready, whatever it is by now. */
  function Commit(s: Session): Session {
    s.(dtls := Ready, completions := s.completions + 1)
  }

  /** CloseSession sets the state and calls back as it has decided before. */
  function LeaveClose(s: Session, wasReady: bool): Session {
    if wasReady then
      s.(state := Closing, pending := s.pending + Notices(false, s.transceivers), closedRounds := s.closedRounds + 1)
    else
      s.(state := Closing)
  }

  function Proceed(s: Session, p: Place): (Session, Place) {
    match p
    case Idle => (s, Idle)
    case Entering(o, a) => (s, if s.dtls.Ready? then Timing(o, a) else Tested(o, a))
    case Tested(o, a) =>
      if o.answer.Complete? && !s.dtls.Unset? then (Commit(s), Completed(o, true, a))
      else (s, if o.answer.Waiting? then Timing(o, a) else Rest(a))
    case PacketTested(o) => (Commit(s), Completed(o, false, Return))
    case Completed(o, checksTime, a) =>
      if o.setupOk then
        (s.(state := ConnectionReady, pending := s.pending + Notices(true, s.transceivers),
            readyRounds := s.readyRounds + 1),
         if checksTime then Timing(o, a) else Rest(a))
      else
        (s, EnterClose(s, a))
    case Timing(o, a) => (s, if o.timedOut then EnterClose(s, a) else Rest(a))
    case InClose(wasReady, a) => (LeaveClose(s, wasReady), Rest(a))
    case Finding => (s.(state := P2PConnectionFound), Idle)
    case Resetting => (OnClose(s), Idle)
    case Initing(r) => if r.DtlsInitFails? then (s, Idle) else (s.(dtls := Handshaking), Describing(r))
    case Describing(r) => (if r.Accepted? then s.(state := FindConnection) else s, Idle)
  }

  /** What goes past the intended course of a session. doubled: completions committed on a ready context;
      revived: ready contexts set back by the second half of an init; abandoned: inits over an open
      context; failed: set-ups that failed; late: closed rounds out of a state that is not ready any
      more; lost: ready states that ended without a closed round. */
  datatype Ledger = Ledger(doubled: nat, revived: nat, abandoned: nat, failed: nat, late: nat, lost: nat)

  datatype System = System(session: Session, tasks: seq<Place>, ledger: Ledger)

  datatype Action = Calls(task: nat, event: Event) | Goes(task: nat)

  predicate Open(s: Session) {
    s.dtls.New? || s.dtls.Handshaking?
  }

  function One(b: bool): nat {
    if b then 1 else 0
  }

  function Entry(l: Ledger, s: Session, s': Session, p: Place): Ledger {
    Ledger(l.doubled + One(s'.completions > s.completions && s.dtls.Ready?),
           l.revived + One(s'.inits == s.inits && s.dtls.Ready? && Open(s')),
           l.abandoned + One(s'.inits > s.inits && Open(s)),
           l.failed + One(p.Completed? && !p.outcome.setupOk),
           l.late + One(s'.closedRounds > s.closedRounds && !s.state.ConnectionReady?),
           l.lost + One(s.state.ConnectionReady? && s'.closedRounds == s.closedRounds
                        && (!s'.state.ConnectionReady? || s'.readyRounds > s.readyRounds)))
  }

  /** A task begins a call when it is in none; otherwise it goes on. */
  function Apply(sys: System, a: Action): (sys': System)
    requires a.task < |sys.tasks|
    ensures |sys'.tasks| == |sys.tasks|
  {
    var p := sys.tasks[a.task];
    var (s', p') := if a.Goes? then Proceed(sys.session, p)
                    else if p.Idle? then Begin(sys.session, a.event)
                    else (sys.session, p);
    System(s', sys.tasks[a.task := p'], Entry(sys.ledger, sys.session, s', if a.Goes? then p else Idle))
  }

  predicate Fit(sys: System, run: seq<Action>) {
    forall k :: 0 <= k < |run| ==> run[k].task < |sys.tasks|
  }

  function Run(sys: System, run: seq<Action>): (sys': System)
    requires Fit(sys, run)
    ensures |sys'.tasks| == |sys.tasks|
    decreases |run|
  {
    if run == [] then sys else Apply(Run(sys, run[..|run| - 1]), run[|run| - 1])
  }

  /** The system before the k-th action of a run. */
  function Before(sys: System, run: seq<Action>, k: nat): (sys': System)
    requires Fit(sys, run) && k <= |run|
    ensures |sys'.tasks| == |sys.tasks|
  {
    Run(sys, run[..k])
  }

  lemma BeforeNext(sys: System, run: seq<Action>, k: nat)
    requires Fit(sys, run) && k < |run|
    ensures Before(sys, run, k + 1) == Apply(Before(sys, run, k), run[k])
  {
    assert run[..k + 1][..k] == run[..k];
  }

  lemma BeforeEnd(sys: System, run: seq<Action>)
    requires Fit(sys, run)
    ensures Before(sys, run, |run|) == Run(sys, run)
  {
    assert run[..|run|] == run;
  }

  // ---------- Accounting, over every interleaving ----------

  /** Tasks between the commit and the end of the set-up. */
  function InSetup(tasks: seq<Place>): nat {
    if tasks == [] then 0 else One(tasks[0].Completed?) + InSetup(tasks[1..])
  }

  lemma {:induction false} InSetupUpdate(tasks: seq<Place>, i: nat, p: Place)
    requires i < |tasks|
    ensures InSetup(tasks[i := p]) + One(tasks[i].Completed?) == InSetup(tasks) + One(p.Completed?)
    decreases i
  {
    if i > 0 {
      assert tasks[i := p][1..] == tasks[1..][i - 1 := p];
      InSetupUpdate(tasks[1..], i - 1, p);
    } else {
      assert tasks[i := p][1..] == tasks[1..];
    }
  }

  /** Completions and closed rounds against what entitles to them, with what the ledger says. */
  predicate Even(s: Session, l: Ledger) {
    && s.completions + One(Open(s)) + l.abandoned == s.inits + l.doubled + l.revived
    && s.closedRounds + One(s.state.ConnectionReady?) + l.lost == s.readyRounds + l.late
  }

  /** The balance of a session, and that a context in use was set up. */
  predicate Balanced(sys: System) {
    && Even(sys.session, sys.ledger)
    && sys.session.completions == sys.session.readyRounds + sys.ledger.failed + InSetup(sys.tasks)
    && forall p :: p in sys.tasks && UsesContext(p) ==> !sys.session.dtls.Unset?
  }

  predicate UsesContext(p: Place) {
    p.PacketTested? || p.Initing?
  }

  lemma BeginBalances(s: Session, e: Event, l: Ledger)
    requires Even(s, l)
    ensures var (s', p') := Begin(s, e); var l' := Entry(l, s, s', Idle);
      && Even(s', l') && s'.completions - s'.readyRounds - l'.failed == s.completions - s.readyRounds - l.failed
      && !p'.Completed? && (UsesContext(p') || !s.dtls.Unset? ==> !s'.dtls.Unset?)
  {
  }

  lemma ProceedBalances(s: Session, p: Place, l: Ledger)
    requires Even(s, l) && (UsesContext(p) ==> !s.dtls.Unset?)
    ensures var (s', p') := Proceed(s, p); var l' := Entry(l, s, s', p);
      && Even(s', l')
      && s'.completions - s'.readyRounds - l'.failed - One(p'.Completed?) ==
         s.completions - s.readyRounds - l.failed - One(p.Completed?)
      && !UsesContext(p') && (!s.dtls.Unset? ==> !s'.dtls.Unset?)
  {
  }

  lemma ApplyBalanced(sys: System, a: Action)
    requires a.task < |sys.tasks| && Balanced(sys)
    ensures Balanced(Apply(sys, a))
  {
    hide InSetup, Begin, Proceed, Entry, Even, UsesContext;
    var p := sys.tasks[a.task];
    var sys' := Apply(sys, a);
    InSetupUpdate(sys.tasks, a.task, sys'.tasks[a.task]);
    if a.Goes? {
      ProceedBalances(sys.session, p, sys.ledger);
    } else if p.Idle? {
      BeginBalances(sys.session, a.event, sys.ledger);
    } else {
      NoEntry(sys.ledger, sys.session);
    }
  }

  lemma NoEntry(l: Ledger, s: Session)
    ensures Entry(l, s, s, Idle) == l
  {
  }

  /** Over every interleaving the counts balance. So a ready round always has a completion of its own;
      and the other two laws that hold for calls one after the other hold here exactly when what was
      committed twice is made up for by what was given up. */
  lemma {:induction false} InterleavingBalances(sys: System, run: seq<Action>)
    requires Fit(sys, run) && Balanced(sys)
    ensures Balanced(Run(sys, run))
    ensures var s, l := Run(sys, run).session, Run(sys, run).ledger;
      && s.readyRounds <= s.completions
      && (Accounted(s) <==> l.doubled + l.revived <= l.abandoned && l.late <= l.lost)
    decreases |run|
  {
    hide Apply;
    if run != [] {
      InterleavingBalances(sys, run[..|run| - 1]);
      ApplyBalanced(Run(sys, run[..|run| - 1]), run[|run| - 1]);
    }
  }

  lemma {:induction false} NoneInSetup(tasks: seq<Place>)
    requires forall p :: p in tasks ==> p.Idle?
    ensures InSetup(tasks) == 0
  {
    if tasks != [] {
      assert tasks[0] in tasks;
      NoneInSetup(tasks[1..]);
    }
  }

  /** A new session balances, whatever tasks there are. */
  lemma FreshBalances(tasks: seq<Place>)
    requires forall p :: p in tasks ==> p.Idle?
    ensures Balanced(System(FRESH, tasks, Ledger(0, 0, 0, 0, 0, 0)))
  {
    hide InSetup, Even;
    NoneInSetup(tasks);
    FreshIsEven();
  }

  lemma FreshIsEven()
    ensures Even(FRESH, Ledger(0, 0, 0, 0, 0, 0))
  {
  }

  // ---------- What falls between a test and its commit ----------

  /** The two tests that are acted on later: that the handshake is not over yet, and that the session is
      ready when it is closed. */
  datatype Race = Handshake | CloseRound

  /** The place of a task that tested and has not committed. */
  predicate InWindow(r: Race, p: Place) {
    match r
    case Handshake => p.Tested? || p.PacketTested?
    case CloseRound => p.InClose? && p.wasReady
  }

  /** The test would not succeed any more. */
  predicate Spent(r: Race, s: Session) {
    match r
    case Handshake => s.dtls.Ready?
    case CloseRound => !s.state.ConnectionReady?
  }

  function Count(r: Race, s: Session): nat {
    match r
    case Handshake => s.completions
    case CloseRound => s.closedRounds
  }

  /** The action reports a completion, or sends a closed round. */
  predicate Commits(r: Race, sys: System, a: Action)
    requires a.task < |sys.tasks|
  {
    var p := sys.tasks[a.task];
    a.Goes? && InWindow(r, p) && (p.Tested? ==> p.outcome.answer.Complete? && !sys.session.dtls.Unset?)
  }

  /** The action makes the test succeed again: a write of DTLS_Init, or of the ready state. */
  predicate Rearms(r: Race, sys: System, a: Action)
    requires a.task < |sys.tasks|
  {
    var p := sys.tasks[a.task];
    match r
    case Handshake =>
      || (a.Goes? && p.Initing? && !p.remote.DtlsInitFails?)
      || (a.Calls? && p.Idle? && a.event.RemoteDescription? && !a.event.remote.Rejected?)
    case CloseRound => a.Goes? && p.Completed? && p.outcome.setupOk
  }

  lemma RaceStep(r: Race, sys: System, a: Action)
    requires a.task < |sys.tasks|
    ensures var sys' := Apply(sys, a);
      && Count(r, sys'.session) == Count(r, sys.session) + One(Commits(r, sys, a))
      && (Commits(r, sys, a) ==> Spent(r, sys'.session) && !InWindow(r, sys'.tasks[a.task]))
      && (Spent(r, sys.session) && !Rearms(r, sys, a) ==> Spent(r, sys'.session))
      && (Rearms(r, sys, a) ==> !Spent(r, sys'.session))
      && (Spent(r, sys.session) && InWindow(r, sys'.tasks[a.task]) ==> sys'.tasks[a.task] == sys.tasks[a.task])
      && (forall t :: 0 <= t < |sys.tasks| && t != a.task ==> sys'.tasks[t] == sys.tasks[t])
  {
  }

  /** From the k-th to the j-th action nothing makes the test succeed again. */
  predicate NoRearm(r: Race, sys: System, run: seq<Action>, k: nat, j: nat)
    requires Fit(sys, run) && j <= |run|
  {
    forall m :: k <= m < j ==> !Rearms(r, Before(sys, run, m), run[m])
  }

  /** In between, a race that is spent stays so, and no task enters the window. */
  lemma {:induction false} WindowWasOpen(r: Race, sys: System, run: seq<Action>, k: nat, j: nat, t: nat)
    requires Fit(sys, run) && k <= j <= |run| && NoRearm(r, sys, run, k, j) && t < |sys.tasks|
    requires Spent(r, Before(sys, run, k).session)
    ensures Spent(r, Before(sys, run, j).session)
    ensures InWindow(r, Before(sys, run, j).tasks[t]) ==> Before(sys, run, j).tasks[t] == Before(sys, run, k).tasks[t]
    decreases j - k
  {
    hide Apply, Before, Spent, InWindow, Rearms;
    if k < j {
      WindowWasOpen(r, sys, run, k, j - 1, t);
      BeforeNext(sys, run, j - 1);
      RaceStep(r, Before(sys, run, j - 1), run[j - 1]);
    }
  }

  /** The last commit of a run, when there is one. */
  lemma {:induction false} LastCommit(r: Race, sys: System, run: seq<Action>, n: nat) returns (k: nat)
    requires Fit(sys, run) && n <= |run|
    requires Count(r, Before(sys, run, n).session) > Count(r, sys.session)
    ensures k < n && Commits(r, Before(sys, run, k), run[k])
    ensures Count(r, Before(sys, run, n).session) == Count(r, Before(sys, run, k).session) + 1
    decreases n
  {
    hide Apply, Commits, Count;
    BeforeNothing(sys, run);
    BeforeNext(sys, run, n - 1);
    RaceStep(r, Before(sys, run, n - 1), run[n - 1]);
    if Commits(r, Before(sys, run, n - 1), run[n - 1]) {
      k := n - 1;
    } else {
      k := LastCommit(r, sys, run, n - 1);
    }
  }

  lemma BeforeNothing(sys: System, run: seq<Action>)
    requires Fit(sys, run)
    ensures Before(sys, run, 0) == sys
  {
  }

  lemma {:induction false} CountGrows(r: Race, sys: System, run: seq<Action>, k: nat, j: nat)
    requires Fit(sys, run) && k <= j <= |run|
    ensures Count(r, Before(sys, run, k).session) <= Count(r, Before(sys, run, j).session)
    decreases j - k
  {
    hide Apply, Before, Commits, Count;
    if k < j {
      CountGrows(r, sys, run, k, j - 1);
      BeforeNext(sys, run, j - 1);
      RaceStep(r, Before(sys, run, j - 1), run[j - 1]);
    }
  }

  /** Two tasks commit, and the first commit falls between the test of the second task and its own. */
  predicate Overtakes(r: Race, sys: System, run: seq<Action>, k: nat, j: nat)
    requires Fit(sys, run)
  {
    && k < j < |run| && run[k].task != run[j].task
    && Commits(r, Before(sys, run, k), run[k]) && Commits(r, Before(sys, run, j), run[j])
    && InWindow(r, Before(sys, run, k).tasks[run[j].task])
    && Before(sys, run, k).tasks[run[j].task] == Before(sys, run, j).tasks[run[j].task]
  }

  lemma OvertakesTwice(r: Race, sys: System, run: seq<Action>, k: nat, j: nat)
    requires Fit(sys, run) && Overtakes(r, sys, run, k, j)
    ensures Count(r, Run(sys, run).session) >= Count(r, sys.session) + 2
  {
    hide Apply, Before, Commits, Count, InWindow, Run;
    BeforeNothing(sys, run);
    BeforeEnd(sys, run);
    CountGrows(r, sys, run, 0, k);
    BeforeNext(sys, run, k);
    RaceStep(r, Before(sys, run, k), run[k]);
    CountGrows(r, sys, run, k + 1, j);
    BeforeNext(sys, run, j);
    RaceStep(r, Before(sys, run, j), run[j]);
    CountGrows(r, sys, run, j + 1, |run|);
  }

  /** Between two calls of DTLS_Init a second completion is reported exactly when a completion falls
      between the test and the commit of another task. While no new ready state comes, a second closed
      round is sent exactly when a closed round falls between the test and the commit of another close. */
  lemma SecondCommitIff(r: Race, sys: System, run: seq<Action>)
    requires Fit(sys, run) && NoRearm(r, sys, run, 0, |run|)
    ensures Count(r, Run(sys, run).session) >= Count(r, sys.session) + 2 <==>
            exists k, j :: Overtakes(r, sys, run, k, j)
  {
    hide Apply, Before, Commits, Count, InWindow, Run, Overtakes;
    forall k, j | Overtakes(r, sys, run, k, j)
      ensures Count(r, Run(sys, run).session) >= Count(r, sys.session) + 2
    {
      OvertakesTwice(r, sys, run, k, j);
    }
    if Count(r, Run(sys, run).session) >= Count(r, sys.session) + 2 {
      BeforeEnd(sys, run);
      var j := LastCommit(r, sys, run, |run|);
      var k := LastCommit(r, sys, run, j);
      SecondWasTested(r, sys, run, k, j);
    }
  }

  lemma SecondWasTested(r: Race, sys: System, run: seq<Action>, k: nat, j: nat)
    requires Fit(sys, run) && NoRearm(r, sys, run, 0, |run|) && k < j < |run|
    requires Commits(r, Before(sys, run, k), run[k]) && Commits(r, Before(sys, run, j), run[j])
    ensures Overtakes(r, sys, run, k, j)
  {
    hide Apply, Before, Spent, Run;
    var t := run[j].task;
    BeforeNext(sys, run, k);
    RaceStep(r, Before(sys, run, k), run[k]);
    WindowWasOpen(r, sys, run, k + 1, j, t);
  }

  /** The k-th action takes away what the test saw, and nothing brings it back before the n-th. */
  predicate TakesAway(r: Race, sys: System, run: seq<Action>, k: nat, n: nat)
    requires Fit(sys, run) && k < n <= |run|
  {
    && !Spent(r, Before(sys, run, k).session) && Spent(r, Before(sys, run, k + 1).session)
    && NoRearm(r, sys, run, k + 1, n)
  }

  /** A commit finds its test overtaken exactly when some action since took away what the test saw, for
      good: this is when the ledger counts it as doubled or late. */
  lemma {:induction false} OvertakenIff(r: Race, sys: System, run: seq<Action>, n: nat)
    requires Fit(sys, run) && n <= |run| && !Spent(r, sys.session)
    ensures Spent(r, Before(sys, run, n).session) <==> exists k: nat :: k < n && TakesAway(r, sys, run, k, n)
    decreases n
  {
    hide Apply, Before, Spent, Rearms;
    forall k: nat | k < n && TakesAway(r, sys, run, k, n) ensures Spent(r, Before(sys, run, n).session) {
      WindowWasOpen(r, sys, run, k + 1, n, run[k].task);
    }
    if n == 0 {
      BeforeNothing(sys, run);
    } else if Spent(r, Before(sys, run, n).session) {
      BeforeNext(sys, run, n - 1);
      RaceStep(r, Before(sys, run, n - 1), run[n - 1]);
      OvertakenIff(r, sys, run, n - 1);
      if Spent(r, Before(sys, run, n - 1).session) {
        var k: nat :| k < n - 1 && TakesAway(r, sys, run, k, n - 1);
        assert TakesAway(r, sys, run, k, n);
      } else {
        assert TakesAway(r, sys, run, n - 1, n);
      }
    }
  }

  /** The entry of a commit in the ledger. */
  lemma LedgerCounts(sys: System, a: Action)
    requires a.task < |sys.tasks|
    ensures Apply(sys, a).ledger.doubled ==
            sys.ledger.doubled + One(Commits(Handshake, sys, a) && Spent(Handshake, sys.session))
    ensures Apply(sys, a).ledger.late ==
            sys.ledger.late + One(Commits(CloseRound, sys, a) && Spent(CloseRound, sys.session))
  {
  }

  // ---------- Calls that do not overlap ----------

  /** An upper bound on the steps to the end of the call. */
  function Rank(p: Place): nat {
    match p
    case Idle => 0
    case Finding | Resetting | Describing(_) => 1
    case InClose(_, _) | Initing(_) => 2
    case Timing(_, _) => 3
    case Completed(_, _, _) => 4
    case Tested(_, _) | PacketTested(_) => 5
    case Entering(_, _) => 6
  }

  /** What a call comes to when the task runs it to the end. */
  function Finish(s: Session, p: Place, l: Ledger): (Session, Ledger)
    decreases Rank(p)
  {
    if p.Idle? then (s, l)
    else
      var (s', p') := Proceed(s, p);
      Finish(s', p', Entry(l, s, s', p))
  }

  function Steps(task: nat, n: nat): (run: seq<Action>)
    ensures |run| == n && forall k :: 0 <= k < n ==> run[k].task == task
  {
    seq(n, _ => Goes(task))
  }

  /** A call that no other task interrupts. */
  function WholeCall(task: nat, e: Event): (run: seq<Action>)
    ensures forall k :: 0 <= k < |run| ==> run[k].task == task
  {
    [Calls(task, e)] + Steps(task, 6)
  }

  lemma {:induction false} RunAppend(sys: System, run: seq<Action>, rest: seq<Action>)
    requires Fit(sys, run) && Fit(sys, rest)
    ensures Fit(sys, run + rest) && Run(sys, run + rest) == Run(Run(sys, run), rest)
    decreases |rest|
  {
    hide Apply;
    if rest == [] {
      assert run + rest == run;
    } else {
      var n := |rest| - 1;
      assert (run + rest)[..|run| + n] == run + rest[..n];
      RunAppend(sys, run, rest[..n]);
    }
  }

  lemma RunOne(sys: System, a: Action)
    requires a.task < |sys.tasks|
    ensures Run(sys, [a]) == Apply(sys, a)
  {
    hide Apply;
    assert [a][..0] == [];
    assert Run(sys, []) == sys;
  }

  lemma {:induction false} StepsFinish(sys: System, task: nat, n: nat)
    requires task < |sys.tasks| && Rank(sys.tasks[task]) <= n
    ensures var (s, l) := Finish(sys.session, sys.tasks[task], sys.ledger);
      Run(sys, Steps(task, n)) == System(s, sys.tasks[task := Idle], l)
    decreases n
  {
    hide Proceed, Entry;
    if n == 0 {
      assert sys.tasks[task := Idle] == sys.tasks;
    } else {
      GoesOn(sys, task);
      RunOne(sys, Goes(task));
      assert Steps(task, n) == [Goes(task)] + Steps(task, n - 1);
      RunAppend(sys, [Goes(task)], Steps(task, n - 1));
      StepsFinish(Apply(sys, Goes(task)), task, n - 1);
    }
  }

  /** One step towards the end of the call; a task in no call stays as it is. */
  lemma GoesOn(sys: System, task: nat)
    requires task < |sys.tasks|
    ensures var sys' := Apply(sys, Goes(task));
      && Finish(sys'.session, sys'.tasks[task], sys'.ledger) == Finish(sys.session, sys.tasks[task], sys.ledger)
      && sys'.tasks[task := Idle] == sys.tasks[task := Idle]
      && (Rank(sys'.tasks[task]) < Rank(sys.tasks[task]) || sys'.tasks[task].Idle?)
  {
  }

  /** Nothing was committed twice. */
  predicate Clean(l: Ledger, l': Ledger) {
    l'.doubled == l.doubled && l'.revived == l.revived && l'.late == l.late
  }

  function Then(s: Session, after: After): Session {
    match after
    case Return => s
    case SetFound => s.(state := P2PConnectionFound)
    case Reset => OnClose(s)
  }

  lemma RestFinishes(s: Session, a: After, l: Ledger)
    ensures var (s', l') := Finish(s, Rest(a), l); s' == Then(s, a) && Clean(l, l')
  {
  }

  lemma CloseFinishes(s: Session, a: After, l: Ledger)
    ensures var (s', l') := Finish(s, EnterClose(s, a), l); s' == Then(CloseSession(s), a) && Clean(l, l')
  {
    var p := EnterClose(s, a);
    RestFinishes(CloseSession(s), a, Entry(l, s, CloseSession(s), p));
  }

  lemma TimingFinishes(s: Session, o: Outcome, a: After, l: Ledger)
    ensures var (s', l') := Finish(s, Timing(o, a), l);
      s' == Then(if o.timedOut then CloseSession(s) else s, a) && Clean(l, l')
  {
    hide Finish, Then;
    var l1 := Entry(l, s, s, Timing(o, a));
    FinishUnfolds(s, Timing(o, a), l);
    CloseFinishes(s, a, l1);
    RestFinishes(s, a, l1);
  }

  lemma FinishUnfolds(s: Session, p: Place, l: Ledger)
    requires !p.Idle?
    ensures var (s', p') := Proceed(s, p); Finish(s, p, l) == Finish(s', p', Entry(l, s, s', p))
  {
  }

  lemma CompletedFinishes(s: Session, o: Outcome, checksTime: bool, a: After, l: Ledger)
    requires s.dtls.Ready? && s.completions > 0
    ensures var (s', l') := Finish(s, Completed(o, checksTime, a), l);
      var done := HandshakeComplete(s.(completions := s.completions - 1), o.setupOk);
      s' == Then(if checksTime && o.setupOk && o.timedOut then CloseSession(done) else done, a) && Clean(l, l')
  {
    hide Finish, Then;
    var p := Completed(o, checksTime, a);
    FinishUnfolds(s, p, l);
    if o.setupOk {
      var done := HandshakeComplete(s.(completions := s.completions - 1), true);
      TimingFinishes(done, o, a, Entry(l, s, done, p));
      RestFinishes(done, a, Entry(l, s, done, p));
    } else {
      CloseFinishes(s, a, Entry(l, s, s, p));
    }
  }

  lemma HandshakeFinishes(s: Session, o: Outcome, a: After, l: Ledger)
    ensures var (s', l') := Finish(s, Entering(o, a), l); s' == Then(ExecuteHandshake(s, o), a) && Clean(l, l')
  {
    hide Finish, Then;
    var l1 := Entry(l, s, s, Entering(o, a));
    FinishUnfolds(s, Entering(o, a), l);
    if s.dtls.Ready? {
      TimingFinishes(s, o, a, l1);
    } else {
      FinishUnfolds(s, Tested(o, a), l1);
      if Completes(s, o.answer) {
        CompletedFinishes(Commit(s), o, true, a, Entry(l1, s, Commit(s), Tested(o, a)));
      } else {
        TimingFinishes(s, o, a, Entry(l1, s, s, Tested(o, a)));
        RestFinishes(s, a, Entry(l1, s, s, Tested(o, a)));
      }
    }
  }

  lemma FinishIdle(s: Session, l: Ledger)
    ensures Finish(s, Idle, l) == (s, l)
  {
  }

  lemma InitFinishes(s: Session, r: Remote, l: Ledger)
    ensures var (s1, p) := Begin(s, RemoteDescription(r));
      var (s', l') := Finish(s1, p, Entry(l, s, s1, Idle));
      s' == SetRemoteDescription(s, r) && Clean(l, l')
  {
  }

  lemma CallFinishes(s: Session, e: Event, l: Ledger)
    ensures var (s1, p) := Begin(s, e);
      var (s', l') := Finish(s1, p, Entry(l, s, s1, Idle));
      s' == Step(s, e) && Clean(l, l')
  {
    hide Finish, ExecuteHandshake;
    var (s1, p) := Begin(s, e);
    var l1 := Entry(l, s, s1, Idle);
    FinishIdle(s1, l1);
    match e
    case RemoteDescription(r) => InitFinishes(s, r, l);
    case ConnectionFound(o) => HandshakeFinishes(s, o, SetFound, l1);
    case Checking(o) => HandshakeFinishes(s, o, Return, l1);
    case PacketReceived(o) =>
      CloseFinishes(s, Return, l1);
      if PacketCompletes(s, o.answer) {
        FinishUnfolds(s, p, l1);
        CompletedFinishes(Commit(s), o, false, Return, Entry(l1, s, Commit(s), p));
      }
    case Close => CloseFinishes(s, Return, l1);
    case CloseNoIce => CloseFinishes(s, Reset, l1);
    case _ =>
  }

  /** A call that nothing interrupts is one step of SessionModel, and commits nothing twice. */
  lemma WholeCallIsStep(sys: System, task: nat, e: Event)
    requires task < |sys.tasks| && sys.tasks[task].Idle?
    ensures var sys' := Run(sys, WholeCall(task, e));
      sys'.session == Step(sys.session, e) && sys'.tasks == sys.tasks && Clean(sys.ledger, sys'.ledger)
  {
    hide Finish, Step, Proceed, Begin, Entry, Clean, Run;
    RunOne(sys, Calls(task, e));
    RunAppend(sys, [Calls(task, e)], Steps(task, 6));
    StepsFinish(Apply(sys, Calls(task, e)), task, 6);
    CallFinishes(sys.session, e, sys.ledger);
    assert sys.tasks[task := Idle] == sys.tasks;
  }

  function OneAfterAnother(calls: seq<(nat, Event)>): (run: seq<Action>) {
    if calls == [] then [] else WholeCall(calls[0].0, calls[0].1) + OneAfterAnother(calls[1..])
  }

  function Events(calls: seq<(nat, Event)>): seq<Event> {
    if calls == [] then [] else [calls[0].1] + Events(calls[1..])
  }

  /** Calls that do not overlap, of whatever tasks, are a run of SessionModel: RoundsAreAccounted and
      CompletesOncePerInit hold for them. */
  lemma {:induction false} SeparateCallsAreARun(sys: System, calls: seq<(nat, Event)>)
    requires forall p :: p in sys.tasks ==> p.Idle?
    requires forall k :: 0 <= k < |calls| ==> calls[k].0 < |sys.tasks|
    ensures Fit(sys, OneAfterAnother(calls))
    ensures var sys' := Run(sys, OneAfterAnother(calls));
      && sys'.session == RunSession(sys.session, Events(calls))
      && sys'.tasks == sys.tasks && Clean(sys.ledger, sys'.ledger)
    decreases |calls|
  {
    hide WholeCall, Step;
    if calls != [] {
      var first := WholeCall(calls[0].0, calls[0].1);
      WholeCallIsStep(sys, calls[0].0, calls[0].1);
      SeparateCallsAreARun(Run(sys, first), calls[1..]);
      RunAppend(sys, first, OneAfterAnother(calls[1..]));
      assert Events(calls)[1..] == Events(calls[1..]);
    }
  }

  // ---------- Two runs that commit twice ----------

  const AGREED := Outcome(Complete, true, false)

  const QUIET := Outcome(Waiting, true, false)

  const BROKEN := Outcome(Failed, true, false)

  /** A new session with its two tasks: the session task and the listener. */
  const TWO_TASKS := System(FRESH, [Idle, Idle], Ledger(0, 0, 0, 0, 0, 0))

  /** The session task makes the first n + 1 steps of a call; then the listener handles a packet; then the
      session task ends its call. */
  function Interrupted(e: Event, n: nat, packet: Outcome): (run: seq<Action>)
    ensures forall k :: 0 <= k < |run| ==> run[k].task < 2
  {
    ([Calls(0, e)] + Steps(0, n)) + (WholeCall(1, PacketReceived(packet)) + Steps(0, 6))
  }

  lemma InterruptedRun(sys: System, e: Event, n: nat, packet: Outcome)
    requires sys.tasks == [Idle, Idle] && n <= 1
    ensures var sys1 := Apply(sys, Calls(0, e));
      var sys2 := if n == 0 then sys1 else Apply(sys1, Goes(0));
      var s := Step(sys2.session, PacketReceived(packet));
      var sys' := Run(sys, Interrupted(e, n, packet));
      && sys'.tasks == [Idle, Idle]
      && exists l :: sys'.session == Finish(s, sys2.tasks[0], l).0
  {
    hide Finish, Step, Proceed, Begin, Entry, Clean, Run;
    var sys1 := Apply(sys, Calls(0, e));
    var sys2 := if n == 0 then sys1 else Apply(sys1, Goes(0));
    RunOne(sys, Calls(0, e));
    RunOne(sys1, Goes(0));
    RunNothing(sys1);
    assert Steps(0, n) == if n == 0 then [] else [Goes(0)];
    RunAppend(sys, [Calls(0, e)], Steps(0, n));
    WholeCallIsStep(sys2, 1, PacketReceived(packet));
    var sys3 := Run(sys2, WholeCall(1, PacketReceived(packet)));
    StepsFinish(sys3, 0, 6);
    RunAppend(sys2, WholeCall(1, PacketReceived(packet)), Steps(0, 6));
    RunAppend(sys, [Calls(0, e)] + Steps(0, n), WholeCall(1, PacketReceived(packet)) + Steps(0, 6));
  }

  lemma RunNothing(sys: System)
    ensures Run(sys, []) == sys
  {
  }

  /** Started, described and found, with the handshake still open. */
  function UntilFound(): (calls: seq<(nat, Event)>) {
    [(0, Starting(Everything)), (0, RemoteDescription(Accepted)), (1, ConnectionFound(QUIET))]
  }

  lemma FoundSession()
    ensures RunSession(FRESH, Events(UntilFound())) == Session(P2PConnectionFound, Handshaking, BOTH, [], 1, 0, 0, 0)
  {
    var s1 := StartSession(FRESH, Everything);
    var s2 := Step(s1, RemoteDescription(Accepted));
    assert s1.transceivers == BOTH;
    EventsOne(UntilFound());
    EventsOne(UntilFound()[1..]);
    EventsOne(UntilFound()[1..][1..]);
    SessionModel.RunOne(FRESH, Starting(Everything), Events(UntilFound()[1..]));
    SessionModel.RunOne(s1, RemoteDescription(Accepted), Events(UntilFound()[1..][1..]));
    SessionModel.RunOne(s2, ConnectionFound(QUIET), []);
    RunNone(Found(s2, QUIET));
  }

  lemma EventsOne(calls: seq<(nat, Event)>)
    requires calls != []
    ensures Events(calls) == [calls[0].1] + Events(calls[1..])
  {
  }

  /** Two new tasks get there. */
  lemma FoundSystem()
    ensures Fit(TWO_TASKS, OneAfterAnother(UntilFound()))
    ensures var sys := Run(TWO_TASKS, OneAfterAnother(UntilFound()));
      sys.tasks == [Idle, Idle] && sys.session == Session(P2PConnectionFound, Handshaking, BOTH, [], 1, 0, 0, 0)
  {
    FoundSession();
    SeparateCallsAreARun(TWO_TASKS, UntilFound());
  }

  lemma SecondCompletion(s: Session, l: Ledger)
    requires s.dtls.Ready?
    ensures var s' := Finish(s, Tested(AGREED, Return), l).0;
      s'.inits == s.inits && s'.completions == s.completions + 1 && s'.readyRounds == s.readyRounds + 1
  {
    hide Finish;
    FinishUnfolds(s, Tested(AGREED, Return), l);
    CompletedFinishes(Commit(s), AGREED, true, Return, Entry(l, s, Commit(s), Tested(AGREED, Return)));
  }

  lemma RetryInterrupted(sys: System)
    requires sys.tasks == [Idle, Idle] && sys.session.state.P2PConnectionFound? && sys.session.dtls.Handshaking?
    ensures var s := Run(sys, Interrupted(Checking(AGREED), 1, AGREED)).session;
      && s.inits == sys.session.inits && s.completions == sys.session.completions + 2
      && s.readyRounds == sys.session.readyRounds + 2
  {
    hide Finish, Run, Interrupted;
    InterruptedRun(sys, Checking(AGREED), 1, AGREED);
    var s := Step(sys.session, PacketReceived(AGREED));
    forall l: Ledger {
      SecondCompletion(s, l);
    }
  }

  /** The retry of the session task has seen that the handshake is not over; a packet completes it; then
      the retry reports that it is complete once more. One init, two completions, two ready rounds. */
  lemma CompletedTwice()
    ensures var run := OneAfterAnother(UntilFound()) + Interrupted(Checking(AGREED), 1, AGREED);
      && Fit(TWO_TASKS, run)
      && var s := Run(TWO_TASKS, run).session;
         s.inits == 1 && s.completions == 2 && s.readyRounds == 2
  {
    hide Run, Interrupted, OneAfterAnother, UntilFound;
    FoundSystem();
    var sys := Run(TWO_TASKS, OneAfterAnother(UntilFound()));
    RetryInterrupted(sys);
    RunAppend(TWO_TASKS, OneAfterAnother(UntilFound()), Interrupted(Checking(AGREED), 1, AGREED));
  }

  lemma SecondClose(s: Session, l: Ledger)
    ensures var s' := Finish(s, InClose(true, Return), l).0;
      s'.readyRounds == s.readyRounds && s'.closedRounds == s.closedRounds + 1
  {
    hide Finish;
    var p := InClose(true, Return);
    FinishUnfolds(s, p, l);
    RestFinishes(LeaveClose(s, true), Return, Entry(l, s, LeaveClose(s, true), p));
  }

  lemma CloseInterrupted(sys: System)
    requires sys.tasks == [Idle, Idle] && sys.session.state.ConnectionReady?
    ensures var s := Run(sys, Interrupted(Close, 0, BROKEN)).session;
      s.readyRounds == sys.session.readyRounds && s.closedRounds == sys.session.closedRounds + 2
  {
    hide Finish, Run, Interrupted;
    InterruptedRun(sys, Close, 0, BROKEN);
    var s := Step(sys.session, PacketReceived(BROKEN));
    forall l: Ledger {
      SecondClose(s, l);
    }
  }

  /** The session task has read that the session is ready; a packet that breaks off the connection closes
      it; then the session task closes it once more. One ready round, two closed rounds. */
  lemma ClosedTwice()
    ensures var run := OneAfterAnother(UntilFound())
                       + (WholeCall(1, PacketReceived(AGREED)) + Interrupted(Close, 0, BROKEN));
      && Fit(TWO_TASKS, run)
      && var s := Run(TWO_TASKS, run).session;
         s.readyRounds == 1 && s.closedRounds == 2
  {
    hide Run, Interrupted, OneAfterAnother, UntilFound, WholeCall;
    FoundSystem();
    var sys := Run(TWO_TASKS, OneAfterAnother(UntilFound()));
    WholeCallIsStep(sys, 1, PacketReceived(AGREED));
    var sys1 := Run(sys, WholeCall(1, PacketReceived(AGREED)));
    CloseInterrupted(sys1);
    RunAppend(sys, WholeCall(1, PacketReceived(AGREED)), Interrupted(Close, 0, BROKEN));
    RunAppend(TWO_TASKS, OneAfterAnother(UntilFound()),
              WholeCall(1, PacketReceived(AGREED)) + Interrupted(Close, 0, BROKEN));
  }
}
