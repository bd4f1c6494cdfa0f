/** The scan session of the scanner host. The state is four flags:
    `pause_requested`, `stop_requested`, `scan_active` and `scan_paused`.
    The scan poll loop of `trigger_scan` shares them with the `pause_scan`
    and `stop_scan` endpoints. The state also records whether the browser
    driver is open. The caller supplies the outcome of every browser
    interaction. Requests and poll steps are atomic steps taken one after
    the other. */
module ScanSession {
  import opened Common
  import opened ScanDirectory

  datatype SessionState = SessionState(
    pauseRequested: bool,
    stopRequested: bool,
    active: bool,
    paused: bool,
    driverOpen: bool)

  /** Only an active session can be paused or hold an open driver. */
  predicate Coherent(s: SessionState)
  {
    (s.paused ==> s.active) && (s.driverOpen ==> s.active)
  }

  /** The state at process start. */
  const Idle := SessionState(false, false, false, false, false)

  /** The reset at the top of `trigger_scan`: neither request pending, the
      session active and not paused. The source does not refuse a start
      while another session is active. */
  function Start(s: SessionState): (r: SessionState)
    ensures r.active && !r.paused && !r.pauseRequested && !r.stopRequested
    ensures r.driverOpen == s.driverOpen
    ensures Coherent(r)
  {
    s.(pauseRequested := false, stopRequested := false, active := true, paused := false)
  }

  /** `pause_scan`: refused (false) when no session is active. Otherwise it
      is accepted and raises the pause request, and no other flag changes. */
  function PauseScan(s: SessionState): (r: (SessionState, bool))
    ensures r.1 <==> s.active
    ensures r.0.pauseRequested <==> s.pauseRequested || s.active
    ensures r.0.(pauseRequested := s.pauseRequested) == s
  {
    if !s.active then (s, false) else (s.(pauseRequested := true), true)
  }

  /** `stop_scan`: refused (false) when no session is active. Otherwise it
      is accepted and raises the stop request, and no other flag changes. */
  function StopScan(s: SessionState): (r: (SessionState, bool))
    ensures r.1 <==> s.active
    ensures r.0.stopRequested <==> s.stopRequested || s.active
    ensures r.0.(stopRequested := s.stopRequested) == s
  {
    if !s.active then (s, false) else (s.(stopRequested := true), true)
  }

  /** The teardown on every way out of `trigger_scan`. The session becomes
      inactive and unpaused, and the driver is quit and cleared. Pending
      requests are left as they are; the next start clears them. */
  function TearDown(s: SessionState): (r: SessionState)
    ensures !r.active && !r.paused && !r.driverOpen && Coherent(r)
    ensures r.pauseRequested == s.pauseRequested && r.stopRequested == s.stopRequested
  {
    s.(active := false, paused := false, driverOpen := false)
  }

  /** Stop button then delete confirmation: both clicked, or a wait or a
      click raised (the failure is logged and the loop goes on). */
  datatype StopOutcome = StopDone | StopFailed

  /** The pause button: clicked, found with its inactive class, or not found
      (or the click raised). */
  datatype PauseOutcome = PauseClicked | PauseInactive | PauseFailed

  /** The one-second wait for the start button that signals completion: it
      became clickable, the wait timed out, or the driver raised something
      other than a timeout. */
  datatype ProbeOutcome = StartVisible | ProbeTimeout | ProbeFault

  /** One iteration of the poll loop before the deadline. It holds the pause
      and stop requests that arrive just before the iteration and the
      outcome of each browser interaction the iteration may make. */
  datatype Tick = Tick(pauseCall: bool, stopCall: bool, stop: StopOutcome, pause: PauseOutcome, probe: ProbeOutcome)

  /** How an iteration, or the whole loop, ends. */
  datatype LoopExit = Continue | UserStopped | ScanFinished | DeadlinePassed | AutomationFault

  /** The requests of a tick, handled by the endpoints in that order. */
  function Arrive(s: SessionState, t: Tick): (r: SessionState)
    ensures r.pauseRequested <==> s.pauseRequested || (t.pauseCall && s.active)
    ensures r.stopRequested <==> s.stopRequested || (t.stopCall && s.active)
    ensures r.active == s.active && r.paused == s.paused && r.driverOpen == s.driverOpen
  {
    var afterPause := if t.pauseCall then PauseScan(s).0 else s;
    if t.stopCall then StopScan(afterPause).0 else afterPause
  }

  /** One iteration of the poll loop. Both requests are read and cleared in
      one step. A stop whose clicks succeed ends the loop. A pending pause on
      an unpaused scan clicks the pause button. When that button is
      inactive, the pause request is raised again for a later iteration.
      Completion is probed only when the scan was not paused at the start of
      the iteration. */
  function PollStep(s: SessionState, t: Tick): (r: (SessionState, LoopExit))
    ensures r.1 != DeadlinePassed
    ensures !r.0.stopRequested
    ensures r.0.active == s.active && r.0.driverOpen == s.driverOpen
    ensures r.1 == UserStopped <==> s.stopRequested && t.stop == StopDone
    ensures r.0.pauseRequested <==>
      s.pauseRequested && !s.paused && t.pause == PauseInactive && r.1 != UserStopped
    ensures r.0.paused <==>
      s.paused || (s.pauseRequested && t.pause == PauseClicked && r.1 != UserStopped)
    ensures r.1 == ScanFinished <==> r.1 != UserStopped && !s.paused && t.probe == StartVisible
    ensures r.1 == AutomationFault <==> r.1 != UserStopped && !s.paused && t.probe == ProbeFault
    ensures s.active && Coherent(s) ==> Coherent(r.0)
  {
    var cleared := s.(pauseRequested := false, stopRequested := false);
    if s.stopRequested && t.stop == StopDone then (cleared, UserStopped)
    else
      var next :=
        if s.pauseRequested && !s.paused then
          match t.pause
          case PauseClicked => cleared.(paused := true)
          case PauseInactive => cleared.(pauseRequested := true)
          case PauseFailed => cleared
        else cleared;
      if s.paused then (next, Continue)
      else
        match t.probe
        case StartVisible => (next, ScanFinished)
        case ProbeTimeout => (next, Continue)
        case ProbeFault => (next, AutomationFault)
  }

  /** The poll loop over the iterations that start before the deadline.
      Running out of iterations is the deadline exit. */
  function RunLoop(s: SessionState, ticks: seq<Tick>): (r: (SessionState, LoopExit))
    ensures r.1 != Continue
    ensures r.0.active == s.active && r.0.driverOpen == s.driverOpen
    ensures s.paused ==> r.0.paused && r.1 != ScanFinished
    ensures s.active && Coherent(s) ==> Coherent(r.0)
    ensures ticks == [] ==> r == (s, DeadlinePassed)
    decreases |ticks|
  {
    if ticks == [] then (s, DeadlinePassed)
    else
      var (next, exit) := PollStep(Arrive(s, ticks[0]), ticks[0]);
      if exit == Continue then RunLoop(next, ticks[1..]) else (next, exit)
  }

  /** Every iteration run regardless of how the previous one ended: the
      state and exit after each iteration, in order. */
  function Steps(s: SessionState, ticks: seq<Tick>): (r: seq<(SessionState, LoopExit)>)
    ensures |r| == |ticks|
    decreases |ticks|
  {
    if ticks == [] then []
    else
      var step := PollStep(Arrive(s, ticks[0]), ticks[0]);
      [step] + Steps(step.0, ticks[1..])
  }

  /** The state before iteration `i`. */
  function Before(s: SessionState, ticks: seq<Tick>, i: nat): SessionState
    requires i <= |ticks|
  {
    if i == 0 then s else Steps(s, ticks)[i - 1].0
  }

  /** Iterations `0 .. i-1` all continued. */
  predicate ContinuedUpTo(steps: seq<(SessionState, LoopExit)>, i: nat)
    requires i <= |steps|
  {
    forall j :: 0 <= j < i ==> steps[j].1 == Continue
  }

  lemma StepsUnfold(s: SessionState, ticks: seq<Tick>)
    requires ticks != []
    ensures Steps(s, ticks)
      == [PollStep(Arrive(s, ticks[0]), ticks[0])] + Steps(PollStep(Arrive(s, ticks[0]), ticks[0]).0, ticks[1..])
  {
  }

  /** The loop ends with the first iteration that does not continue: its
      state and exit are the loop's. */
  lemma {:induction false} RunLoopExit(s: SessionState, ticks: seq<Tick>, i: nat)
    requires i < |ticks| && ContinuedUpTo(Steps(s, ticks), i) && Steps(s, ticks)[i].1 != Continue
    ensures RunLoop(s, ticks) == Steps(s, ticks)[i]
    decreases i
  {
    StepsUnfold(s, ticks);
    if i > 0 {
      var next := PollStep(Arrive(s, ticks[0]), ticks[0]).0;
      assert Steps(s, ticks)[0].1 == Continue;
      var rest := Steps(next, ticks[1..]);
      assert forall j :: 0 <= j < i - 1 ==> rest[j] == Steps(s, ticks)[j + 1];
      assert rest[i - 1] == Steps(s, ticks)[i];
      RunLoopExit(next, ticks[1..], i - 1);
    }
  }

  /** The first iteration continued, and so did the next `i` of the rest. */
  lemma ContinuedUnfold(s: SessionState, ticks: seq<Tick>, i: nat)
    requires 0 < i <= |ticks|
    ensures ContinuedUpTo(Steps(s, ticks), i) <==>
      && PollStep(Arrive(s, ticks[0]), ticks[0]).1 == Continue
      && ContinuedUpTo(Steps(PollStep(Arrive(s, ticks[0]), ticks[0]).0, ticks[1..]), i - 1)
  {
    StepsUnfold(s, ticks);
    var all := Steps(s, ticks);
    var rest := Steps(PollStep(Arrive(s, ticks[0]), ticks[0]).0, ticks[1..]);
    assert forall j :: 0 <= j < |rest| ==> rest[j] == all[j + 1];
    if ContinuedUpTo(all, i) {
      forall j | 0 <= j < i - 1
        ensures rest[j].1 == Continue
      {
        assert rest[j] == all[j + 1];
      }
    }
    if all[0].1 == Continue && ContinuedUpTo(rest, i - 1) {
      forall j | 0 < j < i
        ensures all[j].1 == Continue
      {
        assert all[j] == rest[j - 1];
      }
    }
  }

  /** The loop reaches the deadline exactly when every iteration continues,
      and then it ends in the state after the last iteration. */
  lemma {:induction false} RunLoopDeadline(s: SessionState, ticks: seq<Tick>)
    ensures RunLoop(s, ticks).1 == DeadlinePassed <==> ContinuedUpTo(Steps(s, ticks), |ticks|)
    ensures RunLoop(s, ticks).1 == DeadlinePassed ==> RunLoop(s, ticks).0 == Before(s, ticks, |ticks|)
    decreases |ticks|
  {
    if ticks != [] {
      StepsUnfold(s, ticks);
      var next := PollStep(Arrive(s, ticks[0]), ticks[0]).0;
      RunLoopDeadline(next, ticks[1..]);
      ContinuedUnfold(s, ticks, |ticks|);
      if |ticks| > 1 {
        assert Steps(next, ticks[1..])[|ticks| - 2] == Steps(s, ticks)[|ticks| - 1];
      }
    }
  }

  /** What `trigger_scan` answers. */
  datatype SessionResult =
    | Stopped                                               // "Scan stopped and deleted"
    | Completed(fileName: string, downloadName: Option<string>)  // "Scan complete"
    | Error                                                 // 500

  /** A download name that is absent or empty is reported as null. */
  function Reported(name: Option<string>): (r: Option<string>)
    ensures r.Some? <==> name.Some? && name.value != ""
    ensures r.Some? ==> r == name
  {
    if name.None? || name.value == "" then None else name
  }

  /** A whole `trigger_scan` from state `s`. `setupOk` says whether the
      driver was created, the page loaded and the start and alert buttons
      were clicked. `ticks` are the loop iterations before the deadline.
      `listing` is the scan listing fetched after the loop, or `None` when
      that request raised. The result pairs the final state with the
      answer. */
  function Session(s: SessionState, setupOk: bool, ticks: seq<Tick>, listing: Option<seq<ScanRecord>>)
    : (r: (SessionState, SessionResult))
    ensures !r.0.active && !r.0.paused && !r.0.driverOpen && Coherent(r.0)
    ensures !setupOk ==> r.1 == Error
    ensures r.1 == Stopped <==> setupOk && RunLoop(Start(s).(driverOpen := true), ticks).1 == UserStopped
    ensures r.1 == Error <==>
      || !setupOk
      || RunLoop(Start(s).(driverOpen := true), ticks).1 == AutomationFault
      || (RunLoop(Start(s).(driverOpen := true), ticks).1 != UserStopped && listing.None?)
    ensures r.1.Completed? <==>
      && setupOk && listing.Some?
      && RunLoop(Start(s).(driverOpen := true), ticks).1 in {ScanFinished, DeadlinePassed}
    ensures r.1.Completed? ==>
      && listing.Some?
      && r.1.fileName == OrDefault(LatestScanInfo(listing.value).0, "unknown")
      && r.1.downloadName == Reported(LatestScanInfo(listing.value).1)
  {
    var started := Start(s);
    if !setupOk then (TearDown(started), Error)
    else
      var (last, exit) := RunLoop(started.(driverOpen := true), ticks);
      var done := TearDown(last);
      if exit == UserStopped then (done, Stopped)
      else if exit == AutomationFault || listing.None? then (done, Error)
      else
        var (display, download) := LatestScanInfo(listing.value);
        (done, Completed(OrDefault(display, "unknown"), Reported(download)))
  }

  /** The number of iterations that find the stop request raised, each of
      which tries to stop the scan. */
  function StopAttempts(s: SessionState, ticks: seq<Tick>): nat
    decreases |ticks|
  {
    if ticks == [] then 0
    else
      var arrived := Arrive(s, ticks[0]);
      var (next, exit) := PollStep(arrived, ticks[0]);
      (if arrived.stopRequested then 1 else 0) + (if exit == Continue then StopAttempts(next, ticks[1..]) else 0)
  }

  /** The number of stop requests among the ticks. */
  function StopCalls(ticks: seq<Tick>): nat
  {
    if ticks == [] then 0 else (if ticks[0].stopCall then 1 else 0) + StopCalls(ticks[1..])
  }

  /** A stop request is consumed once: the loop tries to stop the scan at
      most once per request (plus once for a request pending at entry). A
      stop whose clicks fail is not retried. */
  lemma {:induction false} StopConsumedOnce(s: SessionState, ticks: seq<Tick>)
    ensures StopAttempts(s, ticks) <= (if s.stopRequested then 1 else 0) + StopCalls(ticks)
    decreases |ticks|
  {
    if ticks != [] {
      var (next, exit) := PollStep(Arrive(s, ticks[0]), ticks[0]);
      if exit == Continue {
        StopConsumedOnce(next, ticks[1..]);
      }
    }
  }

  /** An inactive pause button never loses the request. While the button
      stays inactive and no stop succeeds, the pause request is still
      pending when the loop ends, whatever the exit. */
  lemma {:induction false} InactivePauseKeptPending(s: SessionState, ticks: seq<Tick>)
    requires s.pauseRequested && !s.paused
    requires forall i :: 0 <= i < |ticks| ==> ticks[i].pause == PauseInactive
    ensures RunLoop(s, ticks).1 != UserStopped ==> RunLoop(s, ticks).0.pauseRequested
    decreases |ticks|
  {
    if ticks != [] {
      var (next, exit) := PollStep(Arrive(s, ticks[0]), ticks[0]);
      if exit == Continue {
        assert forall i :: 0 <= i < |ticks[1..]| ==> ticks[1..][i] == ticks[i + 1];
        InactivePauseKeptPending(next, ticks[1..]);
      }
    }
  }

  /** A stop requested and carried out in the first iteration ends the
      session as stopped. */
  lemma StopEndsSession(s: SessionState, ticks: seq<Tick>, listing: Option<seq<ScanRecord>>)
    requires ticks != [] && ticks[0].stopCall && ticks[0].stop == StopDone
    ensures Session(s, true, ticks, listing).1 == Stopped
  {
  }

  /** A stop carried out while the scan is paused ends the session as
      stopped, inactive and unpaused, never as completed: when the loop
      has continued up to iteration `i`, the scan is paused before it, and
      a stop arrives then and its clicks succeed. */
  lemma {:induction false} StopWhilePaused(s: SessionState, ticks: seq<Tick>, listing: Option<seq<ScanRecord>>, i: nat)
    requires i < |ticks|
    requires ContinuedUpTo(Steps(Start(s).(driverOpen := true), ticks), i)
    requires Before(Start(s).(driverOpen := true), ticks, i).paused
    requires ticks[i].stopCall && ticks[i].stop == StopDone
    ensures Session(s, true, ticks, listing).1 == Stopped
    ensures !Session(s, true, ticks, listing).0.active && !Session(s, true, ticks, listing).0.paused
  {
    var launched := Start(s).(driverOpen := true);
    var steps := Steps(launched, ticks);
    ActiveWhileContinuing(launched, ticks, i);
    assert steps[i].1 == UserStopped by {
      StepAt(launched, ticks, i);
    }
    RunLoopExit(launched, ticks, i);
  }

  /** While the loop continues, whether the session is active does not
      change. */
  lemma {:induction false} ActiveWhileContinuing(s: SessionState, ticks: seq<Tick>, i: nat)
    requires i <= |ticks| && ContinuedUpTo(Steps(s, ticks), i)
    ensures Before(s, ticks, i).active == s.active
    decreases i
  {
    if i > 0 {
      ActiveWhileContinuing(s, ticks, i - 1);
      StepAt(s, ticks, i - 1);
    }
  }

  /** Iteration `i` starts from the state before it. */
  lemma {:induction false} StepAt(s: SessionState, ticks: seq<Tick>, i: nat)
    requires i < |ticks|
    ensures Steps(s, ticks)[i] == PollStep(Arrive(Before(s, ticks, i), ticks[i]), ticks[i])
    decreases i
  {
    StepsUnfold(s, ticks);
    if i > 0 {
      var next := PollStep(Arrive(s, ticks[0]), ticks[0]).0;
      StepAt(next, ticks[1..], i - 1);
      if i > 1 {
        assert Before(s, ticks, i) == Before(next, ticks[1..], i - 1);
      }
    }
  }

  /** A stop while paused can happen: the first iteration pauses the scan
      and the second carries out a stop. */
  lemma {:induction false} PauseThenStop(s: SessionState, listing: Option<seq<ScanRecord>>)
    ensures
      var ticks := [Tick(true, false, StopFailed, PauseClicked, ProbeTimeout),
                    Tick(false, true, StopDone, PauseClicked, ProbeTimeout)];
      && Before(Start(s).(driverOpen := true), ticks, 1).paused
      && Session(s, true, ticks, listing).1 == Stopped
  {
    var ticks := [Tick(true, false, StopFailed, PauseClicked, ProbeTimeout),
                  Tick(false, true, StopDone, PauseClicked, ProbeTimeout)];
    var launched := Start(s).(driverOpen := true);
    StepsUnfold(launched, ticks);
    StopWhilePaused(s, ticks, listing, 1);
  }

  /** The four flags and the driver slot, updated in place by the scan
      endpoint and by the pause and stop endpoints. */
  class Controller {
    var pauseRequested: bool
    var stopRequested: bool
    var active: bool
    var paused: bool
    var driverOpen: bool

    function State(): SessionState
      reads this
    {
      SessionState(pauseRequested, stopRequested, active, paused, driverOpen)
    }

    ghost predicate Valid()
      reads this
    {
      Coherent(State())
    }

    constructor ()
      ensures State() == Idle && Valid()
    {
      pauseRequested, stopRequested, active, paused, driverOpen := false, false, false, false, false;
    }

    /** `pause_scan` */
    method RequestPause() returns (accepted: bool)
      requires Valid()
      modifies this
      ensures (State(), accepted) == PauseScan(old(State()))
      ensures Valid()
    {
      if !active {
        return false;
      }
      pauseRequested := true;
      return true;
    }

    /** `stop_scan` */
    method RequestStop() returns (accepted: bool)
      requires Valid()
      modifies this
      ensures (State(), accepted) == StopScan(old(State()))
      ensures Valid()
    {
      if !active {
        return false;
      }
      stopRequested := true;
      return true;
    }

    /** One iteration of the poll loop. */
    method PollOnce(t: Tick) returns (exit: LoopExit)
      requires Valid() && active
      modifies this
      ensures (State(), exit) == PollStep(old(State()), t)
      ensures Valid() && active
    {
      var doPause, doStop, isPaused := pauseRequested, stopRequested, paused;
      if doPause {
        pauseRequested := false;
      }
      if doStop {
        stopRequested := false;
      }
      if doStop && t.stop == StopDone {
        return UserStopped;
      }
      if doPause && !isPaused {
        match t.pause
        case PauseClicked => paused := true;
        case PauseInactive => pauseRequested := true;
        case PauseFailed =>
      }
      if !isPaused {
        match t.probe
        case StartVisible => return ScanFinished;
        case ProbeTimeout =>
        case ProbeFault => return AutomationFault;
      }
      return Continue;
    }

    method TearDownSession()
      requires Valid()
      modifies this
      ensures State() == TearDown(old(State()))
      ensures Valid()
    {
      active := false;
      paused := false;
      driverOpen := false;
    }

    /** `trigger_scan`: reset, set up, poll until an exit or the deadline,
        tear down, then report the latest scan. */
    method RunScan(setupOk: bool, ticks: seq<Tick>, listing: Option<seq<ScanRecord>>) returns (r: SessionResult)
      modifies this
      ensures (State(), r) == Session(old(State()), setupOk, ticks, listing)
      ensures Valid() && !active && !paused && !driverOpen
    {
      pauseRequested, stopRequested, active, paused := false, false, true, false;
      if !setupOk {
        TearDownSession();
        return Error;
      }
      driverOpen := true;
      ghost var launched := State();
      var exit := Continue;
      var i := 0;
      while i < |ticks| && exit == Continue
        invariant 0 <= i <= |ticks|
        invariant Valid() && active
        invariant exit == Continue ==> RunLoop(State(), ticks[i..]) == RunLoop(launched, ticks)
        invariant exit != Continue ==> (State(), exit) == RunLoop(launched, ticks)
        decreases |ticks| - i
      {
        var t := ticks[i];
        ghost var before := State();
        assert ticks[i..][0] == t && ticks[i..][1..] == ticks[i + 1..];
        if t.pauseCall {
          var _ := RequestPause();
        }
        if t.stopCall {
          var _ := RequestStop();
        }
        assert State() == Arrive(before, t);
        exit := PollOnce(t);
        i := i + 1;
      }
      if exit == Continue {
        exit := DeadlinePassed;
      }
      TearDownSession();
      if exit == UserStopped {
        return Stopped;
      }
      if exit == AutomationFault || listing.None? {
        return Error;
      }
      var (display, download) := LatestScanInfo(listing.value);
      r := Completed(OrDefault(display, "unknown"), Reported(download));
    }
  }
}
