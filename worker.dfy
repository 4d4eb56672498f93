/** The per-instance worker loop of internal/job/job.go (startJobWorker) as a
    state machine over what each spawn attempt ends in. Time, the OS and the
    process itself are abstracted into one Outcome per attempt. */
module Worker {
  import opened States

  /** What one pass of the worker loop observes. */
  datatype Outcome =
    | SpawnFailed            // tryStart returned an error
    | StopSeen               // the process exited after a concurrent Stop marked the instance STOPPING
    | ExitedEarly            // the process exited less than StartSecs after it was spawned
    | ExitedLate(code: int)  // the process exited at least StartSecs after it was spawned

  /** The job fields the worker loop reads. */
  datatype Policy = Policy(startRetries: int, autorestart: string, exitCodes: seq<int>)

  /** The worker after some attempts: the instance's state, the retry counter,
      whether the loop has ended, and the states the worker wrote, in order. */
  datatype Progress = Progress(state: string, retries: int, ended: bool, trace: seq<string>)

  /** The worker before its first attempt, over an instance in state `initial`. */
  function Begin(initial: string): Progress
  {
    Progress(initial, 0, false, [])
  }

  predicate IsFailure(o: Outcome)
  {
    o.SpawnFailed? || o.ExitedEarly?
  }

  /** BACKOFF after a failed attempt: the counter goes up and the loop ends
      exactly when it equals StartRetries. */
  function Backoff(p: Policy, retries: int, trace: seq<string>): Progress
  {
    var r := retries + 1;
    Progress(States.Backoff, r, p.startRetries == r, trace + [States.Backoff])
  }

  /** One pass of the loop. An exit after StartSecs ends the loop only under
      autorestart "false"; under "unexpected" the exit-code scan has no effect,
      so every other mode relaunches. */
  function Attempt(p: Policy, w: Progress, o: Outcome): Progress
    requires !w.ended
  {
    match o
    case SpawnFailed => Backoff(p, w.retries, w.trace + [Starting])
    case StopSeen => Progress(Stopping, w.retries, true, w.trace + [Starting, Running])
    case ExitedEarly => Backoff(p, w.retries, w.trace + [Starting, Running])
    case ExitedLate(_) =>
      Progress(Exited, 0, p.autorestart == AutorestartFalse, w.trace + [Starting, Running, Exited])
  }

  /** The loop over a sequence of outcomes; it stops consuming once it has ended. */
  function RunFrom(p: Policy, w: Progress, os: seq<Outcome>): Progress
    decreases |os|
  {
    if w.ended || |os| == 0 then w else RunFrom(p, Attempt(p, w, os[0]), os[1..])
  }

  /** The code after the loop: BACKOFF becomes FATAL, STOPPING becomes STOPPED. */
  function Finish(w: Progress): Progress
  {
    if w.state == States.Backoff then w.(state := Fatal, trace := w.trace + [Fatal])
    else if w.state == Stopping then w.(state := Stopped, trace := w.trace + [Stopped])
    else w
  }

  /** The whole worker: the loop and, if it ended, the code after it. */
  function Work(p: Policy, initial: string, os: seq<Outcome>): Progress
  {
    var w := RunFrom(p, Begin(initial), os);
    if w.ended then Finish(w) else w
  }

  /** The number of outcomes the loop consumes before it ends. */
  function Used(p: Policy, w: Progress, os: seq<Outcome>): (n: nat)
    ensures n <= |os|
    decreases |os|
  {
    if w.ended || |os| == 0 then 0 else 1 + Used(p, Attempt(p, w, os[0]), os[1..])
  }

  /** A loop that has ended stopped in BACKOFF, STOPPING or EXITED, and a loop
      that has not ended is in one of the states a pass leaves it in. */
  lemma {:induction false} RunFromStates(p: Policy, w: Progress, os: seq<Outcome>)
    requires w.ended ==> w.state in {States.Backoff, Stopping, Exited}
    ensures var r := RunFrom(p, w, os);
      r.ended ==> r.state in {States.Backoff, Stopping, Exited}
    decreases |os|
  {
    if !w.ended && |os| > 0 {
      RunFromStates(p, Attempt(p, w, os[0]), os[1..]);
    }
  }

  /** A worker that returns leaves its instance FATAL, STOPPED or EXITED. */
  lemma TerminalStates(p: Policy, initial: string, os: seq<Outcome>)
    ensures var r := Work(p, initial, os);
      r.ended ==> r.state in {Fatal, Stopped, Exited}
  {
    RunFromStates(p, Begin(initial), os);
  }

  /** Failing attempts below the limit: each adds one BACKOFF and raises the
      counter; the loop ends on the attempt that makes the counter equal
      StartRetries and not before. */
  lemma {:induction false} FailuresCount(p: Policy, w: Progress, os: seq<Outcome>)
    requires !w.ended && 0 <= w.retries
    requires forall k :: 0 <= k < |os| ==> IsFailure(os[k])
    ensures var r := RunFrom(p, w, os);
      if w.retries < p.startRetries <= w.retries + |os| then
        r.ended && r.state == States.Backoff && r.retries == p.startRetries
        && multiset(r.trace)[States.Backoff] == multiset(w.trace)[States.Backoff] + (p.startRetries - w.retries)
        && Used(p, w, os) == p.startRetries - w.retries
      else
        !r.ended && r.retries == w.retries + |os|
        && multiset(r.trace)[States.Backoff] == multiset(w.trace)[States.Backoff] + |os|
    decreases |os|
  {
    if |os| > 0 {
      var next := Attempt(p, w, os[0]);
      assert multiset(next.trace)[States.Backoff] == multiset(w.trace)[States.Backoff] + 1;
      if !next.ended {
        FailuresCount(p, next, os[1..]);
      }
    }
  }

  /** With StartRetries = N >= 1 and attempts that keep failing, the worker
      writes exactly N BACKOFFs, then FATAL, and consumes exactly N outcomes. */
  lemma RetryLimitReached(p: Policy, initial: string, os: seq<Outcome>)
    requires p.startRetries >= 1 && |os| >= p.startRetries
    requires forall k :: 0 <= k < |os| ==> IsFailure(os[k])
    ensures var r := Work(p, initial, os);
      r.ended && r.state == Fatal && |r.trace| > 0 && r.trace[|r.trace| - 1] == Fatal
      && multiset(r.trace)[States.Backoff] == p.startRetries
      && Used(p, Begin(initial), os) == p.startRetries
  {
    FailuresCount(p, Begin(initial), os);
  }

  /** With StartRetries <= 0 the counter never equals it, so failing attempts
      never end the loop, however many there are. */
  lemma NoLimitNeverEnds(p: Policy, initial: string, os: seq<Outcome>)
    requires p.startRetries <= 0
    requires forall k :: 0 <= k < |os| ==> IsFailure(os[k])
    ensures var r := Work(p, initial, os);
      !r.ended && r.retries == |os| && multiset(r.trace)[States.Backoff] == |os|
  {
    FailuresCount(p, Begin(initial), os);
  }

  /** A run lasting StartSecs resets the counter: after it the worker has its
      full StartRetries budget of failures again. */
  lemma {:induction false} ExitResetsRetries(p: Policy, w: Progress, code: int, os: seq<Outcome>)
    requires !w.ended && p.autorestart != AutorestartFalse && p.startRetries >= 1
    requires |os| >= p.startRetries
    requires forall k :: 0 <= k < |os| ==> IsFailure(os[k])
    ensures var after := Attempt(p, w, ExitedLate(code));
      after.retries == 0 && !after.ended
      && Used(p, after, os) == p.startRetries
      && RunFrom(p, after, os).ended
  {
    FailuresCount(p, Attempt(p, w, ExitedLate(code)), os);
  }

  /** Under autorestart "false" a run lasting StartSecs ends the worker with
      the instance EXITED. */
  lemma ExitWithoutRestart(p: Policy, w: Progress, code: int, os: seq<Outcome>)
    requires !w.ended && p.autorestart == AutorestartFalse
    ensures var r := RunFrom(p, Attempt(p, w, ExitedLate(code)), os);
      r.ended && Finish(r).state == Exited
  {
  }

  /** A stop seen after the process exited ends the worker with the instance STOPPED. */
  lemma StopEndsStopped(p: Policy, w: Progress, os: seq<Outcome>)
    requires !w.ended
    ensures var r := RunFrom(p, Attempt(p, w, StopSeen), os);
      r.ended && Finish(r).state == Stopped
  {
  }

  /** Only the shape of the outcomes matters: exit codes never change the run,
      under any autorestart mode, because the "unexpected" scan has no effect. */
  lemma {:induction false} ExitCodesIgnored(p: Policy, w: Progress, os: seq<Outcome>, os': seq<Outcome>)
    requires |os| == |os'|
    requires forall k :: 0 <= k < |os| ==>
      (os[k].ExitedLate? && os'[k].ExitedLate?) || os[k] == os'[k]
    ensures RunFrom(p, w, os) == RunFrom(p, w, os')
    decreases |os|
  {
    if !w.ended && |os| > 0 {
      assert Attempt(p, w, os[0]) == Attempt(p, w, os'[0]);
      ExitCodesIgnored(p, Attempt(p, w, os[0]), os[1..], os'[1..]);
    }
  }

  /** A worker whose every spawn fails never writes RUNNING, so it never sends
      the done token that Start waits for (the send follows RUNNING). */
  lemma {:induction false} SpawnFailuresSendNoDone(p: Policy, w: Progress, os: seq<Outcome>)
    requires forall k :: 0 <= k < |os| ==> os[k] == SpawnFailed
    requires Running !in w.trace
    ensures Running !in RunFrom(p, w, os).trace
    ensures Running !in Finish(RunFrom(p, w, os)).trace
    decreases |os|
  {
    if !w.ended && |os| > 0 {
      SpawnFailuresSendNoDone(p, Attempt(p, w, os[0]), os[1..]);
    }
  }

  /** The outcomes one worker can meet. startJobWorker builds one exec.Cmd
      and tryStart calls its Start on every pass, and Start on a command that
      has already started fails. So once a spawn has succeeded, every later
      pass of the same worker is a spawn failure. */
  predicate OneCommand(os: seq<Outcome>)
  {
    forall i, j :: 0 <= i < j < |os| && !os[i].SpawnFailed? ==> os[j].SpawnFailed?
  }

  /** Spawn failures add no RUNNING to the trace. */
  lemma {:induction false} FailuresAddNoRunning(p: Policy, w: Progress, os: seq<Outcome>)
    requires forall k :: 0 <= k < |os| ==> os[k].SpawnFailed?
    ensures multiset(RunFrom(p, w, os).trace)[Running] == multiset(w.trace)[Running]
    decreases |os|
  {
    if !w.ended && |os| > 0 {
      var next := Attempt(p, w, os[0]);
      assert next.trace == w.trace + [Starting, States.Backoff];
      FailuresAddNoRunning(p, next, os[1..]);
    }
  }

  /** On the outcomes one command allows, a worker writes RUNNING at most
      once more, so it reports to Start at most once. */
  lemma {:induction false} RunningAtMostOnce(p: Policy, w: Progress, os: seq<Outcome>)
    requires OneCommand(os)
    ensures multiset(RunFrom(p, w, os).trace)[Running] <= multiset(w.trace)[Running] + 1
    decreases |os|
  {
    if !w.ended && |os| > 0 {
      var next := Attempt(p, w, os[0]);
      if os[0].SpawnFailed? {
        assert next.trace == w.trace + [Starting, States.Backoff];
        assert OneCommand(os[1..]) by {
          forall i, j | 0 <= i < j < |os[1..]| && !os[1..][i].SpawnFailed?
            ensures os[1..][j].SpawnFailed?
          {
            assert os[1..][i] == os[i + 1] && os[1..][j] == os[j + 1];
          }
        }
        RunningAtMostOnce(p, next, os[1..]);
      } else {
        assert multiset(next.trace)[Running] == multiset(w.trace)[Running] + 1;
        assert forall k :: 0 <= k < |os[1..]| ==> os[1..][k] == os[k + 1];
        FailuresAddNoRunning(p, next, os[1..]);
      }
    }
  }

  /** A whole worker on the outcomes one command allows writes RUNNING at
      most once. */
  lemma RunningOnce(p: Policy, initial: string, os: seq<Outcome>)
    requires OneCommand(os)
    ensures multiset(Work(p, initial, os).trace)[Running] <= 1
  {
    RunningAtMostOnce(p, Begin(initial), os);
  }

  /** What a restart after a run lasting StartSecs really comes to: every
      respawn fails, so with StartRetries = N >= 1 the worker writes N more
      BACKOFFs and ends FATAL instead of running the program again. */
  lemma LateExitEndsFatal(p: Policy, w: Progress, code: int, os: seq<Outcome>)
    requires !w.ended && p.autorestart != AutorestartFalse && p.startRetries >= 1
    requires |os| >= p.startRetries && OneCommand([ExitedLate(code)] + os)
    ensures var r := RunFrom(p, Attempt(p, w, ExitedLate(code)), os);
      && r.ended && Finish(r).state == Fatal
      && multiset(r.trace)[Running] == multiset(w.trace)[Running] + 1
  {
    var all := [ExitedLate(code)] + os;
    forall k | 0 <= k < |os|
      ensures os[k].SpawnFailed?
    {
      assert all[0] == ExitedLate(code) && all[k + 1] == os[k];
    }
    var after := Attempt(p, w, ExitedLate(code));
    FailuresCount(p, after, os);
    FailuresAddNoRunning(p, after, os);
  }
}
