/** internal/job/job.go and the per-instance accessors of internal/job/states.go:
    a Job aggregates NumProcs process instances under one name and one shared
    process-group id (0 = none). Process spawning, waiting and signal delivery
    are outside the model: what they report is passed in. */
module Jobs {
  import opened Wrappers
  import opened States
  import opened Utils
  import W = Worker
  import Env = Environment

  /** One program of the configuration, with the fields job.go reads. */
  datatype Program = Program(
    Command: string,
    Directory: string,
    Environment: seq<string>,
    NumProcs: nat,
    Autostart: bool,
    StdoutLogFile: string,
    StderrLogFile: string,
    Umask: string,
    StartSecs: int,
    StartRetries: int,
    Autorestart: string,
    ExitCodes: seq<int>,
    StopSignal: string,
    StopWaitSecs: int)

  /** A signal sent with syscall.Kill: the target (minus a group id) and the signal. */
  datatype Kill = Kill(target: int, sig: Signal)

  /** A worker launched by Start: the instance and the group it is spawned into
      (0 asks for a new group led by the instance itself). */
  datatype Spawn = Spawn(id: nat, group: int)

  /** What Reload did: launched an asynchronous Restart, or acknowledged itself. */
  datatype ReloadOutcome = RestartLaunched | Acknowledged

  const CouldNotRun := "process could not be running"

  /** Start's eligibility test: not STOPPING and not already running. */
  predicate Eligible(states: seq<string>, running: seq<bool>, i: nat)
    requires i < |states| && i < |running|
  {
    states[i] != Stopping && !running[i]
  }

  /** The eligible instances below n, in increasing order. */
  function EligibleBelow(states: seq<string>, running: seq<bool>, n: nat): seq<nat>
    requires n <= |states| && n <= |running|
  {
    if n == 0 then []
    else EligibleBelow(states, running, n - 1) + (if Eligible(states, running, n - 1) then [n - 1] else [])
  }

  /** EligibleBelow lists exactly the eligible instances below n. */
  lemma {:induction false} EligibleBelowExact(states: seq<string>, running: seq<bool>, n: nat)
    requires n <= |states| && n <= |running|
    ensures var ids := EligibleBelow(states, running, n);
      forall i :: 0 <= i < n ==> (Eligible(states, running, i) <==> i in ids)
    ensures var ids := EligibleBelow(states, running, n);
      forall k :: 0 <= k < |ids| ==> ids[k] < n
  {
    if n > 0 {
      EligibleBelowExact(states, running, n - 1);
    }
  }

  /** Eligible instances below m come first among those below n. */
  lemma {:induction false} EligiblePrefix(states: seq<string>, running: seq<bool>, m: nat, n: nat)
    requires m <= n <= |states| && n <= |running|
    ensures EligibleBelow(states, running, m) <= EligibleBelow(states, running, n)
    decreases n - m
  {
    if m < n {
      EligiblePrefix(states, running, m, n - 1);
    }
  }

  /** With every instance STOPPING nothing is eligible. */
  lemma {:induction false} NoneEligibleWhenStopping(states: seq<string>, running: seq<bool>, n: nat)
    requires n <= |states| && n <= |running|
    requires forall i :: 0 <= i < n ==> states[i] == Stopping
    ensures EligibleBelow(states, running, n) == []
  {
    if n > 0 {
      NoneEligibleWhenStopping(states, running, n - 1);
    }
  }

  /** When the first eligible instance is i, it heads the full list, and
      marking the instances up to i leaves only i newly marked. */
  lemma LeaderIsFirst(states: seq<string>, running0: seq<bool>, running: seq<bool>, i: nat)
    requires i < |states| == |running0| == |running|
    requires EligibleBelow(states, running0, i) == [] && Eligible(states, running0, i)
    requires forall k :: 0 <= k < i ==> running[k] == (running0[k] || states[k] != Stopping)
    requires forall k :: i < k < |states| ==> running[k] == running0[k]
    requires running[i]
    ensures var e := EligibleBelow(states, running0, |states|);
      |e| > 0 && e[0] == i && running == running0[i := true]
  {
    LeaderHeads(states, running0, i);
    LeaderMarkedAlone(states, running0, running, i);
  }

  /** The first eligible instance heads the list of eligible instances. */
  lemma LeaderHeads(states: seq<string>, running0: seq<bool>, i: nat)
    requires i < |states| == |running0|
    requires EligibleBelow(states, running0, i) == [] && Eligible(states, running0, i)
    ensures var e := EligibleBelow(states, running0, |states|); |e| > 0 && e[0] == i
  {
    var head := EligibleBelow(states, running0, i + 1);
    assert head == [] + [i];
    EligiblePrefix(states, running0, i + 1, |states|);
  }

  /** Below the first eligible instance every instance was STOPPING or
      already running, so marking them changes nothing. */
  lemma LeaderMarkedAlone(states: seq<string>, running0: seq<bool>, running: seq<bool>, i: nat)
    requires i < |states| == |running0| == |running|
    requires EligibleBelow(states, running0, i) == []
    requires forall k :: 0 <= k < i ==> running[k] == (running0[k] || states[k] != Stopping)
    requires forall k :: i < k < |states| ==> running[k] == running0[k]
    requires running[i]
    ensures running == running0[i := true]
  {
    EligibleBelowExact(states, running0, i);
    var marked := running0[i := true];
    forall k | 0 <= k < |states| ensures running[k] == marked[k] {
      if k < i {
        assert !Eligible(states, running0, k);
      }
    }
  }

  /** What a Start from (states, running, pgid) leaves behind, given whether
      instance 0 reads RUNNING when the group leader reports and the leader's pid. */
  ghost predicate StartEffect(
    states: seq<string>, running0: seq<bool>, pgid0: int, firstRunning: bool, leaderPid: int,
    err: Option<string>, spawned: seq<Spawn>, awaited: nat, running: seq<bool>, pgid: int)
    requires |states| == |running0|
  {
    var n := |states|;
    var e := EligibleBelow(states, running0, n);
    |running| == n &&
    if pgid0 == 0 && |e| > 0 && !firstRunning then
      // the leader is launched, then Start gives up
      && err == Some(CouldNotRun) && pgid == 0 && awaited == 0
      && e[0] < n && spawned == [Spawn(e[0], 0)] && running == running0[e[0] := true]
    else
      && err == None && awaited == n
      && pgid == (if pgid0 == 0 && |e| > 0 then leaderPid else pgid0)
      && (forall i :: 0 <= i < n ==> running[i] == (running0[i] || states[i] != Stopping))
      && |spawned| == |e|
      && (forall k :: 0 <= k < |e| ==>
            spawned[k] == Spawn(e[k], if k == 0 && pgid0 == 0 then 0 else pgid))
  }

  /** The sink SetLog attaches: the log file when a path is configured, the
      daemon's own stream otherwise. */
  function LogTarget(file: string, default: Sink): Sink
  {
    if file != "" then LogFile(file) else default
  }

  /** The first half of reread's environment check, one loop per list: each
      entry of s is counted into a table that already counts `counted`. */
  method CountInto(table0: map<string, int>, ghost counted: seq<string>, s: seq<string>) returns (table: map<string, int>)
    requires table0 == Env.CountTable(counted)
    ensures table == Env.CountTable(counted + s)
  {
    table := table0;
    assert counted + s[..0] == counted;
    for k := 0 to |s|
      invariant table == Env.CountTable(counted + s[..k])
    {
      var env := s[k];
      Env.CountTableSnoc(counted + s[..k], env);
      assert counted + s[..k + 1] == counted + s[..k] + [env];
      table := table[env := (if env in table then table[env] else 0) + 1];
    }
    assert s[..|s|] == s;
  }

  /** The second half: look through the table, in the map's unspecified
      order, for an entry not counted exactly twice. */
  method FindUnpaired(table: map<string, int>) returns (found: bool)
    ensures found <==> exists e :: e in table && table[e] != 2
  {
    var keys := table.Keys;
    while keys != {}
      invariant keys <= table.Keys
      invariant forall e :: e in table && e !in keys ==> table[e] == 2
      decreases keys
    {
      var e :| e in keys;
      if table[e] != 2 {
        return true;
      }
      keys := keys - {e};
    }
    return false;
  }

  /** The environment check of reread, as the two loops compute it. */
  method EnvironmentChanged(current: seq<string>, incoming: seq<string>) returns (changed: bool)
    ensures changed == Env.EnvChanged(current, incoming)
  {
    assert Env.CountTable([]) == map[];
    var table := CountInto(map[], [], current);
    assert [] + current == current;
    table := CountInto(table, current, incoming);
    changed := FindUnpaired(table);
    Env.CountTableCounts(current + incoming);
  }

  /** The writer Reload leaves: unchanged when the path is the same or the new
      file fails to open, otherwise the new log target. */
  function Reattached(writer: Option<Sink>, oldPath: string, newPath: string, openErr: Option<string>, default: Sink): (w: Option<Sink>)
    ensures w != writer ==> w == Some(LogTarget(newPath, default)) && oldPath != newPath
    ensures oldPath != newPath && (newPath == "" || openErr.None?) ==> w == Some(LogTarget(newPath, default))
  {
    if oldPath == newPath || (newPath != "" && openErr.Some?) then writer
    else Some(LogTarget(newPath, default))
  }

  /** The states an instance set is left in after Stop marked every instance
      STOPPING and the workers in `returned` wrote STOPPED. */
  function Settled(n: nat, returned: set<nat>): seq<string>
  {
    seq(n, i => if i in returned then Stopped else Stopping)
  }

  /** The running flags once the workers in `returned` have cleared theirs. */
  function Released(running: seq<bool>, returned: set<nat>): seq<bool>
  {
    seq(|running|, i requires 0 <= i < |running| => running[i] && i !in returned)
  }

  /** The instances ids lists are, below n, exactly the members of returned. */
  predicate Enumerates(ids: seq<nat>, n: nat, returned: set<nat>)
  {
    && (forall k :: 0 <= k < |ids| ==> ids[k] < n && ids[k] in returned)
    && (forall i :: 0 <= i < n && i in returned ==> i in ids)
  }

  /** After Stop and the returning workers, Start's eligible instances are
      exactly the ones whose worker returned. */
  lemma RelaunchedExactly(n: nat, returned: set<nat>, running: seq<bool>)
    requires |running| == n
    ensures Enumerates(EligibleBelow(Settled(n, returned), Released(running, returned), n), n, returned)
  {
    var states, flags := Settled(n, returned), Released(running, returned);
    EligibleBelowExact(states, flags, n);
    forall i | 0 <= i < n
      ensures Eligible(states, flags, i) <==> i in returned
    {
    }
  }

  /** A Start on a group whose instances are all STOPPING except those whose
      worker returned keeps the group, reports no error and spawns exactly
      the returned instances, each into that group. */
  lemma RelaunchedSpawns(n: nat, returned: set<nat>, running0: seq<bool>, pgid0: int, firstRunning: bool,
                         leaderPid: int, err: Option<string>, spawned: seq<Spawn>, awaited: nat,
                         running: seq<bool>, pgid: int)
    requires |running0| == n && pgid0 != 0
    requires StartEffect(Settled(n, returned), Released(running0, returned), pgid0, firstRunning, leaderPid,
                         err, spawned, awaited, running, pgid)
    ensures err == None && pgid == pgid0
    ensures forall k :: 0 <= k < |spawned| ==> spawned[k].id in returned && spawned[k].group == pgid0
    ensures forall i :: 0 <= i < n && i in returned ==> exists k :: 0 <= k < |spawned| && spawned[k].id == i
  {
    var states, flags := Settled(n, returned), Released(running0, returned);
    var e := EligibleBelow(states, flags, n);
    RelaunchedExactly(n, returned, running0);
    assert |spawned| == |e| && forall k :: 0 <= k < |e| ==> spawned[k] == Spawn(e[k], pgid0);
    forall i | 0 <= i < n && i in returned
      ensures exists k :: 0 <= k < |spawned| && spawned[k].id == i
    {
      var k :| 0 <= k < |e| && e[k] == i;
      assert spawned[k].id == i;
    }
  }

  class Job {
    var Name: string
    var Command: string
    var Environment: seq<string>
    var Dir: string
    var Autostart: bool
    var StdoutLogFile: string
    var StderrLogFile: string
    var Umask: string
    var State: seq<string>
    var StartSecs: int
    var StartRetries: int
    var Autorestart: string
    var ExitCodes: seq<int>
    var StopSignal: Signal
    var StopWaitSecs: int
    var running: seq<bool>
    var StdoutWriter: DynamicWriter
    var StderrWriter: DynamicWriter
    var NumProcs: nat
    var pgid: int

    /** One state and one running flag per instance; two distinct writers. */
    ghost predicate Valid()
      reads this
    {
      |State| == NumProcs && |running| == NumProcs && StdoutWriter != StderrWriter
    }

    /** The fields reread copies from a program (all but the environment). */
    ghost predicate HasSettings(prog: Program)
      reads this
    {
      Command == prog.Command && Dir == prog.Directory && Umask == prog.Umask && HasPolicy(prog)
    }

    /** The fields reread copies without asking for a restart. */
    ghost predicate HasPolicy(prog: Program)
      reads this
    {
      && StdoutLogFile == prog.StdoutLogFile && StderrLogFile == prog.StderrLogFile
      && Autostart == prog.Autostart && ExitCodes == prog.ExitCodes
      && StopWaitSecs == prog.StopWaitSecs && StopSignal == ParseSignal(prog.StopSignal)
      && Autorestart == prog.Autorestart && StartSecs == prog.StartSecs
      && StartRetries == prog.StartRetries
    }

    /** The job NewJob builds for `name` from `prog`. */
    ghost predicate Configured(name: string, prog: Program)
      reads this, StdoutWriter, StderrWriter
    {
      && Valid() && NumProcs == prog.NumProcs && Name == name
      && Command == prog.Command && Dir == prog.Directory && Umask == prog.Umask
      && Environment == prog.Environment && Autostart == prog.Autostart
      && StdoutLogFile == prog.StdoutLogFile && StderrLogFile == prog.StderrLogFile
      && StartSecs == prog.StartSecs && StartRetries == prog.StartRetries
      && Autorestart == prog.Autorestart && StopWaitSecs == prog.StopWaitSecs
      && StopSignal == ParseSignal(prog.StopSignal)
      && ExitCodes == (if |prog.ExitCodes| == 0 then [0] else prog.ExitCodes)
      && (forall i :: 0 <= i < NumProcs ==> State[i] == Stopped && !running[i])
      && pgid == 0
      && StdoutWriter.writer.None? && StderrWriter.writer.None?
    }

    /** NewJob: every instance STOPPED and not running, no process group, fresh
        writers with no destination; 0 is appended to the exit codes only when
        the list is empty, because the scan for 0 ranges over indices. */
    constructor (name: string, prog: Program)
      ensures Configured(name, prog)
      ensures fresh(StdoutWriter) && fresh(StderrWriter)
    {
      var hasZero := false;
      var exitCodes := prog.ExitCodes;
      // `for exit := range exit_codes` binds each index, not each code
      for exit := 0 to |exitCodes|
        invariant exit == 0 && !hasZero
      {
        if exit == 0 {
          hasZero := true;
          break;
        }
      }
      if !hasZero {
        exitCodes := exitCodes + [0];
      }

      var states: seq<string> := [];
      for i := 0 to prog.NumProcs
        invariant |states| == i && forall k :: 0 <= k < i ==> states[k] == Stopped
      {
        states := states + [Stopped];
      }
      var flags: seq<bool> := [];
      for i := 0 to prog.NumProcs
        invariant |flags| == i && forall k :: 0 <= k < i ==> !flags[k]
      {
        flags := flags + [false];
      }

      Name := name;
      Command := prog.Command;
      Dir := prog.Directory;
      Autostart := prog.Autostart;
      Environment := prog.Environment;
      StdoutLogFile := prog.StdoutLogFile;
      StderrLogFile := prog.StderrLogFile;
      Umask := prog.Umask;
      State := states;
      StartSecs := prog.StartSecs;
      StartRetries := prog.StartRetries;
      Autorestart := prog.Autorestart;
      ExitCodes := exitCodes;
      StopSignal := ParseSignal(prog.StopSignal);
      StopWaitSecs := prog.StopWaitSecs;
      running := flags;
      StdoutWriter := new DynamicWriter();
      StderrWriter := new DynamicWriter();
      NumProcs := prog.NumProcs;
      pgid := 0;
    }

    /** Is(state, id): the stored state of instance id is `state`. */
    predicate Is(state: string, id: nat)
      reads this
      requires id < |State|
    {
      State[id] == state
    }

    /** A process group has been recorded (assumed: pgid != 0). */
    predicate HasPgid()
      reads this
    {
      pgid != 0
    }

    /** Some instance is running (assumed: some running flag is set). */
    predicate IsRunning()
      reads this
    {
      exists i :: 0 <= i < |running| && running[i]
    }

    method SetPgid(p: int)
      modifies this`pgid
      ensures pgid == p
    {
      pgid := p;
    }

    /** SetState(state, id): the eight state names are stored for instance id;
        any other name is refused with "invalid state: <name>" and nothing changes. */
    method SetState(state: string, id: nat) returns (err: Option<string>)
      requires Valid() && id < NumProcs
      modifies this`State
      ensures Valid()
      ensures err.None? <==> IsState(state)
      ensures err.None? ==> State == old(State)[id := state] && Is(state, id)
      ensures err.Some? ==> err.value == InvalidState(state) && State == old(State)
    {
      if state in {Starting, Running, States.Backoff, Stopping, Exited, Fatal, Unknown} {
        State := State[id := state];
      } else if state == Stopped {
        State := State[id := Stopped];
      } else {
        return Some(InvalidState(state));
      }
      return None;
    }

    /** One pass of the worker loop of instance id (startJobWorker), given what
        the spawn attempt ends in: the states it writes, the new retry counter
        and whether the loop ends here. Writing RUNNING is followed by the done
        token Start waits for. */
    method Pass(id: nat, o: W.Outcome, retries: int) returns (newRetries: int, written: seq<string>, ended: bool)
      requires Valid() && id < NumProcs
      modifies this`State
      ensures Valid()
      ensures var w := W.Attempt(W.Policy(StartRetries, Autorestart, ExitCodes), W.Progress(old(State[id]), retries, false, []), o);
        && State == old(State)[id := w.state]
        && newRetries == w.retries && written == w.trace && ended == w.ended
    {
      var e: Option<string>;
      newRetries := retries;
      e := SetState(Starting, id);
      written := [Starting];
      if o.SpawnFailed? {
        e := SetState(States.Backoff, id);
        written := written + [States.Backoff];
        newRetries := newRetries + 1;
        return newRetries, written, StartRetries == newRetries;
      }
      e := SetState(Running, id);
      written := written + [Running];
      // done <- true
      if o.StopSeen? {
        // the write of the concurrent Stop, seen when the process exits
        State := State[id := Stopping];
      }
      if Is(Stopping, id) {
        return newRetries, written, true;
      } else if o.ExitedEarly? {
        e := SetState(States.Backoff, id);
        written := written + [States.Backoff];
        newRetries := newRetries + 1;
        return newRetries, written, StartRetries == newRetries;
      }
      e := SetState(Exited, id);
      written := written + [Exited];
      newRetries := 0;
      if Autorestart == AutorestartFalse {
        return newRetries, written, true;
      }
      if Autorestart == AutorestartUnexpected {
        // the scan binds indices and its break only leaves the scan
        for exit := 0 to |ExitCodes| {
          if exit == o.code {
            break;
          }
        }
      }
      ended := false;
    }

    /** The worker of instance id (startJobWorker), driven by what each spawn
        attempt ends in. When the outcomes run out before the loop ends, the
        worker is still looping and its instance is still marked running. The
        states it writes are the worker specification's, and before returning it
        clears the running flag. */
    method StartJobWorker(id: nat, outcomes: seq<W.Outcome>) returns (used: nat, trace: seq<string>, returned: bool)
      requires Valid() && id < NumProcs
      modifies this`State, this`running
      ensures Valid()
      ensures var p := W.Policy(StartRetries, Autorestart, ExitCodes);
        var r := W.Work(p, old(State[id]), outcomes);
        && State == old(State)[id := r.state] && trace == r.trace && returned == r.ended
        && used == W.Used(p, W.Begin(old(State[id])), outcomes)
        && running == (if r.ended then old(running)[id := false] else old(running))
    {
      ghost var p := W.Policy(StartRetries, Autorestart, ExitCodes);
      ghost var start := W.Begin(State[id]);
      var retries := 0;
      trace := [];
      used := 0;
      returned := false;
      while used < |outcomes| && !returned
        invariant used <= |outcomes| && Valid()
        invariant running == old(running) && State == old(State)[id := State[id]]
        invariant W.RunFrom(p, start, outcomes) == W.RunFrom(p, W.Progress(State[id], retries, returned, trace), outcomes[used..])
        invariant W.Used(p, start, outcomes) == used + W.Used(p, W.Progress(State[id], retries, returned, trace), outcomes[used..])
      {
        ghost var cur := W.Progress(State[id], retries, false, trace);
        var o := outcomes[used];
        ghost var next := W.Attempt(p, cur, o);
        assert outcomes[used..][0] == o && outcomes[used..][1..] == outcomes[used + 1..];
        used := used + 1;
        var written;
        retries, written, returned := Pass(id, o, retries);
        trace := trace + written;
        assert W.Progress(State[id], retries, returned, trace) == next;
      }
      if returned {
        var e: Option<string>;
        if Is(States.Backoff, id) {
          e := SetState(Fatal, id);
          trace := trace + [Fatal];
        } else if Is(Stopping, id) {
          e := SetState(Stopped, id);
          trace := trace + [Stopped];
        }
        running := running[id := false];
      }
    }

    /** Start: instances that are STOPPING or already running are skipped, every
        other one is marked running and gets a worker. Without a process group
        the first such instance leads: Start waits for its report, fails with
        "process could not be running" unless instance 0 reads RUNNING, and
        otherwise records the leader's pid as the group. On success it waits for
        NumProcs done tokens. */
    method Start(firstRunning: bool, leaderPid: int) returns (err: Option<string>, spawned: seq<Spawn>, awaited: nat)
      requires Valid() && leaderPid > 0
      modifies this`running, this`pgid
      ensures Valid()
      ensures StartEffect(State, old(running), old(pgid), firstRunning, leaderPid, err, spawned, awaited, running, pgid)
    {
      ghost var states, running0, pgid0 := State, running, pgid;
      ghost var e: seq<nat> := [];
      var i := 0;
      spawned := [];
      while i < NumProcs
        invariant i <= NumProcs && Valid() && State == states
        invariant e == EligibleBelow(states, running0, i)
        invariant |running| == |running0|
        invariant forall k :: i <= k < NumProcs ==> running[k] == running0[k]
        invariant forall k :: 0 <= k < i ==> running[k] == (running0[k] || states[k] != Stopping)
        invariant pgid == (if pgid0 == 0 && |e| > 0 then leaderPid else pgid0)
        invariant pgid0 == 0 && |e| > 0 ==> firstRunning
        invariant |spawned| == |e|
        invariant forall k :: 0 <= k < |e| ==> spawned[k] == Spawn(e[k], if k == 0 && pgid0 == 0 then 0 else pgid)
      {
        if !(Is(Stopping, i) || running[i]) {
          e := e + [i];
          running := running[i := true];
          if HasPgid() {
            spawned := spawned + [Spawn(i, pgid)];
          } else {
            spawned := spawned + [Spawn(i, 0)];
            // <-done: the leader's report; done <- true puts the token back
            if !firstRunning {
              LeaderIsFirst(states, running0, running, i);
              return Some(CouldNotRun), spawned, 0;
            }
            pgid := leaderPid;
          }
        }
        // a skipped instance only puts a token: done <- true
        i := i + 1;
      }
      awaited := NumProcs;
      err := None;
    }

    /** Stop: without a process group nothing changes and the group stays 0.
        Otherwise every instance is marked STOPPING and the group is sent SIGKILL;
        if that fails its error is returned, else the group is then sent the stop
        signal and that result returned. The group id is still recorded either way. */
    method Stop(killResult: Option<string>, stopSignalResult: Option<string>) returns (err: Option<string>, sent: seq<Kill>)
      requires Valid()
      modifies this`State, this`pgid
      ensures Valid()
      ensures old(pgid) == 0 ==> State == old(State) && pgid == 0 && err == None && sent == []
      ensures old(pgid) != 0 ==>
        && pgid == old(pgid)
        && (forall i :: 0 <= i < NumProcs ==> State[i] == Stopping)
        && sent == (if killResult.Some? then [Kill(-pgid, SIGKILL)]
                    else [Kill(-pgid, SIGKILL), Kill(-pgid, StopSignal)])
        && err == (if killResult.Some? then killResult else stopSignalResult)
    {
      sent := [];
      if HasPgid() {
        var e: Option<string>;
        for i := 0 to NumProcs
          invariant Valid() && pgid == old(pgid)
          invariant forall k :: 0 <= k < i ==> State[k] == Stopping
        {
          e := SetState(Stopping, i);
        }
        sent := sent + [Kill(-pgid, SIGKILL)];
        if killResult.Some? {
          return killResult, sent;
        }
        // the grace-period polling is timing only
        if HasPgid() {
          sent := sent + [Kill(-pgid, StopSignal)];
          return stopSignalResult, sent;
        }
      }
      SetPgid(0);
      err := None;
    }

    /** The workers in `returned`, woken from Wait by the group's SIGKILL,
        find their instance STOPPING, write STOPPED and clear its running flag
        before the worker returns. Only an instance whose running flag is set
        has a worker that can return. */
    method WorkersReturn(returned: set<nat>)
      requires Valid() && forall i :: 0 <= i < NumProcs ==> State[i] == Stopping
      requires forall i :: i in returned ==> i < NumProcs && running[i]
      modifies this`State, this`running
      ensures Valid()
      ensures State == Settled(NumProcs, returned) && running == Released(old(running), returned)
    {
      for i := 0 to NumProcs
        invariant Valid()
        invariant forall k :: 0 <= k < i ==> State[k] == Settled(NumProcs, returned)[k]
        invariant forall k :: i <= k < NumProcs ==> State[k] == Stopping
        invariant forall k :: 0 <= k < i ==> running[k] == Released(old(running), returned)[k]
        invariant forall k :: i <= k < NumProcs ==> running[k] == old(running)[k]
      {
        if i in returned && Is(Stopping, i) {
          var e := SetState(Stopped, i);
          running := running[i := false];
        }
      }
    }

    /** Restart: Stop, then Start on the state Stop leaves; it reports nil and
        drops Start's error. Between the two, during Stop's grace period, the
        workers in `returned` see their process die and return. With a group,
        Start then finds exactly those instances STOPPED and not running and
        relaunches them into the group Stop kept; every other instance is
        still STOPPING and skipped, so an instance that had no worker (FATAL,
        EXITED or STOPPED before) is never revived. Without a group Stop does
        nothing and Start runs on the state as it was. */
    method Restart(killResult: Option<string>, stopSignalResult: Option<string>, returned: set<nat>,
                   firstRunning: bool, leaderPid: int)
      returns (err: Option<string>, sent: seq<Kill>, startErr: Option<string>, spawned: seq<Spawn>, awaited: nat)
      requires Valid() && leaderPid > 0
      requires forall i :: i in returned ==> i < NumProcs && running[i]
      modifies this`State, this`pgid, this`running
      ensures Valid() && err == None
      ensures old(pgid) == 0 ==>
        && sent == [] && State == old(State)
        && StartEffect(old(State), old(running), 0, firstRunning, leaderPid, startErr, spawned, awaited, running, pgid)
      ensures old(pgid) != 0 ==>
        var gone := if killResult.None? then returned else {};
        && State == Settled(NumProcs, gone)
        && StartEffect(State, Released(old(running), gone), old(pgid), firstRunning, leaderPid, startErr, spawned, awaited, running, pgid)
        && startErr == None && pgid == old(pgid)
        && (forall k :: 0 <= k < |spawned| ==> spawned[k].id in gone && spawned[k].group == old(pgid))
        && (forall i :: 0 <= i < NumProcs && i in gone ==> exists k :: 0 <= k < |spawned| && spawned[k].id == i)
      ensures old(pgid) != 0 ==>
        forall i :: 0 <= i < NumProcs && !old(running)[i] ==>
          State[i] == Stopping && forall k :: 0 <= k < |spawned| ==> spawned[k].id != i
    {
      var pgid0 := pgid;
      var stopErr;
      stopErr, sent := Stop(killResult, stopSignalResult);
      var gone: set<nat> := {};
      if pgid0 != 0 {
        if killResult.None? {
          gone := returned;
          WorkersReturn(returned);
        } else {
          assert State == Settled(NumProcs, {});
          assert running == Released(old(running), {});
        }
      }
      ghost var running1 := running;
      startErr, spawned, awaited := Start(firstRunning, leaderPid);
      if pgid0 != 0 {
        assert running1 == Released(old(running), gone) && State == Settled(NumProcs, gone);
        RelaunchedSpawns(NumProcs, gone, old(running), pgid0, firstRunning, leaderPid, startErr, spawned, awaited, running, pgid);
      }
      err := None;
    }

    /** setLog: attach the configured log file (when it opens) or else the
        daemon's own stream; a failed open is returned and leaves the writer. */
    method SetLog(file: string, writer: DynamicWriter, default: Sink, openErr: Option<string>) returns (err: Option<string>)
      modifies writer`writer
      ensures file != "" && openErr.Some? ==> err == openErr && writer.writer == old(writer.writer)
      ensures !(file != "" && openErr.Some?) ==> err == None && writer.writer == Some(LogTarget(file, default))
    {
      if file != "" {
        if openErr.Some? {
          return openErr;
        }
        writer.SetWriter(LogFile(file));
      } else {
        writer.SetWriter(default);
      }
      err := None;
    }

    /** reread: copy a new program into the job and report whether a restart is
        needed, i.e. whether the command, the directory or the umask changed or
        the environment check flags a change (which also replaces the environment). */
    method Reread(prog: Program) returns (shouldRestart: bool)
      modifies this`Command, this`Dir, this`Environment, this`Umask, this`StderrLogFile,
        this`StdoutLogFile, this`Autostart, this`ExitCodes, this`StopWaitSecs, this`StopSignal,
        this`Autorestart, this`StartSecs, this`StartRetries
      ensures HasSettings(prog)
      ensures shouldRestart == (
        || prog.Command != old(Command) || prog.Directory != old(Dir)
        || Env.EnvChanged(old(Environment), prog.Environment) || prog.Umask != old(Umask))
      ensures Environment == if Env.EnvChanged(old(Environment), prog.Environment)
        then prog.Environment else old(Environment)
    {
      shouldRestart := false;
      if prog.Command != Command {
        Command := prog.Command;
        shouldRestart := true;
      }
      if prog.Directory != Dir {
        Dir := prog.Directory;
        shouldRestart := true;
      }

      var envChanged := EnvironmentChanged(Environment, prog.Environment);
      if envChanged {
        shouldRestart := true;
        Environment := prog.Environment;
      }

      if prog.Umask != Umask {
        Umask := prog.Umask;
        shouldRestart := true;
      }
      CopyPolicy(prog);
    }

    /** The tail of reread: the log paths (copied when they differ) and the
        restart policy are taken from the program as they are. */
    method CopyPolicy(prog: Program)
      modifies this`StderrLogFile, this`StdoutLogFile, this`Autostart, this`ExitCodes,
        this`StopWaitSecs, this`StopSignal, this`Autorestart, this`StartSecs, this`StartRetries
      ensures HasPolicy(prog)
    {
      if prog.StderrLogFile != StderrLogFile {
        StderrLogFile := prog.StderrLogFile;
      }
      if prog.StdoutLogFile != StdoutLogFile {
        StdoutLogFile := prog.StdoutLogFile;
      }
      Autostart := prog.Autostart;
      ExitCodes := prog.ExitCodes;
      StopWaitSecs := prog.StopWaitSecs;
      StopSignal := ParseSignal(prog.StopSignal);
      Autorestart := prog.Autorestart;
      StartSecs := prog.StartSecs;
      StartRetries := prog.StartRetries;
    }

    /** Reload: which log paths change is decided before reread. If a restart is
        needed and some instance is running, a Restart is launched and Reload
        returns without touching the writers or sending done; otherwise only the
        writers whose path changed are re-attached and one done is sent. */
    method Reload(prog: Program, stdoutOpenErr: Option<string>, stderrOpenErr: Option<string>)
      returns (outcome: ReloadOutcome, dones: nat)
      requires Valid()
      modifies this`Command, this`Dir, this`Environment, this`Umask, this`StderrLogFile,
        this`StdoutLogFile, this`Autostart, this`ExitCodes, this`StopWaitSecs, this`StopSignal,
        this`Autorestart, this`StartSecs, this`StartRetries, StdoutWriter`writer, StderrWriter`writer
      ensures Valid() && HasSettings(prog)
      ensures Environment == if Env.EnvChanged(old(Environment), prog.Environment)
        then prog.Environment else old(Environment)
      ensures var restart :=
        || prog.Command != old(Command) || prog.Directory != old(Dir)
        || Env.EnvChanged(old(Environment), prog.Environment) || prog.Umask != old(Umask);
        outcome == (if restart && IsRunning() then RestartLaunched else Acknowledged)
      ensures outcome == RestartLaunched ==>
        dones == 0 && StdoutWriter.writer == old(StdoutWriter.writer) && StderrWriter.writer == old(StderrWriter.writer)
      ensures outcome == Acknowledged ==> dones == 1
      ensures outcome == Acknowledged ==>
        StdoutWriter.writer == Reattached(old(StdoutWriter.writer), old(StdoutLogFile), prog.StdoutLogFile, stdoutOpenErr, Utils.Stdout)
      ensures outcome == Acknowledged ==>
        StderrWriter.writer == Reattached(old(StderrWriter.writer), old(StderrLogFile), prog.StderrLogFile, stderrOpenErr, Utils.Stderr)
    {
      var stdoutChanged := StdoutLogFile != prog.StdoutLogFile;
      var stderrChanged := StderrLogFile != prog.StderrLogFile;
      var shouldRestart := Reread(prog);
      if shouldRestart && IsRunning() {
        // go j.Restart(wg, _done): the Restart signals done itself
        return RestartLaunched, 0;
      }
      var e: Option<string>;
      if stdoutChanged {
        e := SetLog(StdoutLogFile, StdoutWriter, Utils.Stdout, stdoutOpenErr);
      }
      if stderrChanged {
        e := SetLog(StderrLogFile, StderrWriter, Utils.Stderr, stderrOpenErr);
      }
      return Acknowledged, 1;
    }
  }
}
