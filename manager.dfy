/** internal/manager/manager.go and the Execute entry point of
    internal/manager/execute.go: the name -> Job table, the action queue, verb
    dispatch and status formatting. The job operations the manager launches
    (Start, Stop, Restart, Reload, as goroutines or inline) are returned as
    tasks; their effect on a job is modelled by the Jobs module. */
module Manager {
  import opened Wrappers
  import opened Text
  import opened Responses
  import Strconv
  import J = Jobs

  const QUIT := "quit"
  const RELOAD := "reload"
  const START := "start"
  const STOP := "stop"
  const RESTART := "restart"
  const ALL := "all"
  const STATUS := "status"

  const ReservedName := "all is a special name, please use another name"
  const OneArgumentOnly := "command accepts 1 argument only"
  const NotRecognized := "job is not recognized"

  /** A queued request: its verb and arguments (the reply channels are the Reply). */
  datatype Action = Action(Type: string, Args: seq<string>)

  /** What Run sends back for an action: the text put on Data, if any, and the
      value put on Done; None when Done is handed to a launched job operation,
      which answers on it itself. */
  datatype Reply = Reply(data: Option<string>, done: Option<bool>)

  /** What Execute's request comes to for its caller: a response, or the
      panic of a send on the action queue after finish has closed it. */
  datatype Sent = Answer(resp: Response) | SendOnClosed

  /** A job operation launched by the manager. */
  datatype Op = StartOp | StopOp | RestartOp | ReloadOp(prog: J.Program)
  datatype Task = Task(name: string, op: Op)

  /** What config.ParseConfig returns: the programs by name, or an error. */
  datatype ParseResult = Parsed(programs: map<string, J.Program>) | ParseFailed(err: string)

  /** One task with operation op per name, in order. */
  function Launch(names: seq<string>, op: Op): (tasks: seq<Task>)
    ensures |tasks| == |names|
    ensures forall k :: 0 <= k < |names| ==> tasks[k] == Task(names[k], op)
  {
    if |names| == 0 then [] else Launch(names[..|names| - 1], op) + [Task(names[|names| - 1], op)]
  }

  /** reload's second pass: a job that existed gets Reload with its new
      program, a new one gets Start. */
  function Refresh(names: seq<string>, existing: set<string>, programs: map<string, J.Program>): (tasks: seq<Task>)
    requires forall k :: 0 <= k < |names| ==> names[k] in programs
    ensures |tasks| == |names|
    ensures forall k :: 0 <= k < |names| ==>
      tasks[k] == Task(names[k], if names[k] in existing then ReloadOp(programs[names[k]]) else StartOp)
  {
    if |names| == 0 then []
    else
      var n := names[|names| - 1];
      Refresh(names[..|names| - 1], existing, programs)
        + [Task(n, if n in existing then ReloadOp(programs[n]) else StartOp)]
  }

  /** Refresh only asks of the existing names whether each listed name is
      among them. */
  lemma RefreshSameAnswers(names: seq<string>, a: set<string>, b: set<string>, programs: map<string, J.Program>)
    requires forall k :: 0 <= k < |names| ==> names[k] in programs && (names[k] in a <==> names[k] in b)
    ensures Refresh(names, a, programs) == Refresh(names, b, programs)
  {
    var x, y := Refresh(names, a, programs), Refresh(names, b, programs);
    assert forall k :: 0 <= k < |names| ==> x[k] == y[k];
  }

  /** One status line of a multi-instance job: "[name_i]: state". */
  function StatusLine(name: string, i: nat, state: string): string
  {
    "[" + name + "_" + Strconv.Itoa(i) + "]: " + state
  }

  /** The status lines of every instance, in instance order. */
  function StatusLines(name: string, states: seq<string>): (lines: seq<string>)
    ensures |lines| == |states|
    ensures forall i :: 0 <= i < |states| ==> lines[i] == StatusLine(name, i, states[i])
  {
    if |states| == 0 then []
    else StatusLines(name, states[..|states| - 1]) + [StatusLine(name, |states| - 1, states[|states| - 1])]
  }

  /** getStatusFmt: "[name]: state" for a single instance, otherwise the
      instance lines joined by newlines, with no trailing newline. */
  function StatusText(name: string, states: seq<string>): string
  {
    if |states| == 1 then "[" + name + "]: " + states[0]
    else Join(StatusLines(name, states), '\n')
  }

  /** The STATUS body. execute.go hands a []string where a string is
      expected, which does not compile; the model takes the text "[S0 S1 ...]",
      the way fmt prints a []string. */
  function StateList(states: seq<string>): (text: string)
    ensures |text| >= 2 && text[0] == '[' && text[|text| - 1] == ']'
    ensures text[1..|text| - 1] == Join(states, ' ')
  {
    "[" + Join(states, ' ') + "]"
  }

  /** The text of a status line ends with the state itself. */
  lemma StatusLineNoNewline(name: string, i: nat, state: string)
    requires '\n' !in name && '\n' !in state
    ensures '\n' !in StatusLine(name, i, state)
  {
    var digits := Strconv.Itoa(i);
    assert forall c :: c in digits ==> Strconv.IsDigit(c) by {
      forall c | c in digits ensures Strconv.IsDigit(c) {
        var k :| 0 <= k < |digits| && digits[k] == c;
      }
    }
  }

  /** A multi-instance status reads back line by line: splitting it on newlines
      gives one line per instance, each "[name_i]: state". */
  lemma {:induction false} StatusTextLines(name: string, states: seq<string>)
    requires |states| >= 2 && '\n' !in name
    requires forall i :: 0 <= i < |states| ==> '\n' !in states[i]
    ensures var lines := Split(StatusText(name, states), '\n');
      |lines| == |states| && forall i :: 0 <= i < |states| ==> lines[i] == StatusLine(name, i, states[i])
  {
    var lines := StatusLines(name, states);
    forall k | 0 <= k < |lines| ensures '\n' !in lines[k] {
      StatusLineNoNewline(name, k, states[k]);
    }
    SplitJoin(lines, '\n');
  }

  /** The single-instance form carries no instance number and no newline. */
  lemma SingleStatus(name: string, state: string)
    requires '\n' !in name && '\n' !in state
    ensures Split(StatusText(name, [state]), '\n') == ["[" + name + "]: " + state]
  {
    SplitWithoutSep("[" + name + "]: " + state, '\n');
  }

  /** The text a `+=` loop has built after the first k of some parts, with a
      newline after each part but the last. */
  function Built(parts: seq<string>, k: nat): string
    requires k <= |parts|
  {
    if k == 0 then "" else Join(parts[..k], '\n') + (if k < |parts| then "\n" else "")
  }

  /** One more round of the loop: the next part, then a newline unless it is
      the last. */
  lemma BuiltStep(parts: seq<string>, k: nat)
    requires k < |parts|
    ensures Built(parts, k + 1) == Built(parts, k) + parts[k] + (if k + 1 < |parts| then "\n" else "")
  {
    if k > 0 {
      assert parts[..k + 1] == parts[..k] + [parts[k]];
      JoinSnoc(parts[..k], parts[k], '\n');
    } else {
      assert parts[..1] == [parts[0]];
    }
  }

  /** When the loop is done it has built exactly the parts joined by newlines. */
  lemma BuiltAll(parts: seq<string>)
    ensures Built(parts, |parts|) == Join(parts, '\n')
  {
    assert parts[..|parts|] == parts;
  }

  /** getStatusFmt: the status text of one job, built instance by instance. */
  method GetStatusFmt(j: J.Job) returns (msg: string)
    requires j.Valid()
    ensures msg == StatusText(j.Name, j.State)
  {
    if j.NumProcs == 1 {
      return "[" + j.Name + "]: " + j.State[0];
    }
    msg := "";
    ghost var lines := StatusLines(j.Name, j.State);
    for i := 0 to j.NumProcs
      invariant msg == Built(lines, i)
    {
      BuiltStep(lines, i);
      msg := msg + StatusLine(j.Name, i, j.State[i]);
      if i != j.NumProcs - 1 {
        msg := msg + "\n";
      }
    }
    BuiltAll(lines);
  }

  /** What Run answers whatever the table holds: QUIT and RELOAD always end
      with Done true; a job verb with an argument count other than one gets
      the argument error; a verb Run does not know gets "unknown command".
      A job verb with one argument gets either the lookup error or is
      answered by the job operation (or, for STATUS, with its text). */
  predicate Answers(a: Action, r: Reply)
  {
    if a.Type == QUIT || a.Type == RELOAD then r == Reply(None, Some(true))
    else if a.Type == START || a.Type == STOP || a.Type == RESTART || a.Type == STATUS then
      if |a.Args| != 1 then r == Reply(Some(OneArgumentOnly), Some(false))
      else if r == Reply(Some(NotRecognized), Some(false)) then true
      else if a.Type == STATUS then r.data.Some? && r.done == Some(true)
      else r.data.None? && r.done != Some(false)
    else r == Reply(Some("unknown command " + a.Type), Some(false))
  }

  /** The actions Execute puts on the queue: QUIT or RELOAD with no
      arguments, or START, STOP or RESTART with exactly one. */
  predicate Queued(a: Action)
  {
    ((a.Type == QUIT || a.Type == RELOAD) && a.Args == [])
    || ((a.Type == START || a.Type == STOP || a.Type == RESTART) && |a.Args| == 1)
  }

  /** Because Execute checks the verb and the argument count first, Run never
      answers a queued action with the argument error or "unknown command";
      the only failure left is a job that is no longer in the table. */
  lemma QueuedAnswers(a: Action, r: Reply)
    requires Queued(a) && Answers(a, r)
    ensures r.done == Some(false) ==> r == Reply(Some(NotRecognized), Some(false))
    ensures r.data != Some(OneArgumentOnly)
  {
    assert OneArgumentOnly != NotRecognized by {
      assert OneArgumentOnly[0] != NotRecognized[0];
    }
  }

  /** The job operation Run gives each job verb. */
  function OpOf(verb: string): Op
  {
    if verb == START then StartOp else if verb == STOP then StopOp else RestartOp
  }

  /** The status text of each listed job, in order. */
  function Statuses(jobs: map<string, J.Job>, order: seq<string>): (texts: seq<string>)
    reads jobs.Values
    requires forall k :: 0 <= k < |order| ==> order[k] in jobs
    ensures |texts| == |order|
    ensures forall k :: 0 <= k < |order| ==> texts[k] == StatusText(jobs[order[k]].Name, jobs[order[k]].State)
  {
    if |order| == 0 then []
    else
      var j := jobs[order[|order| - 1]];
      Statuses(jobs, order[..|order| - 1]) + [StatusText(j.Name, j.State)]
  }

  /** The listed jobs whose Autostart is set, in order. */
  function Autostarted(jobs: map<string, J.Job>, order: seq<string>): (names: seq<string>)
    reads jobs.Values
    requires forall n :: n in order ==> n in jobs
    ensures forall n :: n in names <==> n in order && jobs[n].Autostart
  {
    if |order| == 0 then []
    else
      var n := order[|order| - 1];
      Autostarted(jobs, order[..|order| - 1]) + (if jobs[n].Autostart then [n] else [])
  }

  /** setJobs' answer from the table `jobs`: the argument error, "all" (every
      job gets the operation in some map order, then Done true), the lookup
      error, or the named job alone gets the operation and answers Done itself. */
  ghost predicate Launched(jobs: map<string, J.Job>, op: Op, a: Action, r: Reply, tasks: seq<Task>)
  {
    if |a.Args| != 1 then r == Reply(Some(OneArgumentOnly), Some(false)) && tasks == []
    else if a.Args[0] == ALL then
      r == Reply(None, Some(true)) && exists order :: Lists(order, jobs.Keys) && tasks == Launch(order, op)
    else if a.Args[0] !in jobs then r == Reply(Some(NotRecognized), Some(false)) && tasks == []
    else r == Reply(None, None) && tasks == [Task(a.Args[0], op)]
  }

  /** getStatus' answer from the table `jobs`: the same errors, then the named
      job's status text or every job's, newline-separated in some map order. */
  ghost predicate Reported(jobs: map<string, J.Job>, a: Action, r: Reply)
    reads jobs.Values
  {
    if |a.Args| != 1 then r == Reply(Some(OneArgumentOnly), Some(false))
    else if a.Args[0] == ALL then
      exists order :: Lists(order, jobs.Keys) && r == Reply(Some(Join(Statuses(jobs, order), '\n')), Some(true))
    else if a.Args[0] !in jobs then r == Reply(Some(NotRecognized), Some(false))
    else r == Reply(Some(StatusText(a.Args[0], jobs[a.Args[0]].State)), Some(true))
  }

  /** What one round of Run does with action a on the table `before`, when a
      RELOAD would parse conf: the reply, the job operations launched and the
      table left behind. */
  ghost predicate Handled(before: map<string, J.Job>, a: Action, conf: ParseResult, r: Reply,
                          tasks: seq<Task>, after: map<string, J.Job>)
    reads before.Values
  {
    if a.Type == QUIT then
      && r == Reply(None, Some(true)) && after == before
      && exists order :: Lists(order, before.Keys) && tasks == Launch(order, StopOp)
    else if a.Type == RELOAD then
      && r == Reply(None, Some(true))
      && match conf
         case ParseFailed(_) => after == before && tasks == []
         case Parsed(programs) =>
           && after.Keys == programs.Keys
           && (forall n :: n in after && n in before ==> after[n] == before[n])
           && exists removed, visited ::
                && Lists(removed, before.Keys - programs.Keys) && Lists(visited, programs.Keys)
                && tasks == Launch(removed, StopOp) + Refresh(visited, before.Keys, programs)
    else if a.Type == START || a.Type == STOP || a.Type == RESTART then
      after == before && Launched(before, OpOf(a.Type), a, r, tasks)
    else if a.Type == STATUS then
      after == before && tasks == [] && Reported(before, a, r)
    else
      after == before && tasks == [] && r == Reply(Some("unknown command " + a.Type), Some(false))
  }

  /** The table-independent summary: every handled action is answered as
      Answers says. */
  lemma HandledAnswers(before: map<string, J.Job>, a: Action, conf: ParseResult, r: Reply,
                       tasks: seq<Task>, after: map<string, J.Job>)
    requires Handled(before, a, conf, r, tasks, after)
    ensures Answers(a, r)
  {
  }

  /** A job verb Execute queued for a job still in the table launches that
      job's operation, and its reply is left to the operation. */
  lemma QueuedStillKnown(before: map<string, J.Job>, a: Action, conf: ParseResult, r: Reply,
                         tasks: seq<Task>, after: map<string, J.Job>)
    requires Handled(before, a, conf, r, tasks, after) && Queued(a)
    requires a.Type != QUIT && a.Type != RELOAD && a.Args[0] != ALL && a.Args[0] in before
    ensures r == Reply(None, None) && tasks == [Task(a.Args[0], OpOf(a.Type))] && after == before
  {
  }

  /** The number of RELOAD actions in s: the index of the configuration the
      next reload parses. */
  function Reloads(s: seq<Action>): nat
  {
    if |s| == 0 then 0 else Reloads(s[..|s| - 1]) + (if s[|s| - 1].Type == RELOAD then 1 else 0)
  }

  /** The first |replies| actions of acts were handled in turn: the k-th on
      tables[k], leaving tables[k + 1], with reply replies[k] and job
      operations launched[k], a reload parsing the configuration numbered by
      the reloads before it. */
  ghost predicate Served(acts: seq<Action>, conf: nat -> ParseResult, replies: seq<Reply>,
                         tables: seq<map<string, J.Job>>, launched: seq<seq<Task>>)
    reads set k, j | 0 <= k < |tables| && j in tables[k].Values :: j
    decreases |replies|
  {
    var n := |replies|;
    && |acts| == n && |launched| == n && |tables| == n + 1
    && (n == 0 || (
      && Served(acts[..n - 1], conf, replies[..n - 1], tables[..n], launched[..n - 1])
      && Handled(tables[n - 1], acts[n - 1], conf(Reloads(acts[..n - 1])), replies[n - 1], launched[n - 1], tables[n])))
  }

  /** A served history of the first actions of a queue, extended by the next
      action handled on the table it left, is served, and that action counts
      as a reload iff it is RELOAD. */
  lemma ServedSnoc(queue: seq<Action>, conf: nat -> ParseResult, replies: seq<Reply>,
                   tables: seq<map<string, J.Job>>, launched: seq<seq<Task>>,
                   r: Reply, tasks: seq<Task>, after: map<string, J.Job>)
    requires |replies| < |queue| && Served(queue[..|replies|], conf, replies, tables, launched)
    requires Handled(tables[|replies|], queue[|replies|], conf(Reloads(queue[..|replies|])), r, tasks, after)
    ensures Served(queue[..|replies| + 1], conf, replies + [r], tables + [after], launched + [tasks])
    ensures Reloads(queue[..|replies| + 1]) ==
      Reloads(queue[..|replies|]) + (if queue[|replies|].Type == RELOAD then 1 else 0)
  {
    var n := |replies|;
    assert queue[..n + 1][..n] == queue[..n] && (replies + [r])[..n] == replies;
    assert (tables + [after])[..n + 1] == tables && (launched + [tasks])[..n] == launched;
  }

  /** Every round of a served history was handled as Handled says. */
  lemma {:induction false} ServedRound(acts: seq<Action>, conf: nat -> ParseResult, replies: seq<Reply>,
                                       tables: seq<map<string, J.Job>>, launched: seq<seq<Task>>, k: nat)
    requires Served(acts, conf, replies, tables, launched) && k < |replies|
    ensures Handled(tables[k], acts[k], conf(Reloads(acts[..k])), replies[k], launched[k], tables[k + 1])
    decreases |replies|
  {
    var n := |replies|;
    if k < n - 1 {
      ServedRound(acts[..n - 1], conf, replies[..n - 1], tables[..n], launched[..n - 1], k);
      assert acts[..n - 1][..k] == acts[..k];
    }
  }

  /** Putting action a on the queue `before`: the send panics when the queue
      is closed, and otherwise appends a and answers with an empty response. */
  predicate Enqueued(closed: bool, a: Action, out: Sent, before: seq<Action>, after: seq<Action>)
  {
    if closed then out == SendOnClosed && after == before
    else out == Answer(NewResponse()) && after == before + [a]
  }

  /** What Execute does on the table `jobs` and the queue going from `before`
      to `after`, closed or not: QUIT and RELOAD are queued with no
      arguments; START, STOP, STATUS and RESTART need exactly one argument
      naming a job in the table, STATUS is answered at once with the job's
      states and the others are queued as they are; any other verb is
      refused. Queueing on a closed queue panics. */
  ghost predicate Executed(jobs: map<string, J.Job>, closed: bool, action: string, args: seq<string>, out: Sent,
                           before: seq<Action>, after: seq<Action>)
    reads jobs.Values
  {
    if action == QUIT || action == RELOAD then
      Enqueued(closed, Action(action, []), out, before, after)
    else if action == START || action == STOP || action == STATUS || action == RESTART then
      if |args| != 1 then
        out == Answer(BadRequest(action + " command must be followed by one argument")) && after == before
      else if args[0] !in jobs then
        out == Answer(BadRequest(args[0] + " is not recognizable")) && after == before
      else if action == STATUS then
        out == Answer(NewResponseWithBody(StateList(jobs[args[0]].State))) && after == before
      else
        Enqueued(closed, Action(action, args), out, before, after)
    else
      out == Answer(BadRequest(action + " Unknown command")) && after == before
  }

  /** Once finish has closed the queue, nothing more is queued: a request
      that would be queued panics, and exactly those do; the others are
      answered as before. */
  lemma ClosedQueueNeverGrows(jobs: map<string, J.Job>, action: string, args: seq<string>, out: Sent,
                              before: seq<Action>, after: seq<Action>)
    requires Executed(jobs, true, action, args, out, before, after)
    ensures after == before
    ensures out == SendOnClosed <==>
      action == QUIT || action == RELOAD
      || ((action == START || action == STOP || action == RESTART) && |args| == 1 && args[0] in jobs)
  {
  }

  class JobManager {
    var Jobs: map<string, J.Job>
    var Config: string
    var actions: seq<Action>
    var closed: bool

    /** Every job is well formed and is stored under its own name. */
    ghost predicate Valid()
      reads this, Jobs.Values
    {
      forall n :: n in Jobs ==> Jobs[n].Valid() && Jobs[n].Name == n
    }

    /** NewJobManager: the configuration path, an empty action queue. */
    constructor (path: string)
      ensures Config == path && Jobs == map[] && actions == [] && !closed
    {
      Config := path;
      Jobs := map[];
      actions := [];
      closed := false;
    }

    /** Init: a parse error is returned as it is; a program named "all" is
        refused; otherwise the table holds one new job per program, built by
        NewJob and keyed by the program's name. Jobs is not assigned on an error. */
    method Init(conf: ParseResult) returns (err: Option<string>)
      modifies this`Jobs
      ensures conf.ParseFailed? ==> err == Some(conf.err) && Jobs == old(Jobs)
      ensures conf.Parsed? && ALL in conf.programs ==> err == Some(ReservedName) && Jobs == old(Jobs)
      ensures conf.Parsed? && ALL !in conf.programs ==>
        && err == None && Jobs.Keys == conf.programs.Keys && Valid()
        && forall n :: n in Jobs ==> fresh(Jobs[n]) && Jobs[n].Configured(n, conf.programs[n])
    {
      if conf.ParseFailed? {
        return Some(conf.err);
      }
      var programs := conf.programs;
      var jobs: map<string, J.Job> := map[];
      var names := programs.Keys;
      while names != {}
        invariant names <= programs.Keys && (ALL in programs ==> ALL in names)
        invariant Jobs == old(Jobs)
        invariant jobs.Keys == programs.Keys - names
        invariant forall n :: n in jobs ==> fresh(jobs[n]) && jobs[n].Configured(n, programs[n])
        decreases names
      {
        var name :| name in names;
        if name == ALL {
          return Some(ReservedName);
        }
        var j := new J.Job(name, programs[name]);
        jobs := jobs[name := j];
        names := names - {name};
      }
      Jobs := jobs;
      err := None;
    }

    /** reload: a parse error is returned before the table is touched.
        Otherwise every job whose name is no longer configured gets Stop and is
        deleted, then every configured program either gets Reload on its
        existing job or a new job that gets Start, whatever its Autostart; the
        table ends up keyed by exactly the configured names. Both passes follow
        the maps' unspecified order, which is returned; one done is awaited per
        task before reload returns. A program named "all" is not refused here. */
    method Reload(conf: ParseResult) returns (err: Option<string>, removed: seq<string>, visited: seq<string>, tasks: seq<Task>)
      requires Valid()
      modifies this`Jobs
      ensures conf.ParseFailed? ==> err == Some(conf.err) && Jobs == old(Jobs) && tasks == []
      ensures conf.Parsed? ==>
        && err == None && Valid()
        && Jobs.Keys == conf.programs.Keys
        && Lists(removed, old(Jobs).Keys - conf.programs.Keys)
        && Lists(visited, conf.programs.Keys)
        && tasks == Launch(removed, StopOp) + Refresh(visited, old(Jobs).Keys, conf.programs)
        && (forall n :: n in Jobs && n in old(Jobs) ==> Jobs[n] == old(Jobs)[n])
        && (forall n :: n in Jobs && n !in old(Jobs) ==> fresh(Jobs[n]) && Jobs[n].Configured(n, conf.programs[n]))
    {
      removed, visited, tasks := [], [], [];
      if conf.ParseFailed? {
        return Some(conf.err), removed, visited, tasks;
      }
      var kept, started, table;
      removed, kept := RemoveStale(Jobs, conf.programs);
      visited, started, table := AddConfigured(kept, conf.programs);
      RefreshSameAnswers(visited, kept.Keys, Jobs.Keys, conf.programs);
      Jobs := table;
      tasks := Launch(removed, StopOp) + started;
      err := None;
    }

    /** reload's first pass: each job whose name is not configured gets Stop
        and leaves the table. */
    static method RemoveStale(table0: map<string, J.Job>, programs: map<string, J.Program>)
      returns (removed: seq<string>, table: map<string, J.Job>)
      ensures Lists(removed, table0.Keys - programs.Keys)
      ensures forall n :: n in table <==> n in table0 && n in programs
      ensures forall n :: n in table ==> table[n] == table0[n]
    {
      removed, table := [], table0;
      var names := table0.Keys;
      while names != {}
        invariant names <= table0.Keys && Distinct(removed)
        invariant forall n :: n in removed <==> n in table0 && n !in names && n !in programs
        invariant forall n :: n in table <==> n in table0 && n !in removed
        invariant forall n :: n in table ==> table[n] == table0[n]
        decreases names
      {
        var name :| name in names;
        if name !in programs {
          // go j.Stop(wg, d)
          removed := removed + [name];
          table := table - {name};
        }
        names := names - {name};
      }
      assert forall i :: 0 <= i < |removed| ==> removed[i] in removed;
    }

    /** reload's second pass, over the table RemoveStale leaves: an existing
        job gets Reload with its new program, a new job is made and gets Start.
        The loop is taken in two halves, the goroutines it launches and the
        jobs it makes, over the same order. */
    static method AddConfigured(table0: map<string, J.Job>, programs: map<string, J.Program>)
      returns (visited: seq<string>, tasks: seq<Task>, table: map<string, J.Job>)
      requires forall n :: n in table0 ==> n in programs
      ensures Lists(visited, programs.Keys) && table.Keys == programs.Keys
      ensures tasks == Refresh(visited, table0.Keys, programs)
      ensures forall n :: n in table0 ==> table[n] == table0[n]
      ensures forall n :: n in table && n !in table0 ==> fresh(table[n]) && table[n].Configured(n, programs[n])
    {
      visited, tasks := Launches(table0.Keys, programs);
      table := MakeNew(table0, visited, programs);
    }

    /** The goroutines of reload's second pass, one per configured name in the
        map's order: Reload for a name already in the table, Start otherwise. */
    static method Launches(existing: set<string>, programs: map<string, J.Program>)
      returns (visited: seq<string>, tasks: seq<Task>)
      ensures Lists(visited, programs.Keys)
      ensures tasks == Refresh(visited, existing, programs)
    {
      visited, tasks := [], [];
      var names := programs.Keys;
      while names != {}
        invariant names <= programs.Keys && Distinct(visited)
        invariant forall n :: n in visited <==> n in programs && n !in names
        invariant tasks == Refresh(visited, existing, programs)
        decreases names
      {
        var name :| name in names;
        var task;
        if name in existing {
          // go j.Reload(wg, d, prog)
          task := Task(name, ReloadOp(programs[name]));
        } else {
          // go j.Start(wg, d)
          task := Task(name, StartOp);
        }
        assert (visited + [name])[..|visited|] == visited;
        tasks := tasks + [task];
        visited := visited + [name];
        names := names - {name};
      }
    }

    /** The jobs of reload's second pass: each listed name not yet in the
        table gets NewJob with its program, stored under the name. */
    static method MakeNew(table0: map<string, J.Job>, visited: seq<string>, programs: map<string, J.Program>)
      returns (table: map<string, J.Job>)
      requires forall k :: 0 <= k < |visited| ==> visited[k] in programs
      ensures forall n :: n in table <==> n in table0 || n in visited
      ensures forall n :: n in table0 ==> table[n] == table0[n]
      ensures forall n :: n in table && n !in table0 ==> fresh(table[n]) && table[n].Configured(n, programs[n])
    {
      table := table0;
      for k := 0 to |visited|
        invariant forall n :: n in table <==> n in table0 || n in visited[..k]
        invariant forall n :: n in table0 ==> table[n] == table0[n]
        invariant forall n :: n in table && n !in table0 ==> fresh(table[n]) && table[n].Configured(n, programs[n])
      {
        var name := visited[k];
        assert visited[..k + 1] == visited[..k] + [name];
        if name !in table {
          ghost var before := table;
          var j := new J.Job(name, programs[name]);
          table := table[name := j];
          forall n | n in table && n !in table0
            ensures fresh(table[n]) && table[n].Configured(n, programs[n])
          {
            if n != name {
              assert table[n] == before[n];
            }
          }
        }
      }
      assert visited[..|visited|] == visited;
    }

    /** start: in the map's order, each job with Autostart set gets Start,
        one after another; the others are skipped. */
    method Start() returns (order: seq<string>, tasks: seq<Task>)
      ensures Lists(order, Jobs.Keys)
      ensures tasks == Launch(Autostarted(Jobs, order), StartOp)
    {
      ListingExists(Jobs.Keys);
      order :| Lists(order, Jobs.Keys);
      tasks := [];
      for k := 0 to |order|
        invariant tasks == Launch(Autostarted(Jobs, order[..k]), StartOp)
      {
        var name := order[k];
        assert order[..k + 1][..k] == order[..k];
        ghost var before := Autostarted(Jobs, order[..k]);
        if Jobs[name].Autostart {
          assert (before + [name])[..|before|] == before;
          tasks := tasks + [Task(name, StartOp)];
        } else {
          assert before + [] == before;
        }
      }
      assert order[..|order|] == order;
    }

    /** runWorkerJobs, and stop: every job gets the operation, in the map's
        order (runWorkerJobs launches them all before awaiting their dones,
        stop awaits each in turn). */
    method LaunchAll(op: Op) returns (order: seq<string>, tasks: seq<Task>)
      ensures Lists(order, Jobs.Keys)
      ensures tasks == Launch(order, op)
    {
      ListingExists(Jobs.Keys);
      order :| Lists(order, Jobs.Keys);
      tasks := [];
      for k := 0 to |order|
        invariant tasks == Launch(order[..k], op)
      {
        assert order[..k + 1][..k] == order[..k];
        tasks := tasks + [Task(order[k], op)];
      }
      assert order[..|order|] == order;
    }

    /** setJobs: exactly one argument, else the argument error with Done
        false; a single name must be in the table, else the lookup error with
        Done false, and its job alone gets the operation, which answers Done
        itself; "all" gives every job the operation and then Done true. */
    method SetJobs(op: Op, a: Action) returns (reply: Reply, order: seq<string>, tasks: seq<Task>)
      ensures |a.Args| != 1 ==> reply == Reply(Some(OneArgumentOnly), Some(false)) && tasks == []
      ensures |a.Args| == 1 && a.Args[0] != ALL && a.Args[0] !in Jobs ==>
        reply == Reply(Some(NotRecognized), Some(false)) && tasks == []
      ensures |a.Args| == 1 && a.Args[0] != ALL && a.Args[0] in Jobs ==>
        reply == Reply(None, None) && tasks == [Task(a.Args[0], op)]
      ensures |a.Args| == 1 && a.Args[0] == ALL ==>
        reply == Reply(None, Some(true)) && Lists(order, Jobs.Keys) && tasks == Launch(order, op)
    {
      order, tasks := [], [];
      if |a.Args| != 1 {
        return Reply(Some(OneArgumentOnly), Some(false)), order, tasks;
      }
      var name := a.Args[0];
      if name != ALL {
        if name !in Jobs {
          return Reply(Some(NotRecognized), Some(false)), order, tasks;
        }
        // runWorkerJob hands action.Done to the job operation
        return Reply(None, None), order, [Task(name, op)];
      }
      order, tasks := LaunchAll(op);
      reply := Reply(None, Some(true));
    }

    /** getStatus: the same argument and lookup errors as setJobs; one job
        gives its status text, "all" the status texts of every job in the
        map's order, separated by newlines; both with Done true. */
    method GetStatus(a: Action) returns (reply: Reply, order: seq<string>)
      requires Valid()
      ensures |a.Args| != 1 ==> reply == Reply(Some(OneArgumentOnly), Some(false))
      ensures |a.Args| == 1 && a.Args[0] != ALL && a.Args[0] !in Jobs ==>
        reply == Reply(Some(NotRecognized), Some(false))
      ensures |a.Args| == 1 && a.Args[0] != ALL && a.Args[0] in Jobs ==>
        reply == Reply(Some(StatusText(a.Args[0], Jobs[a.Args[0]].State)), Some(true))
      ensures |a.Args| == 1 && a.Args[0] == ALL ==>
        Lists(order, Jobs.Keys) && reply == Reply(Some(Join(Statuses(Jobs, order), '\n')), Some(true))
    {
      order := [];
      if |a.Args| != 1 {
        return Reply(Some(OneArgumentOnly), Some(false)), order;
      }
      var name := a.Args[0];
      if name != ALL {
        if name !in Jobs {
          return Reply(Some(NotRecognized), Some(false)), order;
        }
        var msg := GetStatusFmt(Jobs[name]);
        return Reply(Some(msg), Some(true)), order;
      }
      ListingExists(Jobs.Keys);
      order :| Lists(order, Jobs.Keys);
      ListsCount(order, Jobs.Keys);
      ghost var texts := Statuses(Jobs, order);
      var msg := "";
      for k := 0 to |order|
        invariant msg == Built(texts, k)
      {
        BuiltStep(texts, k);
        var text := GetStatusFmt(Jobs[order[k]]);
        msg := msg + text;
        if k + 1 != |Jobs| {
          msg := msg + "\n";
        }
      }
      BuiltAll(texts);
      reply := Reply(Some(msg), Some(true));
    }

    /** finish: the action queue is closed. */
    method Finish()
      modifies this`closed
      ensures closed
    {
      closed := true;
    }

    /** One round of Run's loop. QUIT stops every job, closes the queue and
        answers Done true; RELOAD reloads from the configuration read now,
        ignoring reload's error, and answers Done true; START, STOP and
        RESTART go to setJobs with the verb's operation, STATUS to getStatus;
        any other verb is answered "unknown command" with Done false. */
    method Dispatch(a: Action, conf: ParseResult) returns (reply: Reply, tasks: seq<Task>)
      requires Valid()
      modifies this`Jobs, this`closed
      ensures Valid() && Handled(old(Jobs), a, conf, reply, tasks, Jobs)
      ensures closed == (old(closed) || a.Type == QUIT)
      ensures a.Type == RELOAD && conf.Parsed? ==>
        forall n :: n in Jobs && n !in old(Jobs) ==> fresh(Jobs[n]) && Jobs[n].Configured(n, conf.programs[n])
    {
      tasks := [];
      if a.Type == QUIT {
        var order;
        order, tasks := LaunchAll(StopOp);
        Finish();
        reply := Reply(None, Some(true));
      } else if a.Type == RELOAD {
        var err, removed, visited;
        err, removed, visited, tasks := Reload(conf);
        reply := Reply(None, Some(true));
      } else if a.Type == START || a.Type == STOP || a.Type == RESTART {
        var order;
        reply, order, tasks := SetJobs(OpOf(a.Type), a);
      } else if a.Type == STATUS {
        var order;
        reply, order := GetStatus(a);
      } else {
        reply := Reply(Some("unknown command " + a.Type), Some(false));
      }
    }

    /** Run: start, then take actions off the queue one at a time and handle
        each, until QUIT has been handled. The start pass gives Start to the
        Autostart jobs in some map order. The k-th action is handled on the
        table the earlier ones left, and a reload parses conf(r) when r reloads
        came before it. The model stops when the queue is empty, where Run
        would wait. */
    method Run(conf: nat -> ParseResult)
      returns (order: seq<string>, started: seq<Task>, replies: seq<Reply>,
               ghost tables: seq<map<string, J.Job>>, ghost launched: seq<seq<Task>>)
      requires Valid() && !closed
      modifies this`Jobs, this`closed, this`actions
      ensures Valid()
      ensures Lists(order, old(Jobs).Keys) && started == Launch(old(Autostarted(Jobs, order)), StartOp)
      ensures |replies| <= |old(actions)| && actions == old(actions)[|replies|..]
      ensures Served(old(actions)[..|replies|], conf, replies, tables, launched)
      ensures tables[0] == old(Jobs) && tables[|replies|] == Jobs
      ensures closed <==> 0 < |replies| && old(actions)[|replies| - 1].Type == QUIT
      ensures forall k :: 0 <= k < |replies| - 1 ==> old(actions)[k].Type != QUIT
      ensures !closed ==> actions == []
    {
      order, started := Start();
      replies, tables, launched := Serve(conf);
    }

    /** Run's loop: each action taken off the queue is handled on the table
        the earlier ones left, until QUIT has been handled or the queue is empty. */
    method Serve(conf: nat -> ParseResult)
      returns (replies: seq<Reply>, ghost tables: seq<map<string, J.Job>>, ghost launched: seq<seq<Task>>)
      requires Valid() && !closed
      modifies this`Jobs, this`closed, this`actions
      ensures Valid()
      ensures |replies| <= |old(actions)| && actions == old(actions)[|replies|..]
      ensures Served(old(actions)[..|replies|], conf, replies, tables, launched)
      ensures tables[0] == old(Jobs) && tables[|replies|] == Jobs
      ensures closed <==> 0 < |replies| && old(actions)[|replies| - 1].Type == QUIT
      ensures forall k :: 0 <= k < |replies| - 1 ==> old(actions)[k].Type != QUIT
      ensures !closed ==> actions == []
    {
      replies, tables, launched := [], [Jobs], [];
      assert old(actions)[..0] == [];
      var reloads := 0;
      while actions != []
        invariant Valid() && !closed
        invariant |replies| <= |old(actions)| && actions == old(actions)[|replies|..]
        invariant |tables| == |replies| + 1 && |launched| == |replies|
        invariant Served(old(actions)[..|replies|], conf, replies, tables, launched)
        invariant tables[0] == old(Jobs) && tables[|replies|] == Jobs
        invariant reloads == Reloads(old(actions)[..|replies|])
        invariant forall k :: 0 <= k < |replies| ==> old(actions)[k].Type != QUIT
        decreases |actions|
      {
        ghost var n := |replies|;
        reloads, replies, tables, launched := Round(conf, reloads, old(actions), replies, tables, launched);
        if closed {
          return;
        }
        assert old(actions)[n].Type != QUIT;
      }
    }

    /** One round of Run's loop on a served history of the queue `acts`: the
        next action is taken off the queue and dispatched on the table the
        history left, with the configuration its reloads so far select, and
        the history grows by that round. */
    method Round(conf: nat -> ParseResult, reloads: nat, ghost acts: seq<Action>, replies: seq<Reply>,
                 ghost tables: seq<map<string, J.Job>>, ghost launched: seq<seq<Task>>)
      returns (reloads': nat, replies': seq<Reply>, ghost tables': seq<map<string, J.Job>>,
               ghost launched': seq<seq<Task>>)
      requires Valid() && !closed && actions != []
      requires |replies| <= |acts| && actions == acts[|replies|..]
      requires Served(acts[..|replies|], conf, replies, tables, launched)
      requires tables[|replies|] == Jobs && reloads == Reloads(acts[..|replies|])
      modifies this`Jobs, this`closed, this`actions
      ensures Valid() && closed == (acts[|replies|].Type == QUIT)
      ensures |replies'| == |replies| + 1 && actions == acts[|replies'|..]
      ensures |tables'| == |replies'| + 1 && |launched'| == |replies'|
      ensures tables'[..|replies'|] == tables && replies'[..|replies|] == replies
      ensures Served(acts[..|replies'|], conf, replies', tables', launched')
      ensures tables'[|replies'|] == Jobs && reloads' == Reloads(acts[..|replies'|])
    {
      var a := actions[0];
      ghost var n := |replies|;
      actions := actions[1..];
      var reply, tasks := Dispatch(a, conf(reloads));
      ServedSnoc(acts, conf, replies, tables, launched, reply, tasks, Jobs);
      reloads' := if a.Type == RELOAD then reloads + 1 else reloads;
      replies', tables', launched' := replies + [reply], tables + [Jobs], launched + [tasks];
    }

    /** Execute: the client's request is answered or queued as Executed
        says; only the queue changes, and only by one action at its end.
        A send on the queue after finish has closed it panics. */
    method Execute(action: string, args: seq<string>) returns (out: Sent)
      modifies this`actions
      ensures Executed(Jobs, closed, action, args, out, old(actions), actions)
      ensures forall k :: |old(actions)| <= k < |actions| ==> Queued(actions[k])
    {
      if action == QUIT || action == RELOAD {
        out := Enqueue(Action(action, []));
        return;
      }
      if action == START || action == STOP || action == STATUS || action == RESTART {
        if |args| != 1 {
          return Answer(BadRequest(action + " command must be followed by one argument"));
        }
        if args[0] !in Jobs {
          return Answer(BadRequest(args[0] + " is not recognizable"));
        }
        if action == STATUS {
          return Answer(NewResponseWithBody(StateList(Jobs[args[0]].State)));
        }
        out := Enqueue(Action(action, args));
        return;
      }
      return Answer(BadRequest(action + " Unknown command"));
    }

    /** The send `m.actions <- a`, and the empty response that follows it. */
    method Enqueue(a: Action) returns (out: Sent)
      modifies this`actions
      ensures Enqueued(closed, a, out, old(actions), actions)
    {
      if closed {
        return SendOnClosed;
      }
      actions := actions + [a];
      return Answer(NewResponse());
    }
  }
}
