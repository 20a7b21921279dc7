/** The deployment runner of `overcast/runner/__init__.py`: the symbolic
    references a stack description leaves to the environment, and the
    timing and retry rules of a shell step. The clock, `parse_time` and the
    outcome of each command run are inputs. */
module Runner {
  import opened Util

  // ---------------------------------------------------------------------
  // find_weak_refs

  datatype Nic = Nic(network: string)

  datatype StackNode = StackNode(image: string, flavor: string, nics: seq<Nic>)

  /** A stack description: its nodes by name and, when the description has
      a `networks` key, the names of the networks it declares itself. */
  datatype Stack = Stack(nodes: map<string, StackNode>, networks: Option<set<string>>)

  /** Names the stack uses but does not define: they must come from the
      environment the stack is deployed into. */
  datatype WeakRefs = WeakRefs(images: set<string>, flavors: set<string>, networks: set<string>)

  /** `stack.get('networks', {})`'s names. */
  function DeclaredNetworks(stack: Stack): set<string> {
    if stack.networks.Some? then stack.networks.value else {}
  }

  /** The networks one node's NICs attach to. */
  function NicNetworks(node: StackNode): (r: set<string>)
    ensures forall j | 0 <= j < |node.nics| :: node.nics[j].network in r
    ensures forall x | x in r :: exists j | 0 <= j < |node.nics| :: node.nics[j].network == x
  {
    set j | 0 <= j < |node.nics| :: node.nics[j].network
  }

  /** Whether some node's NIC attaches to network `x`. */
  ghost predicate UsesNetwork(stack: Stack, x: string) {
    exists k | k in stack.nodes :: x in NicNetworks(stack.nodes[k])
  }

  /** The weak references of a stack: every node's image, every node's
      flavor, and every network a NIC attaches to that the stack does not
      declare. A declared network is never reported, and without a
      `networks` key nothing is subtracted. */
  function WeakRefsOf(stack: Stack): (r: WeakRefs)
    ensures forall x :: x in r.images <==> exists k | k in stack.nodes :: stack.nodes[k].image == x
    ensures forall x :: x in r.flavors <==> exists k | k in stack.nodes :: stack.nodes[k].flavor == x
    ensures forall x :: x in r.networks <==> UsesNetwork(stack, x) && x !in DeclaredNetworks(stack)
    ensures r.networks !! DeclaredNetworks(stack)
    ensures stack.networks.None? ==> forall x :: x in r.networks <==> UsesNetwork(stack, x)
  {
    WeakRefs(
      set k | k in stack.nodes :: stack.nodes[k].image,
      set k | k in stack.nodes :: stack.nodes[k].flavor,
      (set k, x | k in stack.nodes && x in NicNetworks(stack.nodes[k]) :: x) - DeclaredNetworks(stack))
  }

  /** `find_weak_refs`: one pass over the nodes adding to three sets, one
      pass over the declared networks, then the set difference. */
  method FindWeakRefs(stack: Stack) returns (r: WeakRefs)
    ensures r == WeakRefsOf(stack)
  {
    var names := Enumerate(stack.nodes.Keys);
    var images: set<string> := {};
    var flavors: set<string> := {};
    var networks: set<string> := {};
    for i := 0 to |names|
      invariant images == set j | 0 <= j < i :: stack.nodes[names[j]].image
      invariant flavors == set j | 0 <= j < i :: stack.nodes[names[j]].flavor
      invariant networks == set j, x | 0 <= j < i && x in NicNetworks(stack.nodes[names[j]]) :: x
    {
      var node := stack.nodes[names[i]];
      images := images + {node.image};
      flavors := flavors + {node.flavor};
      networks := networks + NicNetworks(node);
    }
    var declared := Enumerate(DeclaredNetworks(stack));
    var dynamic: set<string> := {};
    for i := 0 to |declared|
      invariant dynamic == set j | 0 <= j < i :: declared[j]
    {
      dynamic := dynamic + {declared[i]};
    }
    EnumeratedImages(stack, names);
    r := WeakRefs(images, flavors, networks - dynamic);
  }

  /** Sets gathered over an enumeration of the node names are the sets over
      all nodes. */
  lemma EnumeratedImages(stack: Stack, names: seq<string>)
    requires Enumerates(names, stack.nodes.Keys)
    ensures (set j | 0 <= j < |names| :: stack.nodes[names[j]].image) == (set k | k in stack.nodes :: stack.nodes[k].image)
    ensures (set j | 0 <= j < |names| :: stack.nodes[names[j]].flavor) == (set k | k in stack.nodes :: stack.nodes[k].flavor)
    ensures (set j, x | 0 <= j < |names| && x in NicNetworks(stack.nodes[names[j]]) :: x)
      == (set k, x | k in stack.nodes && x in NicNetworks(stack.nodes[k]) :: x)
  {
  }

  // ---------------------------------------------------------------------
  // shell_step_cmd

  /** Why a shell step stops without completing. */
  datatype StepError =
    | CommandFailed
    | CommandTimedOut
      /** The `remote` branch of `shell_step_cmd` reads an undefined `self`. */
    | NameError

  /** `shell_step_cmd`: the shell the step's command is fed to. */
  function ShellStepCmd(stepType: Option<string>): (r: Result<string, StepError>)
    ensures stepType != Some("remote") ==> r == Ok("bash")
    ensures stepType == Some("remote") ==> r == Err(NameError)
  {
    if stepType == Some("remote") then Err(NameError) else Ok("bash")
  }

  // ---------------------------------------------------------------------
  // shell_step: deadlines

  /** The deadline of one run of the command, started at `now`, given the
      per-run limit and the overall deadline (each `None` when not
      configured). A limit or deadline of 0 counts as not configured. */
  function AttemptDeadline(now: int, limit: Option<int>, overall: Option<int>): (d: Option<int>)
    ensures TruthyInt(limit) && TruthyInt(overall) ==>
      d == Some(if now + limit.value <= overall.value then now + limit.value else overall.value)
    ensures TruthyInt(limit) && !TruthyInt(overall) ==> d == Some(now + limit.value)
    ensures !TruthyInt(limit) && TruthyInt(overall) ==> d == overall
    ensures !TruthyInt(limit) && !TruthyInt(overall) ==> d == None
    // A run never gets more time than its own limit or than is left overall.
    ensures TruthyInt(overall) ==> d.Some? && d.value <= overall.value
    ensures TruthyInt(limit) ==> d.Some? && d.value <= now + limit.value
  {
    if TruthyInt(limit) then
      var deadline := now + limit.value;
      if TruthyInt(overall) && deadline > overall.value then overall else Some(deadline)
    else if TruthyInt(overall) then overall
    else None
  }

  /** The raw settings of a step, as its YAML gives them. */
  datatype StepDetails = StepDetails(
    stepType: Option<string>,
    timeout: Option<string>,
    totalTimeout: Option<string>,
    retryDelay: Option<string>,
    retryIfFails: bool)

  /** The settings `shell_step` derives before its first run. */
  datatype Settings = Settings(limit: Option<int>, overall: Option<int>, retryDelay: int, retryIfFails: bool)

  /** The settings of a step started at `start`; `parseTime` is
      `utils.parse_time`. A setting that is missing or empty is not used. */
  function SettingsOf(details: StepDetails, start: int, parseTime: string -> int): (s: Settings)
    ensures s.overall.Some? <==> TruthyStr(details.totalTimeout)
    ensures s.overall.Some? ==> s.overall.value == start + parseTime(details.totalTimeout.value)
    ensures s.limit.Some? <==> TruthyStr(details.timeout)
    ensures s.limit.Some? ==> s.limit.value == parseTime(details.timeout.value)
    ensures s.retryDelay == if TruthyStr(details.retryDelay) then parseTime(details.retryDelay.value) else 0
    ensures s.retryIfFails == details.retryIfFails
  {
    Settings(
      if TruthyStr(details.timeout) then Some(parseTime(details.timeout.value)) else None,
      if TruthyStr(details.totalTimeout) then Some(start + parseTime(details.totalTimeout.value)) else None,
      if TruthyStr(details.retryDelay) then parseTime(details.retryDelay.value) else 0,
      details.retryIfFails)
  }

  // ---------------------------------------------------------------------
  // shell_step: retries

  /** How one run of the command ended. */
  datatype Outcome = Succeeded | Failed | TimedOut

  /** One run: the clock when its deadline is set, how it ended, and the
      clock when a timeout is examined. */
  datatype Attempt = Attempt(start: int, outcome: Outcome, checkedAt: int)

  datatype Decision = Done | Retry | Raise(error: StepError)

  /** What `shell_step` does after a run that ended with `outcome`. */
  function Decide(s: Settings, outcome: Outcome, deadline: Option<int>, now: int): (d: Decision)
    ensures outcome == Succeeded <==> d == Done
    ensures outcome == Failed ==> (d == Retry <==> s.retryIfFails)
    ensures outcome == TimedOut ==>
      (d == Retry <==> s.retryIfFails && deadline.Some? && now + s.retryDelay < deadline.value)
    ensures d.Raise? ==> d.error == (if outcome == Failed then CommandFailed else CommandTimedOut)
  {
    match outcome
    case Succeeded => Done
    case Failed => if s.retryIfFails then Retry else Raise(CommandFailed)
    case TimedOut =>
      // A missing deadline never compares greater: the exception propagates.
      if s.retryIfFails && deadline.Some? && now + s.retryDelay < deadline.value then Retry
      else Raise(CommandTimedOut)
  }

  /** The decision after attempt `a`, whose deadline is set when it starts. */
  function DecisionAt(s: Settings, a: Attempt): Decision {
    Decide(s, a.outcome, AttemptDeadline(a.start, s.limit, s.overall), a.checkedAt)
  }

  /** How a step ends: after `runs` runs, completed or raising `error`, or
      still retrying when the runs observed are used up. */
  datatype StepResult = Completed(runs: nat) | Raised(runs: nat, error: StepError) | StillRetrying

  /** The result of running the attempts `schedule[i..]` after `i` retried runs. */
  function RunFrom(s: Settings, schedule: seq<Attempt>, i: nat): StepResult
    requires i <= |schedule|
    decreases |schedule| - i
  {
    if i == |schedule| then StillRetrying
    else match DecisionAt(s, schedule[i])
      case Done => Completed(i + 1)
      case Raise(e) => Raised(i + 1, e)
      case Retry => RunFrom(s, schedule, i + 1)
  }

  /** The result of a shell step whose runs go as `schedule` says. */
  function StepRun(details: StepDetails, start: int, parseTime: string -> int, schedule: seq<Attempt>): StepResult {
    if ShellStepCmd(details.stepType).Err? then Raised(0, NameError)
    else RunFrom(SettingsOf(details, start, parseTime), schedule, 0)
  }

  /** `shell_step`: set up the deadlines, then run the command until it
      succeeds or an error is not retried. The step starts at clock `start`;
      `schedule` lists the runs the command goes through. */
  method ShellStep(details: StepDetails, start: int, parseTime: string -> int, schedule: seq<Attempt>)
    returns (r: StepResult)
    ensures r == StepRun(details, start, parseTime, schedule)
  {
    var cmd := ShellStepCmd(details.stepType);
    if cmd.Err? {
      return Raised(0, cmd.error);
    }
    var overall := if TruthyStr(details.totalTimeout) then Some(start + parseTime(details.totalTimeout.value)) else None;
    var limit := if TruthyStr(details.timeout) then Some(parseTime(details.timeout.value)) else None;
    var retryDelay := if TruthyStr(details.retryDelay) then parseTime(details.retryDelay.value) else 0;
    ghost var s := SettingsOf(details, start, parseTime);
    assert s == Settings(limit, overall, retryDelay, details.retryIfFails);
    var i := 0;
    while i < |schedule|
      invariant i <= |schedule|
      invariant RunFrom(s, schedule, i) == StepRun(details, start, parseTime, schedule)
      decreases |schedule| - i
    {
      var a := schedule[i];
      var deadline := AttemptDeadline(a.start, limit, overall);
      match a.outcome {
        case Succeeded =>
          return Completed(i + 1);
        case Failed =>
          if !details.retryIfFails {
            return Raised(i + 1, CommandFailed);
          }
        case TimedOut =>
          if !(details.retryIfFails && deadline.Some? && a.checkedAt + retryDelay < deadline.value) {
            return Raised(i + 1, CommandTimedOut);
          }
      }
      i := i + 1;
    }
    return StillRetrying;
  }

  /** A step's result is decided by the first run that is not retried: it
      completes if that run succeeded and raises its error otherwise. */
  lemma {:induction false} FirstUnretriedRunDecides(s: Settings, schedule: seq<Attempt>, i: nat, n: nat)
    requires i <= n < |schedule|
    requires forall j | i <= j < n :: DecisionAt(s, schedule[j]) == Retry
    requires DecisionAt(s, schedule[n]) != Retry
    ensures RunFrom(s, schedule, i) ==
      if schedule[n].outcome == Succeeded then Completed(n + 1) else Raised(n + 1, DecisionAt(s, schedule[n]).error)
    decreases n - i
  {
    if i < n {
      FirstUnretriedRunDecides(s, schedule, i + 1, n);
    }
  }

  /** A step is still retrying only when every run it went through was retried. */
  lemma {:induction false} StillRetryingIff(s: Settings, schedule: seq<Attempt>, i: nat)
    requires i <= |schedule|
    ensures RunFrom(s, schedule, i) == StillRetrying <==>
      forall j | i <= j < |schedule| :: DecisionAt(s, schedule[j]) == Retry
    decreases |schedule| - i
  {
    if i < |schedule| {
      StillRetryingIff(s, schedule, i + 1);
    }
  }

  /** Without `retry-if-fails`, the command runs once. */
  lemma RunsOnceWithoutRetry(s: Settings, schedule: seq<Attempt>)
    requires !s.retryIfFails && schedule != []
    ensures RunFrom(s, schedule, 0).Completed? || RunFrom(s, schedule, 0).Raised?
    ensures RunFrom(s, schedule, 0).runs == 1
  {
  }

  /** The decision after a failed run does not look at the deadline: with
      `retry-if-fails`, as long as runs fail rather than time out, the step
      retries. How late a run can still fail is bounded by
      `StepEndsAfterOverallDeadline`. */
  lemma {:induction false} FailuresIgnoreTotalTimeout(s: Settings, schedule: seq<Attempt>, i: nat)
    requires s.retryIfFails && i <= |schedule|
    requires forall j | i <= j < |schedule| :: schedule[j].outcome == Failed
    ensures RunFrom(s, schedule, i) == StillRetrying
    decreases |schedule| - i
  {
    if i < |schedule| {
      FailuresIgnoreTotalTimeout(s, schedule, i + 1);
    }
  }

  /** A run that times out after the overall deadline is never retried. */
  lemma TimeoutPastOverallDeadlineRaises(s: Settings, a: Attempt)
    requires a.outcome == TimedOut && TruthyInt(s.overall)
    requires s.retryDelay >= 0 && a.checkedAt >= s.overall.value
    ensures DecisionAt(s, a) == Raise(CommandTimedOut)
  {
  }

  /** What `run_cmd_once` can report about run `a`: a timeout is raised only
      under a deadline, and only once the clock is past it. */
  predicate PossibleRun(s: Settings, a: Attempt) {
    var deadline := AttemptDeadline(a.start, s.limit, s.overall);
    && a.start <= a.checkedAt
    && (a.outcome == TimedOut ==> TruthyInt(deadline) && a.checkedAt > deadline.value)
  }

  /** A run whose deadline has already passed when it starts is killed at its
      first check: `run_cmd_once` writes one character of the command per
      pass, so the shell has not read the whole command by then. */
  predicate LateRunTimesOut(s: Settings, a: Attempt) {
    var deadline := AttemptDeadline(a.start, s.limit, s.overall);
    TruthyInt(deadline) && a.start > deadline.value ==> a.outcome == TimedOut
  }

  /** A run that starts after the overall deadline raises its timeout. The
      clock reading is positive and the per-run limit is not negative, so the
      run's deadline is not the falsy 0 that `run_cmd_once` never checks. */
  lemma LateRunRaises(s: Settings, a: Attempt)
    requires TruthyInt(s.overall) && s.retryDelay >= 0
    requires s.limit.Some? ==> s.limit.value >= 0
    requires PossibleRun(s, a) && LateRunTimesOut(s, a)
    requires 0 < a.start && s.overall.value < a.start
    ensures DecisionAt(s, a) == Raise(CommandTimedOut)
  {
    var deadline := AttemptDeadline(a.start, s.limit, s.overall);
    assert deadline.value != 0;
  }

  /** With a total timeout, the step cannot keep retrying: it ends at the
      latest with the first run that starts after the overall deadline. */
  lemma {:induction false} StepEndsAfterOverallDeadline(s: Settings, schedule: seq<Attempt>, i: nat, n: nat)
    requires TruthyInt(s.overall) && s.retryDelay >= 0
    requires s.limit.Some? ==> s.limit.value >= 0
    requires i <= n < |schedule|
    requires PossibleRun(s, schedule[n]) && LateRunTimesOut(s, schedule[n])
    requires 0 < schedule[n].start && s.overall.value < schedule[n].start
    ensures RunFrom(s, schedule, i).Completed? || RunFrom(s, schedule, i).Raised?
    ensures RunFrom(s, schedule, i).runs <= n + 1
    decreases n - i
  {
    LateRunRaises(s, schedule[n]);
    if DecisionAt(s, schedule[i]) == Retry {
      StepEndsAfterOverallDeadline(s, schedule, i + 1, n);
    }
  }
}
