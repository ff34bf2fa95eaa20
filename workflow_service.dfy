/**
 * The workflow executor: a brand-design workflow that runs its nodes in
 * order, recording a checkpoint before and after each node and the final
 * status on the task; a debug workflow that completes at once; the factory
 * choosing a workflow by task type; and the entry point that creates the
 * task. What a node computes (a call to an AI service) is a parameter: for a
 * node name and the current state it either produces a value or raises an
 * error with a message.
 */
module WorkflowService {
  import opened Wrappers
  import opened TaskModel

  /** The state passed from node to node. */
  type State = map<string, Json>

  /** What a node's external call gives back. */
  datatype NodeOutcome = Produced(value: Json) | Raised(message: string)

  /** A node, named, that stores what its call produces under `key`. */
  datatype Node = Node(name: string, key: string)

  /** The brand-design workflow's nodes, in order. */
  const NODES: seq<Node> := [Node("generate_logo", "logo"), Node("apply_colors", "colors")]

  const UNKNOWN_ERROR := "未知错误"
  const DEBUG_MESSAGE := "调试工作流执行成功"
  const UNSUPPORTED_TYPE := "不支持的任务类型: "

  /** The message recorded for an error: its own message, or the stock one
      when that is empty. */
  function FailureMessage(message: string): (r: string)
    ensures r != ""
    ensures message != "" ==> r == message
  {
    if message == "" then UNKNOWN_ERROR else message
  }

  /** The state the workflow starts from. */
  function InitialState(task: Task): (s: State)
    ensures s.Keys == {"brief", "taskId"}
    ensures s["brief"] == task.params && s["taskId"] == Str(task.id)
  {
    map["brief" := task.params, "taskId" := Str(task.id)]
  }

  /** A checkpoint entry carrying the state at that point. */
  function StateEntry(step: string, state: State): (string, Json) {
    (step, Obj(map["state" := Obj(state)]))
  }

  /** The fields of a value spread into an object. Only objects reach a
      spread in the workflow, because the node calls are typed to return logo
      and colour result objects, so only an object's own fields are modelled;
      any other value is taken to add none (JavaScript would spread a string
      or an array into index keys, which this model does not represent). */
  function Fields(j: Json): map<string, Json> {
    if j.Obj? then j.fields else map[]
  }

  /** The brand-design result: the logo, the colours, and one asset that is
      the logo with the colours added. */
  function FinalResult(state: State): (r: Json)
    requires "logo" in state && "colors" in state
    ensures r.Obj? && r.fields.Keys == {"logo", "colors", "assets"}
    ensures r.fields["logo"] == state["logo"] && r.fields["colors"] == state["colors"]
    ensures r.fields["assets"] == Arr([Obj(Fields(state["logo"])["colors" := state["colors"]])])
  {
    Obj(map["logo" := state["logo"], "colors" := state["colors"],
            "assets" := Arr([Obj(Fields(state["logo"])["colors" := state["colors"]])])])
  }

  /** The debug workflow's result. */
  function DebugResult(params: Json, isoTime: string): (r: Json)
    ensures r.Obj? && r.fields.Keys == {"debug", "params", "timestamp", "message"}
    ensures r.fields["debug"] == Bool(true) && r.fields["params"] == params
  {
    Obj(map["debug" := Bool(true), "params" := params, "timestamp" := Str(isoTime),
            "message" := Str(DEBUG_MESSAGE)])
  }

  // ---------------------------------------------------------------------------
  // Running the nodes

  /** What running some nodes does: the checkpoints it records, in order, and
      the final state or the message of the error that stopped it. */
  datatype Run = Run(steps: seq<(string, Json)>, outcome: Result<State, string>)

  function RunNodes(nodes: seq<Node>, state: State, ai: (string, State) -> NodeOutcome): Run
    decreases |nodes|
  {
    if nodes == [] then Run([], Ok(state))
    else
      var n := nodes[0];
      var before := StateEntry(n.name, state);
      match ai(n.name, state)
      case Raised(m) => Run([before], Err(m))
      case Produced(v) =>
        var next := state[n.key := v];
        var rest := RunNodes(nodes[1..], next, ai);
        Run([before, StateEntry(n.name + "_completed", next)] + rest.steps, rest.outcome)
  }

  function StepNames(steps: seq<(string, Json)>): (r: seq<string>)
    ensures |r| == |steps|
    ensures forall k :: 0 <= k < |steps| ==> r[k] == steps[k].0
  {
    if steps == [] then [] else [steps[0].0] + StepNames(steps[1..])
  }

  /** The checkpoint names of a complete run: each node's name, then the
      same with "_completed". */
  function PairNames(nodes: seq<Node>): seq<string> {
    if nodes == [] then [] else [nodes[0].name, nodes[0].name + "_completed"] + PairNames(nodes[1..])
  }

  lemma {:induction false} PairNamesAppend(a: seq<Node>, b: seq<Node>)
    ensures PairNames(a + b) == PairNames(a) + PairNames(b)
  {
    if a == [] {
      assert a + b == b;
    } else {
      assert (a + b)[1..] == a[1..] + b;
      PairNamesAppend(a[1..], b);
    }
  }

  lemma {:induction false} StepNamesAppend(a: seq<(string, Json)>, b: seq<(string, Json)>)
    ensures StepNames(a + b) == StepNames(a) + StepNames(b)
  {
    if a == [] {
      assert a + b == b;
    } else {
      assert (a + b)[1..] == a[1..] + b;
      StepNamesAppend(a[1..], b);
    }
  }

  /** A run that succeeds records "name" and "name_completed" for every node
      in order; a run that fails at node k records the pairs of the nodes
      before it and then only "name" of node k. */
  lemma {:induction false} RunNodesCheckpoints(nodes: seq<Node>, state: State, ai: (string, State) -> NodeOutcome)
    decreases |nodes|
    ensures var run := RunNodes(nodes, state, ai);
      run.outcome.Ok? ==> StepNames(run.steps) == PairNames(nodes)
    ensures var run := RunNodes(nodes, state, ai);
      run.outcome.Err? ==>
        exists k :: 0 <= k < |nodes| && StepNames(run.steps) == PairNames(nodes[..k]) + [nodes[k].name]
  {
    if nodes != [] {
      var n := nodes[0];
      var run := RunNodes(nodes, state, ai);
      match ai(n.name, state)
      case Raised(m) =>
        assert nodes[..0] == [];
        assert StepNames(run.steps) == PairNames(nodes[..0]) + [nodes[0].name];
      case Produced(v) =>
        var next := state[n.key := v];
        var rest := RunNodes(nodes[1..], next, ai);
        RunNodesCheckpoints(nodes[1..], next, ai);
        var pair := [StateEntry(n.name, state), StateEntry(n.name + "_completed", next)];
        StepNamesAppend(pair, rest.steps);
        assert StepNames(pair) == [n.name, n.name + "_completed"];
        if rest.outcome.Err? {
          var k :| 0 <= k < |nodes| - 1 && StepNames(rest.steps) == PairNames(nodes[1..][..k]) + [nodes[1..][k].name];
          ShiftFailure(nodes, StepNames(rest.steps), k);
        }
    }
  }

  /** A failure at node k of the tail is a failure at node k + 1 of the whole,
      after the first node's pair. */
  lemma ShiftFailure(nodes: seq<Node>, rest: seq<string>, k: int)
    requires 0 <= k < |nodes| - 1
    requires rest == PairNames(nodes[1..][..k]) + [nodes[1..][k].name]
    ensures [nodes[0].name, nodes[0].name + "_completed"] + rest == PairNames(nodes[..k + 1]) + [nodes[k + 1].name]
  {
    var prefix := nodes[..k + 1];
    assert prefix[0] == nodes[0] && prefix[1..] == nodes[1..][..k];
  }

  /** The keys the nodes write. */
  function NodeKeys(nodes: seq<Node>): set<string> {
    set n | n in nodes :: n.key
  }

  /** A successful run keeps every key of the starting state that no node
      writes, with its value, and ends with every node's key present. */
  lemma {:induction false} RunNodesKeepsState(nodes: seq<Node>, state: State, ai: (string, State) -> NodeOutcome)
    decreases |nodes|
    ensures var run := RunNodes(nodes, state, ai);
      run.outcome.Ok? ==>
        && (forall key :: key in state && key !in NodeKeys(nodes) ==>
              key in run.outcome.value && run.outcome.value[key] == state[key])
        && (forall n :: n in nodes ==> n.key in run.outcome.value)
  {
    if nodes != [] {
      var n := nodes[0];
      match ai(n.name, state)
      case Raised(_) =>
      case Produced(v) =>
        var next := state[n.key := v];
        RunNodesKeepsState(nodes[1..], next, ai);
        var final := RunNodes(nodes, state, ai).outcome;
        if final.Ok? {
          assert forall m :: m in nodes[1..] ==> m in nodes;
          assert forall m :: m in nodes ==> m == n || m in nodes[1..];
          if n.key !in NodeKeys(nodes[1..]) {
            assert n.key in next;
          } else {
            var m :| m in nodes[1..] && m.key == n.key;
          }
        }
    }
  }

  /** For the brand-design nodes: success records the four checkpoints
      generate_logo, generate_logo_completed, apply_colors,
      apply_colors_completed; a failure records generate_logo alone or the
      first three. Success leaves the brief and task id in place and the
      logo and colours present. */
  lemma BrandDesignCheckpoints(task: Task, ai: (string, State) -> NodeOutcome)
    ensures var run := RunNodes(NODES, InitialState(task), ai);
      run.outcome.Ok? ==>
        && StepNames(run.steps) == ["generate_logo", "generate_logo_completed", "apply_colors", "apply_colors_completed"]
        && run.outcome.value["brief"] == task.params && run.outcome.value["taskId"] == Str(task.id)
        && "logo" in run.outcome.value && "colors" in run.outcome.value
    ensures var run := RunNodes(NODES, InitialState(task), ai);
      run.outcome.Err? ==>
        StepNames(run.steps) == ["generate_logo"]
        || StepNames(run.steps) == ["generate_logo", "generate_logo_completed", "apply_colors"]
  {
    var state := InitialState(task);
    RunNodesCheckpoints(NODES, state, ai);
    RunNodesKeepsState(NODES, state, ai);
    BrandDesignNodes();
  }

  /** The names and keys of the two brand-design nodes. */
  lemma BrandDesignNodes()
    ensures |NODES| == 2 && NODES[0].name == "generate_logo" && NODES[1].name == "apply_colors"
    ensures PairNames(NODES) == ["generate_logo", "generate_logo_completed", "apply_colors", "apply_colors_completed"]
    ensures PairNames(NODES[..0]) == [] && PairNames(NODES[..1]) == ["generate_logo", "generate_logo_completed"]
    ensures NodeKeys(NODES) == {"logo", "colors"}
    ensures Node("generate_logo", "logo") in NODES && Node("apply_colors", "colors") in NODES
  {
    assert NODES[..0] == [] && NODES[..1] == [NODES[0]];
    assert "generate_logo" + "_completed" == "generate_logo_completed";
    assert "apply_colors" + "_completed" == "apply_colors_completed";
    assert [NODES[0]][1..] == [] && NODES[1..] == [NODES[1]] && NODES[1..][1..] == [];
    assert PairNames(NODES[..1]) == ["generate_logo", "generate_logo_completed"] + PairNames([]);
    assert PairNames(NODES[1..]) == ["apply_colors", "apply_colors_completed"] + PairNames([]);
    assert PairNames(NODES) == ["generate_logo", "generate_logo_completed"] + PairNames(NODES[1..]);
    assert NodeKeys(NODES) == {"logo", "colors"} by {
      assert NODES[0] in NODES && NODES[1] in NODES;
    }
  }

  /** The task as a run leaves it: processing, then the run's checkpoints,
      then completed with the result or failed with the message. */
  function TaskAfterRun(t: Task, run: Run, now: int): (r: Task)
    requires run.outcome.Ok? ==> "logo" in run.outcome.value && "colors" in run.outcome.value
    ensures r.id == t.id && r.params == t.params && r.createdAt == t.createdAt
    ensures r.checkpoints == t.checkpoints + Stamp(run.steps, now)
    ensures run.outcome.Ok? ==> r.status == Completed && r.result == Some(FinalResult(run.outcome.value)) && r.error == t.error
    ensures run.outcome.Err? ==> r.status == Failed && r.error == Some(FailureMessage(run.outcome.error)) && r.result == t.result
  {
    CheckpointsAccumulate(WithStatus(t, Processing, None, None, now), run.steps, now);
    var recorded := Recorded(t, run.steps, now);
    match run.outcome
    case Ok(state) => WithStatus(recorded, Completed, Some(FinalResult(state)), None, now)
    case Err(m) => WithStatus(recorded, Failed, None, Some(FailureMessage(m)), now)
  }

  // ---------------------------------------------------------------------------
  // Workflows

  datatype Workflow = BrandDesign | Debug

  /** The workflow for a task type: brand design for logo generation, the
      debug workflow for debug flows, an error naming the type otherwise. */
  function CreateWorkflow(kind: TaskType): (r: Result<Workflow, string>)
    ensures r == Ok(BrandDesign) <==> kind == GenerateLogo
    ensures r == Ok(Debug) <==> kind == DebugFlow
    ensures r.Err? <==> kind != GenerateLogo && kind != DebugFlow
    ensures r.Err? ==> r.error == UNSUPPORTED_TYPE + kind.Name()
  {
    match kind
    case GenerateLogo => Ok(BrandDesign)
    case DebugFlow => Ok(Debug)
    case _ => Err(UNSUPPORTED_TYPE + kind.Name())
  }

  /** The store while a run of `id`'s task has recorded `done`: the task is
      processing with those checkpoints added; nothing else changed. */
  ghost predicate AtStep(tasks: map<string, Task>, tasks0: map<string, Task>, id: string, done: seq<(string, Json)>, now: int) {
    if id in tasks0 then tasks == tasks0[id := Recorded(tasks0[id], done, now)] else tasks == tasks0
  }

  /** Records one checkpoint of a run on the store. */
  method RecordStep(store: TaskStore, id: string, entry: (string, Json), now: int,
                    ghost tasks0: map<string, Task>, ghost done: seq<(string, Json)>)
    requires store.Valid() && AtStep(store.tasks, tasks0, id, done, now)
    modifies store
    ensures store.Valid() && store.order == old(store.order)
    ensures AtStep(store.tasks, tasks0, id, done + [entry], now)
  {
    var _ := store.AddTaskCheckpoint(id, entry.0, entry.1, now);
    if id in tasks0 {
      RecordedSnoc(tasks0[id], done, entry, now);
      assert store.tasks == tasks0[id := Recorded(tasks0[id], done, now)][id := Recorded(tasks0[id], done + [entry], now)];
    }
  }

  /** Ends a run on the store with the run's final status. */
  method FinishRun(store: TaskStore, id: string, outcome: Result<State, string>, now: int,
                   ghost tasks0: map<string, Task>, ghost run: Run)
    requires run.outcome == outcome
    requires outcome.Ok? ==> "logo" in outcome.value && "colors" in outcome.value
    requires store.Valid() && AtStep(store.tasks, tasks0, id, run.steps, now)
    modifies store
    ensures store.Valid() && store.order == old(store.order)
    ensures id !in tasks0 ==> store.tasks == tasks0
    ensures id in tasks0 ==> store.tasks == tasks0[id := TaskAfterRun(tasks0[id], run, now)]
  {
    match outcome {
      case Ok(state) =>
        var _ := store.UpdateTaskStatus(id, Completed, Some(FinalResult(state)), None, now);
      case Err(m) =>
        var _ := store.UpdateTaskStatus(id, Failed, None, Some(FailureMessage(m)), now);
    }
    if id in tasks0 {
      assert store.tasks == tasks0[id := Recorded(tasks0[id], run.steps, now)][id := TaskAfterRun(tasks0[id], run, now)];
    }
  }

  /** Runs the brand-design workflow for `task` against the store: the task
      becomes processing, each node is checkpointed before and after it
      runs, and the task ends completed with the result or failed with the
      message of the error, which is passed on. A task missing from the store
      is left missing. */
  method ExecuteBrandDesign(store: TaskStore, task: Task, ai: (string, State) -> NodeOutcome, now: int)
    returns (r: Result<Json, string>)
    requires store.Valid()
    modifies store
    ensures store.Valid() && store.order == old(store.order)
    ensures var run := RunNodes(NODES, InitialState(task), ai);
      && (run.outcome.Ok? ==> "logo" in run.outcome.value && "colors" in run.outcome.value)
      && r == (match run.outcome case Ok(state) => Ok(FinalResult(state)) case Err(m) => Err(m))
      && (task.id !in old(store.tasks) ==> store.tasks == old(store.tasks))
      && (task.id in old(store.tasks) ==>
            store.tasks == old(store.tasks)[task.id := TaskAfterRun(old(store.tasks)[task.id], run, now)])
  {
    var state := InitialState(task);
    ghost var full := RunNodes(NODES, state, ai);
    BrandDesignCheckpoints(task, ai);
    ghost var tasks0 := store.tasks;
    var id := task.id;
    var _ := store.UpdateTaskStatus(id, Processing, None, None, now);
    ghost var done: seq<(string, Json)> := [];
    if id in tasks0 {
      assert Recorded(tasks0[id], done, now) == WithStatus(tasks0[id], Processing, None, None, now);
    }
    var pending := NODES;
    while pending != []
      invariant store.Valid() && store.order == old(store.order)
      invariant Progress(full, done, pending, state, ai)
      invariant AtStep(store.tasks, tasks0, id, done, now)
    {
      var failed;
      failed, state, done := RunNode(store, id, pending, state, ai, now, tasks0, done, full);
      if failed.Some? {
        FinishRun(store, id, Err(failed.value), now, tasks0, full);
        return Err(failed.value);
      }
      pending := pending[1..];
    }
    assert full == Run(done, Ok(state));
    FinishRun(store, id, Ok(state), now, tasks0, full);
    return Ok(FinalResult(state));
  }

  /** `done` followed by the run of `nodes` from `state` is the whole run. */
  ghost predicate Progress(full: Run, done: seq<(string, Json)>, nodes: seq<Node>, state: State,
                           ai: (string, State) -> NodeOutcome) {
    var rest := RunNodes(nodes, state, ai);
    full.steps == done + rest.steps && full.outcome == rest.outcome
  }

  /** Runs the first of `nodes` with checkpoints before and after it; reports
      the error of a failing node, and otherwise the state it leads to. */
  method RunNode(store: TaskStore, id: string, nodes: seq<Node>, state: State,
                 ai: (string, State) -> NodeOutcome, now: int,
                 ghost tasks0: map<string, Task>, ghost done: seq<(string, Json)>, ghost full: Run)
    returns (failed: Option<string>, next: State, ghost done': seq<(string, Json)>)
    requires nodes != []
    requires store.Valid() && AtStep(store.tasks, tasks0, id, done, now)
    requires Progress(full, done, nodes, state, ai)
    modifies store
    ensures store.Valid() && store.order == old(store.order)
    ensures AtStep(store.tasks, tasks0, id, done', now)
    ensures failed.Some? ==> full == Run(done', Err(failed.value))
    ensures failed.None? ==> Progress(full, done', nodes[1..], next, ai)
  {
    var node := nodes[0];
    var entry := StateEntry(node.name, state);
    RecordStep(store, id, entry, now, tasks0, done);
    var outcome := ai(node.name, state);
    if outcome.Raised? {
      assert RunNodes(nodes, state, ai) == Run([entry], Err(outcome.message));
      return Some(outcome.message), state, done + [entry];
    }
    next := state[node.key := outcome.value];
    var after := StateEntry(node.name + "_completed", next);
    ghost var rest := RunNodes(nodes[1..], next, ai);
    assert RunNodes(nodes, state, ai) == Run([entry, after] + rest.steps, rest.outcome);
    assert done + ([entry, after] + rest.steps) == done + [entry] + [after] + rest.steps;
    RecordStep(store, id, after, now, tasks0, done + [entry]);
    failed, done' := None, done + [entry] + [after];
  }

  /** The task once it is processing and the given checkpoints are added. */
  function Recorded(t: Task, steps: seq<(string, Json)>, now: int): Task {
    AddCheckpoints(WithStatus(t, Processing, None, None, now), steps, now)
  }

  /** Recording one more checkpoint is adding it to the recorded task. */
  lemma RecordedSnoc(t: Task, steps: seq<(string, Json)>, entry: (string, Json), now: int)
    ensures Recorded(t, steps + [entry], now) == WithCheckpoint(Recorded(t, steps, now), entry.0, entry.1, now)
  {
    AddCheckpointsAppend(WithStatus(t, Processing, None, None, now), steps, [entry], now);
    assert [entry][1..] == [];
  }

  lemma {:induction false} AddCheckpointsAppend(t: Task, a: seq<(string, Json)>, b: seq<(string, Json)>, now: int)
    decreases |a|
    ensures AddCheckpoints(t, a + b, now) == AddCheckpoints(AddCheckpoints(t, a, now), b, now)
  {
    if a == [] {
      assert a + b == b;
    } else {
      assert (a + b)[1..] == a[1..] + b;
      AddCheckpointsAppend(WithCheckpoint(t, a[0].0, a[0].1, now), a[1..], b, now);
    }
  }

  /** Runs the debug workflow: the task becomes processing and then completed
      with the debug result, which is returned. The delay before completing
      is not modelled; `isoTime` is the completion time as text. */
  method ExecuteDebug(store: TaskStore, task: Task, isoTime: string, now: int) returns (result: Json)
    requires store.Valid()
    modifies store
    ensures store.Valid() && store.order == old(store.order)
    ensures result == DebugResult(task.params, isoTime)
    ensures task.id !in old(store.tasks) ==> store.tasks == old(store.tasks)
    ensures task.id in old(store.tasks) ==>
      store.tasks == old(store.tasks)[task.id :=
        WithStatus(WithStatus(old(store.tasks)[task.id], Processing, None, None, now), Completed, Some(result), None, now)]
  {
    var _ := store.UpdateTaskStatus(task.id, Processing, None, None, now);
    result := DebugResult(task.params, isoTime);
    var _ := store.UpdateTaskStatus(task.id, Completed, Some(result), None, now);
  }

  /** Creates the task for a request and picks its workflow. An unsupported
      type marks the new task failed with the factory's message and is
      reported as an error; otherwise the created task is returned (running
      the workflow afterwards is scheduled separately). */
  method ExecuteWorkflow(store: TaskStore, kind: TaskType, params: Json, sessionId: Option<string>, id: string, now: int)
    returns (r: Result<Task, string>)
    requires store.Valid()
    modifies store
    ensures store.Valid()
    ensures store.order == if id in old(store.tasks) then old(store.order) else old(store.order) + [id]
    ensures var created := Task(id, kind, params, Pending, None, None, sessionId, now, now, []);
      match CreateWorkflow(kind)
      case Ok(_) => r == Ok(created) && store.tasks == old(store.tasks)[id := created]
      case Err(m) =>
        && r == Err(m)
        && store.tasks == old(store.tasks)[id := WithStatus(created, Failed, None, Some(FailureMessage(m)), now)]
  {
    var task := store.CreateTask(kind, params, sessionId, id, now);
    var workflow := CreateWorkflow(kind);
    if workflow.Err? {
      var _ := store.UpdateTaskStatus(task.id, Failed, None, Some(FailureMessage(workflow.error)), now);
      return Err(workflow.error);
    }
    return Ok(task);
  }
}
