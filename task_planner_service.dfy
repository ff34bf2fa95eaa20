/**
 * The requirement planner of the code-generation server: a fixed requirement
 * analysis, a fixed task DAG derived from it, acceptance criteria per task and
 * the readiness rule that picks the tasks that can run next.
 */
module TaskPlannerService {
  import opened Wrappers
  import opened Sequences

  /** Status strings the planner compares against. The controller stores whatever
      string a request supplies, so a status is a string and not an enumeration. */
  const PENDING: string := "pending"
  const IN_PROGRESS: string := "in_progress"
  const COMPLETED: string := "completed"

  datatype Priority = Low | Medium | High

  datatype PlannerTask = PlannerTask(
    id: string,
    title: string,
    description: string,
    status: string,
    priority: Priority,
    dependencies: Option<seq<string>>)

  datatype RequirementAnalysis = RequirementAnalysis(requirements: seq<string>, priority: map<string, int>)

  const LOGIN_REQUIREMENT: string := "用户需要能够登录和注册"
  const TASK_LIST_REQUIREMENT: string := "系统需要展示任务列表"
  const CREATE_TASK_REQUIREMENT: string := "用户可以创建新任务"
  const MARK_DONE_REQUIREMENT: string := "任务可以标记为完成"

  /** The dependency list of a task, an absent list read as empty. */
  function DepList(t: PlannerTask): seq<string> {
    if t.dependencies.Some? then t.dependencies.value else []
  }

  function Ids(tasks: seq<PlannerTask>): (r: seq<string>)
    ensures |r| == |tasks| && forall i :: 0 <= i < |tasks| ==> r[i] == tasks[i].id
  {
    seq(|tasks|, i requires 0 <= i < |tasks| => tasks[i].id)
  }

  /** The requirement analysis ignores its input and always reports the same four
      requirements, ranked 1 to 4 in the order listed. */
  function AnalyzeRequirements(userInput: string): (r: RequirementAnalysis)
    ensures |r.requirements| == 4
    ensures r.requirements[0] == LOGIN_REQUIREMENT && r.requirements[1] == TASK_LIST_REQUIREMENT
    ensures forall k :: k in r.priority <==> k in r.requirements
    ensures forall i :: 0 <= i < 4 ==> r.priority[r.requirements[i]] == i + 1
  {
    RequirementAnalysis(
      [LOGIN_REQUIREMENT, TASK_LIST_REQUIREMENT, CREATE_TASK_REQUIREMENT, MARK_DONE_REQUIREMENT],
      map[LOGIN_REQUIREMENT := 1, TASK_LIST_REQUIREMENT := 2, CREATE_TASK_REQUIREMENT := 3, MARK_DONE_REQUIREMENT := 4])
  }

  /** Every dependency of a task names a task that comes earlier in the list. */
  ghost predicate DependenciesPointBackward(tasks: seq<PlannerTask>) {
    forall i, d :: 0 <= i < |tasks| && d in DepList(tasks[i]) ==>
      exists j :: 0 <= j < i && tasks[j].id == d
  }

  const LOGIN_TASKS: seq<PlannerTask> := [
    PlannerTask("1", "实现JWT认证中间件", "创建JWT认证中间件，处理token验证和用户身份", PENDING, High, None),
    PlannerTask("2", "创建用户模型", "定义用户数据模型和验证规则", PENDING, High, None),
    PlannerTask("3", "实现登录和注册API", "创建用户登录和注册的API端点", PENDING, High, Some(["1", "2"])),
    PlannerTask("4", "创建登录和注册页面", "实现前端登录和注册表单及验证", PENDING, High, Some(["3"]))]

  const TASK_LIST_TASKS: seq<PlannerTask> := [
    PlannerTask("5", "创建任务数据模型", "定义任务数据结构和关系", PENDING, Medium, None),
    PlannerTask("6", "实现任务列表API", "创建获取任务列表的API端点", PENDING, Medium, Some(["5"])),
    PlannerTask("7", "创建任务列表组件", "实现前端任务列表展示组件", PENDING, Medium, Some(["6"]))]

  /** The dependency list every generated task carries, by id. */
  function PlannedDependencies(id: string): seq<string> {
    match id
    case "3" => ["1", "2"]
    case "4" => ["3"]
    case "6" => ["5"]
    case "7" => ["6"]
    case _ => []
  }

  /** What the planner promises of a generated task list: pending tasks, high
      priority exactly for the login block, the fixed dependency table, and every
      dependency naming an earlier task. */
  ghost predicate PlanShape(tasks: seq<PlannerTask>) {
    && (forall i :: 0 <= i < |tasks| ==> tasks[i].status == PENDING)
    && (forall i :: 0 <= i < |tasks| ==> (tasks[i].priority == High <==> tasks[i].id in {"1", "2", "3", "4"}))
    && (forall i :: 0 <= i < |tasks| ==> DepList(tasks[i]) == PlannedDependencies(tasks[i].id))
    && DependenciesPointBackward(tasks)
  }

  /** Each task of a block has the promised status, priority and dependencies. */
  lemma BlockEntries(tasks: seq<PlannerTask>, i: nat)
    requires tasks == LOGIN_TASKS || tasks == TASK_LIST_TASKS
    requires i < |tasks|
    ensures tasks[i].status == PENDING
    ensures tasks[i].priority == High <==> tasks[i].id in {"1", "2", "3", "4"}
    ensures DepList(tasks[i]) == PlannedDependencies(tasks[i].id)
  {
    if tasks == LOGIN_TASKS {
      assert i == 0 || i == 1 || i == 2 || i == 3;
    } else {
      assert i == 0 || i == 1 || i == 2;
    }
  }

  lemma PlanBlocksShape(login: bool, taskList: bool)
    ensures PlanShape((if login then LOGIN_TASKS else []) + (if taskList then TASK_LIST_TASKS else []))
  {
    var first := if login then LOGIN_TASKS else [];
    var second := if taskList then TASK_LIST_TASKS else [];
    var tasks := first + second;
    var n := |first|;
    forall i | 0 <= i < |tasks|
      ensures tasks[i].status == PENDING
      ensures tasks[i].priority == High <==> tasks[i].id in {"1", "2", "3", "4"}
      ensures DepList(tasks[i]) == PlannedDependencies(tasks[i].id)
    {
      if i < n { BlockEntries(first, i); } else { BlockEntries(second, i - n); }
    }
    forall i, d | 0 <= i < |tasks| && d in DepList(tasks[i])
      ensures exists j :: 0 <= j < i && tasks[j].id == d
    {
      if i < n {
        assert first == LOGIN_TASKS;
        assert i == 2 || i == 3;
        if i == 2 { assert d == "1" || d == "2"; if d == "1" { assert tasks[0].id == d; } else { assert tasks[1].id == d; } }
        else { assert tasks[2].id == d; }
      } else {
        assert second == TASK_LIST_TASKS;
        assert i == n + 1 || i == n + 2;
        assert tasks[i - 1].id == d;
      }
    }
  }

  /** Builds the task list: tasks 1 to 4 when the login requirement is ranked,
      tasks 5 to 7 when the task-list requirement is ranked. */
  method GenerateTasks(requirements: RequirementAnalysis) returns (tasks: seq<PlannerTask>)
    ensures Ids(tasks) ==
      (if LOGIN_REQUIREMENT in requirements.priority then ["1", "2", "3", "4"] else []) +
      (if TASK_LIST_REQUIREMENT in requirements.priority then ["5", "6", "7"] else [])
    ensures PlanShape(tasks)
  {
    tasks := [];
    if LOGIN_REQUIREMENT in requirements.priority {
      tasks := tasks + [LOGIN_TASKS[0]];
      tasks := tasks + [LOGIN_TASKS[1]];
      tasks := tasks + [LOGIN_TASKS[2]];
      tasks := tasks + [LOGIN_TASKS[3]];
      assert tasks == LOGIN_TASKS;
    }
    if TASK_LIST_REQUIREMENT in requirements.priority {
      ghost var before := tasks;
      tasks := tasks + [TASK_LIST_TASKS[0]];
      tasks := tasks + [TASK_LIST_TASKS[1]];
      tasks := tasks + [TASK_LIST_TASKS[2]];
      assert tasks == before + TASK_LIST_TASKS;
    }
    PlanBlocksShape(LOGIN_REQUIREMENT in requirements.priority, TASK_LIST_REQUIREMENT in requirements.priority);
  }

  const JWT_CRITERIA: seq<string> := ["中间件能正确验证有效的JWT token", "无效token返回401错误", "特定路由可以配置为不需要认证"]
  const LOGIN_API_CRITERIA: seq<string> := ["API返回有效的JWT token", "错误的凭证返回适当的错误消息", "API遵循RESTful设计原则"]
  const DEFAULT_CRITERIA: seq<string> := ["功能按预期工作", "代码遵循项目编码规范", "包含必要的测试"]

  /** Acceptance criteria: a list specific to task 1 and to task 3, a default list
      for every other id; always three entries, and only the id is consulted. */
  function GenerateAcceptanceCriteria(task: PlannerTask): (r: seq<string>)
    ensures |r| == 3
    ensures r == JWT_CRITERIA <==> task.id == "1"
    ensures r == LOGIN_API_CRITERIA <==> task.id == "3"
    ensures r == DEFAULT_CRITERIA <==> task.id != "1" && task.id != "3"
  {
    match task.id
    case "1" => JWT_CRITERIA
    case "3" => LOGIN_API_CRITERIA
    case _ => DEFAULT_CRITERIA
  }

  /** Maps each task id to its dependency list; a later task with the same id
      overwrites an earlier one, as record assignment does. */
  method BuildTaskDependencyGraph(tasks: seq<PlannerTask>) returns (graph: map<string, seq<string>>)
    ensures graph.Keys == set t | t in tasks :: t.id
    ensures forall i :: 0 <= i < |tasks| && (forall j :: i < j < |tasks| ==> tasks[j].id != tasks[i].id) ==>
      graph[tasks[i].id] == DepList(tasks[i])
  {
    graph := map[];
    var k := 0;
    while k < |tasks|
      invariant 0 <= k <= |tasks|
      invariant graph.Keys == set t | t in tasks[..k] :: t.id
      invariant forall i :: 0 <= i < k && (forall j :: i < j < k ==> tasks[j].id != tasks[i].id) ==>
        graph[tasks[i].id] == DepList(tasks[i])
    {
      graph := graph[tasks[k].id := DepList(tasks[k])];
      assert tasks[..k + 1] == tasks[..k] + [tasks[k]];
      k := k + 1;
    }
    assert tasks[..k] == tasks;
  }

  /** A task may run next when it is neither completed nor in progress and all of
      its dependencies are among the completed ids. */
  predicate Ready(t: PlannerTask, completedTaskIds: seq<string>) {
    t.status != COMPLETED && t.status != IN_PROGRESS &&
    forall d :: d in DepList(t) ==> d in completedTaskIds
  }

  predicate KeepForNext(t: PlannerTask, completedTaskIds: seq<string>) {
    if t.status == COMPLETED || t.status == IN_PROGRESS then false
    else if t.dependencies.None? || |t.dependencies.value| == 0 then true
    else forall i :: 0 <= i < |t.dependencies.value| ==> t.dependencies.value[i] in completedTaskIds
  }

  /** The tasks that can run next, in their original order. */
  function GetNextTasks(tasks: seq<PlannerTask>, completedTaskIds: seq<string>): (r: seq<PlannerTask>)
    ensures IsSubsequence(r, tasks)
    ensures forall t :: t in r ==> t in tasks
    ensures forall t :: t in r ==> t.status != COMPLETED && t.status != IN_PROGRESS
    ensures forall t :: t in tasks ==> (t in r <==> Ready(t, completedTaskIds))
  {
    if tasks == [] then []
    else
      var rest := GetNextTasks(tasks[1..], completedTaskIds);
      var keep := KeepForNext(tasks[0], completedTaskIds);
      assert keep <==> Ready(tasks[0], completedTaskIds) by {
        var deps := DepList(tasks[0]);
        assert forall d :: d in deps ==> exists i :: 0 <= i < |deps| && deps[i] == d;
      }
      if keep then [tasks[0]] + rest else rest
  }
}
