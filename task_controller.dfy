/**
 * The task controller of the code-generation server: it keeps the generated
 * task list and the ids of the tasks reported completed, and answers three
 * requests. A request's outcome is a status code plus a body.
 */
module TaskController {
  import opened Wrappers
  import opened Sequences
  import opened TaskPlannerService

  /** A generated task together with its acceptance criteria, as returned to the
      client; the stored task does not carry them. */
  datatype TaskWithCriteria = TaskWithCriteria(task: PlannerTask, acceptanceCriteria: seq<string>)

  datatype Body =
    | Failure(message: string)
    | Generated(requirements: seq<string>, tasks: seq<TaskWithCriteria>)
    | NextTasks(next: seq<PlannerTask>)
    | Updated(updated: PlannerTask)

  datatype Response = Response(status: int, body: Body)

  const OK: int := 200
  const BAD_REQUEST: int := 400
  const NOT_FOUND: int := 404

  const MISSING_INPUT: string := "需要提供用户需求输入"
  const MISSING_ID_OR_STATUS: string := "需要提供任务ID和状态"
  const TASK_NOT_FOUND: string := "任务未找到"

  /** A request field is missing when it is absent or the empty string. */
  predicate Missing(field: Option<string>) {
    field.None? || field.value == ""
  }

  /** The index of the first task with the given id, or -1. */
  function FindIndex(tasks: seq<PlannerTask>, id: string): (r: int)
    ensures -1 <= r < |tasks|
    ensures r == -1 <==> forall t :: t in tasks ==> t.id != id
    ensures r >= 0 ==> tasks[r].id == id && forall j :: 0 <= j < r ==> tasks[j].id != id
  {
    if tasks == [] then -1
    else if tasks[0].id == id then 0
    else
      var rest := FindIndex(tasks[1..], id);
      assert forall t :: t in tasks <==> t == tasks[0] || t in tasks[1..];
      if rest == -1 then -1 else rest + 1
  }

  /** Each task paired with its acceptance criteria, in order. */
  function WithCriteria(tasks: seq<PlannerTask>): (r: seq<TaskWithCriteria>)
    ensures |r| == |tasks|
    ensures forall i :: 0 <= i < |tasks| ==> r[i].task == tasks[i] && |r[i].acceptanceCriteria| == 3
  {
    seq(|tasks|, i requires 0 <= i < |tasks| => TaskWithCriteria(tasks[i], GenerateAcceptanceCriteria(tasks[i])))
  }

  class Controller {
    var tasks: seq<PlannerTask>
    var completedTaskIds: seq<string>

    /** The completed ids never repeat. */
    ghost predicate Valid()
      reads this
    {
      Distinct(completedTaskIds)
    }

    constructor ()
      ensures Valid() && tasks == [] && completedTaskIds == []
    {
      tasks, completedTaskIds := [], [];
    }

    /** Without input: 400 and nothing changes. Otherwise the requirements are
        analysed, the task list is replaced by the seven planned tasks, and the
        answer carries the requirements and every task with its criteria. The
        completed ids are kept. */
    method AnalyzeAndGenerateTasks(userInput: Option<string>) returns (resp: Response)
      requires Valid()
      modifies this
      ensures Valid() && completedTaskIds == old(completedTaskIds)
      ensures Missing(userInput) ==> resp == Response(BAD_REQUEST, Failure(MISSING_INPUT)) && tasks == old(tasks)
      ensures !Missing(userInput) ==> Ids(tasks) == ["1", "2", "3", "4", "5", "6", "7"] && PlanShape(tasks)
      ensures !Missing(userInput) ==> resp == Response(OK, Generated(AnalyzeRequirements(userInput.value).requirements, WithCriteria(tasks)))
    {
      if Missing(userInput) {
        return Response(BAD_REQUEST, Failure(MISSING_INPUT));
      }
      var analysis := AnalyzeRequirements(userInput.value);
      assert LOGIN_REQUIREMENT in analysis.priority && TASK_LIST_REQUIREMENT in analysis.priority;
      tasks := GenerateTasks(analysis);
      var withCriteria := WithCriteria(tasks);
      resp := Response(OK, Generated(analysis.requirements, withCriteria));
    }

    /** The stored tasks that may run next, in order: every task that is not
        completed or in progress and whose dependencies are all completed. */
    method GetNextTasksToExecute() returns (resp: Response)
      ensures resp.status == OK && resp.body.NextTasks?
      ensures IsSubsequence(resp.body.next, tasks)
      ensures forall t :: t in tasks ==> (t in resp.body.next <==> Ready(t, completedTaskIds))
    {
      resp := Response(OK, NextTasks(GetNextTasks(tasks, completedTaskIds)));
    }

    /** Without an id or a status: 400. With an id no task has: 404. Otherwise
        the first task with that id takes the new status, no other task
        changes, and the id joins the completed ids when the status is
        "completed" and it is not there yet. */
    method UpdateTaskStatus(taskId: Option<string>, status: Option<string>) returns (resp: Response)
      requires Valid()
      modifies this
      ensures Valid()
      ensures Missing(taskId) || Missing(status) ==>
        resp == Response(BAD_REQUEST, Failure(MISSING_ID_OR_STATUS)) && tasks == old(tasks) && completedTaskIds == old(completedTaskIds)
      ensures !Missing(taskId) && !Missing(status) && FindIndex(old(tasks), taskId.value) == -1 ==>
        resp == Response(NOT_FOUND, Failure(TASK_NOT_FOUND)) && tasks == old(tasks) && completedTaskIds == old(completedTaskIds)
      ensures !Missing(taskId) && !Missing(status) && FindIndex(old(tasks), taskId.value) >= 0 ==>
        var i := FindIndex(old(tasks), taskId.value);
        && tasks == old(tasks)[i := old(tasks)[i].(status := status.value)]
        && resp == Response(OK, Updated(tasks[i]))
        && completedTaskIds ==
             if status.value == COMPLETED && taskId.value !in old(completedTaskIds)
             then old(completedTaskIds) + [taskId.value] else old(completedTaskIds)
    {
      if Missing(taskId) || Missing(status) {
        return Response(BAD_REQUEST, Failure(MISSING_ID_OR_STATUS));
      }
      var id, s := taskId.value, status.value;
      var taskIndex := FindIndex(tasks, id);
      if taskIndex == -1 {
        return Response(NOT_FOUND, Failure(TASK_NOT_FOUND));
      }
      tasks := tasks[taskIndex := tasks[taskIndex].(status := s)];
      if s == COMPLETED && id !in completedTaskIds {
        completedTaskIds := completedTaskIds + [id];
      }
      resp := Response(OK, Updated(tasks[taskIndex]));
    }
  }
}
