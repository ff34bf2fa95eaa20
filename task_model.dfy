/**
 * The orchestration server's in-memory task store: tasks keyed by id, with a
 * status, an optional result or error, and an append-only list of checkpoints
 * recording the steps a workflow went through. Ids and the clock are
 * supplied by the caller.
 */
module TaskModel {
  import opened Wrappers
  import opened Sequences

  /** JSON-like values for task parameters, results and checkpoint data. */
  datatype Json =
    | Null
    | Bool(b: bool)
    | Num(n: int)
    | Str(s: string)
    | Arr(items: seq<Json>)
    | Obj(fields: map<string, Json>)

  datatype TaskStatus = Pending | Processing | Completed | Failed | Cancelled

  datatype TaskType = GenerateLogo | GenerateColor | GenerateImage | GenerateAudio | GenerateCode | DebugFlow
  {
    /** The type's wire name. */
    function Name(): string {
      match this
      case GenerateLogo => "generate_logo"
      case GenerateColor => "generate_color"
      case GenerateImage => "generate_image"
      case GenerateAudio => "generate_audio"
      case GenerateCode => "generate_code"
      case DebugFlow => "debug_flow"
    }
  }

  datatype Checkpoint = Checkpoint(step: string, timestamp: int, data: Json)

  datatype Task = Task(
    id: string,
    kind: TaskType,
    params: Json,
    status: TaskStatus,
    result: Option<Json>,
    error: Option<string>,
    sessionId: Option<string>,
    createdAt: int,
    updatedAt: int,
    checkpoints: seq<Checkpoint>)

  /** Age limit used when the caller gives none: one day in milliseconds. */
  const DEFAULT_MAX_AGE: int := 24 * 60 * 60 * 1000

  /** The age limit of a cleanup: the one given, or the default. */
  function AgeLimit(maxAge: Option<int>): int {
    if maxAge.Some? then maxAge.value else DEFAULT_MAX_AGE
  }

  // ---------------------------------------------------------------------------
  // Updates of one task

  /** A status change: the status is overwritten whatever it was, the clock
      is refreshed, and result and error are replaced only when given. */
  function WithStatus(t: Task, status: TaskStatus, result: Option<Json>, error: Option<string>, now: int): (r: Task)
    ensures r.status == status && r.updatedAt == now
    ensures r.result == (if result.Some? then result else t.result)
    ensures r.error == (if error.Some? then error else t.error)
    ensures r.id == t.id && r.kind == t.kind && r.params == t.params && r.sessionId == t.sessionId
    ensures r.createdAt == t.createdAt && r.checkpoints == t.checkpoints
  {
    var t1 := t.(status := status, updatedAt := now);
    var t2 := if result.Some? then t1.(result := result) else t1;
    if error.Some? then t2.(error := error) else t2
  }

  /** A checkpoint appended at the end; nothing else but the clock changes. */
  function WithCheckpoint(t: Task, step: string, data: Json, now: int): (r: Task)
    ensures |r.checkpoints| == |t.checkpoints| + 1
    ensures r.checkpoints[..|t.checkpoints|] == t.checkpoints
    ensures r.checkpoints[|t.checkpoints|] == Checkpoint(step, now, data)
    ensures r == t.(checkpoints := r.checkpoints, updatedAt := now)
  {
    t.(checkpoints := t.checkpoints + [Checkpoint(step, now, data)], updatedAt := now)
  }

  /** Whether a task is older than the limit, measured from its last update. */
  predicate Expired(t: Task, now: int, maxAge: int) {
    now - t.updatedAt > maxAge
  }

  // ---------------------------------------------------------------------------
  // Sequences of ids

  lemma DistinctCons(x: string, rest: seq<string>)
    ensures Distinct([x] + rest) <==> x !in rest && Distinct(rest)
  {
    var s := [x] + rest;
    assert s[1..] == rest;
    if x !in rest && Distinct(rest) {
      forall i, j | 0 <= i < j < |s| ensures s[i] != s[j] {
        if i > 0 {
          assert s[i] == rest[i - 1] && s[j] == rest[j - 1];
        } else {
          assert s[j] == rest[j - 1];
        }
      }
    }
    if Distinct(s) {
      forall i, j | 0 <= i < j < |rest| ensures rest[i] != rest[j] {
        assert rest[i] == s[i + 1] && rest[j] == s[j + 1];
      }
      forall k | 0 <= k < |rest| ensures rest[k] != x {
        assert rest[k] == s[k + 1] && s[0] == x;
      }
    }
  }

  lemma {:induction false} WithoutAppend(a: seq<string>, b: seq<string>, x: string)
    ensures Without(a + b, x) == Without(a, x) + Without(b, x)
  {
    if a == [] {
      assert a + b == b;
    } else {
      assert (a + b)[1..] == a[1..] + b;
      WithoutAppend(a[1..], b, x);
    }
  }

  /** The ids whose tasks are not expired, in order. */
  function Survivors(ids: seq<string>, tasks: map<string, Task>, now: int, maxAge: int): (r: seq<string>)
    requires forall id :: id in ids ==> id in tasks
    ensures forall id :: id in r <==> id in ids && !Expired(tasks[id], now, maxAge)
    ensures Distinct(ids) ==> Distinct(r)
  {
    if ids == [] then []
    else
      var rest := Survivors(ids[1..], tasks, now, maxAge);
      DistinctCons(ids[0], ids[1..]);
      DistinctCons(ids[0], rest);
      assert ids == [ids[0]] + ids[1..];
      if Expired(tasks[ids[0]], now, maxAge) then rest else [ids[0]] + rest
  }

  /** How many of the ids' tasks are expired. */
  function ExpiredCount(ids: seq<string>, tasks: map<string, Task>, now: int, maxAge: int): (n: nat)
    requires forall id :: id in ids ==> id in tasks
    ensures n + |Survivors(ids, tasks, now, maxAge)| == |ids|
  {
    if ids == [] then 0
    else (if Expired(tasks[ids[0]], now, maxAge) then 1 else 0) + ExpiredCount(ids[1..], tasks, now, maxAge)
  }

  /** Cleanup of a concatenation is the cleanup of each part. */
  lemma SurvivorsAppend(a: seq<string>, b: seq<string>, tasks: map<string, Task>, now: int, maxAge: int)
    requires forall id :: id in a + b ==> id in tasks
    ensures Survivors(a + b, tasks, now, maxAge) == Survivors(a, tasks, now, maxAge) + Survivors(b, tasks, now, maxAge)
    ensures ExpiredCount(a + b, tasks, now, maxAge) == ExpiredCount(a, tasks, now, maxAge) + ExpiredCount(b, tasks, now, maxAge)
  {
    SurvivorsConcat(a, b, tasks, now, maxAge);
    ExpiredCountConcat(a, b, tasks, now, maxAge);
  }

  lemma {:induction false} SurvivorsConcat(a: seq<string>, b: seq<string>, tasks: map<string, Task>, now: int, maxAge: int)
    requires forall id :: id in a + b ==> id in tasks
    ensures Survivors(a + b, tasks, now, maxAge) == Survivors(a, tasks, now, maxAge) + Survivors(b, tasks, now, maxAge)
  {
    if a == [] {
      assert a + b == b;
    } else {
      var ab := a + b;
      assert ab[0] == a[0] && ab[1..] == a[1..] + b;
      assert forall id :: id in a[1..] + b ==> id in ab;
      SurvivorsConcat(a[1..], b, tasks, now, maxAge);
      var head := if Expired(tasks[a[0]], now, maxAge) then [] else [a[0]];
      SurvivorsCons(ab, tasks, now, maxAge);
      SurvivorsCons(a, tasks, now, maxAge);
      var x, y := Survivors(a[1..], tasks, now, maxAge), Survivors(b, tasks, now, maxAge);
      assert Survivors(ab, tasks, now, maxAge) == head + (x + y);
      assert Survivors(a, tasks, now, maxAge) == head + x;
      ConcatAssoc(head, x, y);
    }
  }

  lemma ConcatAssoc<T>(h: seq<T>, x: seq<T>, y: seq<T>)
    ensures h + (x + y) == (h + x) + y
  {
  }

  lemma SurvivorsCons(ids: seq<string>, tasks: map<string, Task>, now: int, maxAge: int)
    requires ids != [] && forall id :: id in ids ==> id in tasks
    ensures Survivors(ids, tasks, now, maxAge)
      == (if Expired(tasks[ids[0]], now, maxAge) then [] else [ids[0]]) + Survivors(ids[1..], tasks, now, maxAge)
  {
  }

  lemma {:induction false} ExpiredCountConcat(a: seq<string>, b: seq<string>, tasks: map<string, Task>, now: int, maxAge: int)
    requires forall id :: id in a + b ==> id in tasks
    ensures ExpiredCount(a + b, tasks, now, maxAge) == ExpiredCount(a, tasks, now, maxAge) + ExpiredCount(b, tasks, now, maxAge)
  {
    if a == [] {
      assert a + b == b;
    } else {
      var ab := a + b;
      assert ab[0] == a[0] && ab[1..] == a[1..] + b;
      assert forall id :: id in a[1..] + b ==> id in ab;
      ExpiredCountConcat(a[1..], b, tasks, now, maxAge);
    }
  }

  /** The tasks stored under `ids`, in that order: `tasks.values()` when
      `ids` is the insertion order. */
  function Stored(ids: seq<string>, tasks: map<string, Task>): (r: seq<Task>)
    requires forall id :: id in ids ==> id in tasks
    ensures |r| == |ids| && forall i :: 0 <= i < |ids| ==> r[i] == tasks[ids[i]]
  {
    seq(|ids|, i requires 0 <= i < |ids| => tasks[ids[i]])
  }

  /** The tasks whose session is `sessionId`, in the order of `ids`; a task
      without a session belongs to none. */
  function SessionTasks(ids: seq<string>, tasks: map<string, Task>, sessionId: string): (r: seq<Task>)
    requires forall id :: id in ids ==> id in tasks
    ensures IsSubsequence(r, Stored(ids, tasks))
    ensures forall t :: t in r <==> t in Stored(ids, tasks) && t.sessionId == Some(sessionId)
    ensures |r| <= |ids|
  {
    if ids == [] then []
    else
      var rest := SessionTasks(ids[1..], tasks, sessionId);
      var t := tasks[ids[0]];
      StoredHead(ids, tasks);
      if t.sessionId == Some(sessionId) then [t] + rest else rest
  }

  /** The stored tasks start with the task of the first id. */
  lemma StoredHead(ids: seq<string>, tasks: map<string, Task>)
    requires ids != [] && forall id :: id in ids ==> id in tasks
    ensures Stored(ids, tasks) == [tasks[ids[0]]] + Stored(ids[1..], tasks)
  {
    assert forall id :: id in ids[1..] ==> id in ids;
  }

  /** Distinct ids of tasks that carry their own id give distinct tasks. */
  lemma StoredDistinct(ids: seq<string>, tasks: map<string, Task>)
    requires Distinct(ids) && forall id :: id in ids ==> id in tasks && tasks[id].id == id
    ensures Distinct(Stored(ids, tasks))
  {
    var r := Stored(ids, tasks);
    forall i, j | 0 <= i < j < |r| ensures r[i] != r[j] {
      assert r[i].id == ids[i] && r[j].id == ids[j];
    }
  }

  /** The session filter is the only in-order selection of the stored tasks
      that keeps exactly the tasks of the session. */
  lemma {:induction false} SessionTasksUnique(ids: seq<string>, tasks: map<string, Task>, sessionId: string, r: seq<Task>)
    requires Distinct(ids) && forall id :: id in ids ==> id in tasks && tasks[id].id == id
    requires IsSubsequence(r, Stored(ids, tasks))
    requires forall t :: t in r <==> t in Stored(ids, tasks) && t.sessionId == Some(sessionId)
    ensures r == SessionTasks(ids, tasks, sessionId)
  {
    StoredDistinct(ids, tasks);
    SubsequenceUnique(r, SessionTasks(ids, tasks, sessionId), Stored(ids, tasks));
  }

  // ---------------------------------------------------------------------------
  // The store

  class TaskStore {
    /** The tasks by id. */
    var tasks: map<string, Task>
    /** The ids in insertion order, the order in which the map is iterated. */
    var order: seq<string>

    ghost predicate Valid()
      reads this
    {
      && Distinct(order)
      && (forall id :: id in order <==> id in tasks)
      && (forall id :: id in tasks ==> tasks[id].id == id)
    }

    constructor ()
      ensures Valid() && tasks == map[] && order == []
    {
      tasks, order := map[], [];
    }

    /** Stores a new pending task under `id`, with no checkpoints and both
        timestamps `now`. Setting an id already present keeps its place in the
        iteration order. */
    method CreateTask(kind: TaskType, params: Json, sessionId: Option<string>, id: string, now: int)
      returns (task: Task)
      requires Valid()
      modifies this
      ensures Valid()
      ensures task == Task(id, kind, params, Pending, None, None, sessionId, now, now, [])
      ensures tasks == old(tasks)[id := task]
      ensures order == if id in old(tasks) then old(order) else old(order) + [id]
    {
      task := Task(id, kind, params, Pending, None, None, sessionId, now, now, []);
      if id !in tasks {
        order := order + [id];
      }
      tasks := tasks[id := task];
    }

    function GetTask(id: string): (r: Option<Task>)
      reads this
      ensures r.Some? <==> id in tasks
      ensures r.Some? ==> r.value == tasks[id]
    {
      if id in tasks then Some(tasks[id]) else None
    }

    /** An unknown id changes nothing and gives None. */
    method UpdateTaskStatus(id: string, status: TaskStatus, result: Option<Json>, error: Option<string>, now: int)
      returns (r: Option<Task>)
      requires Valid()
      modifies this
      ensures Valid() && order == old(order)
      ensures id !in old(tasks) ==> r == None && tasks == old(tasks)
      ensures id in old(tasks) ==>
        && r == Some(WithStatus(old(tasks)[id], status, result, error, now))
        && tasks == old(tasks)[id := r.value]
    {
      if id !in tasks {
        return None;
      }
      var task := WithStatus(tasks[id], status, result, error, now);
      tasks := tasks[id := task];
      return Some(task);
    }

    /** An unknown id changes nothing and gives None. */
    method AddTaskCheckpoint(id: string, step: string, data: Json, now: int) returns (r: Option<Task>)
      requires Valid()
      modifies this
      ensures Valid() && order == old(order)
      ensures id !in old(tasks) ==> r == None && tasks == old(tasks)
      ensures id in old(tasks) ==>
        && r == Some(WithCheckpoint(old(tasks)[id], step, data, now))
        && tasks == old(tasks)[id := r.value]
    {
      if id !in tasks {
        return None;
      }
      var task := WithCheckpoint(tasks[id], step, data, now);
      tasks := tasks[id := task];
      return Some(task);
    }

    /** The tasks of a session, each once, in insertion order. */
    function GetSessionTasks(sessionId: string): (r: seq<Task>)
      reads this
      requires Valid()
      ensures forall t :: t in r <==> t in tasks.Values && t.sessionId == Some(sessionId)
      ensures IsSubsequence(r, Stored(order, tasks)) && Distinct(r)
    {
      var r := SessionTasks(order, tasks, sessionId);
      var all := Stored(order, tasks);
      forall t ensures t in tasks.Values <==> t in all {
        if t in tasks.Values {
          var id :| id in tasks && tasks[id] == t;
          var i :| 0 <= i < |order| && order[i] == id;
          assert all[i] == t;
        }
      }
      StoredDistinct(order, tasks);
      SubsequenceOf(r, all);
      r
    }

    /** Removes a task; the answer says whether it was there. */
    method DeleteTask(id: string) returns (existed: bool)
      requires Valid()
      modifies this
      ensures Valid()
      ensures existed == (id in old(tasks))
      ensures tasks == old(tasks) - {id}
      ensures order == Without(old(order), id)
    {
      existed := id in tasks;
      tasks := tasks - {id};
      order := Without(order, id);
    }

    /** The state the cleanup walk keeps after looking at `ids[..i]`. */
    ghost predicate CleanedUpTo(ids: seq<string>, i: nat, before: map<string, Task>, now: int, maxAge: int)
      reads this
    {
      && i <= |ids| && Valid()
      && Distinct(ids) && (forall id :: id in ids <==> id in before)
      && (forall id :: id in tasks ==> id in before && tasks[id] == before[id])
      && order == Survivors(ids[..i], before, now, maxAge) + ids[i..]
    }

    /** One step of the cleanup walk: removes the task `ids[i]` if it is
        expired. */
    method CleanupAt(ids: seq<string>, i: nat, ghost before: map<string, Task>, maxAge: int, now: int)
      returns (removed: bool)
      requires i < |ids| && CleanedUpTo(ids, i, before, now, maxAge)
      modifies this
      ensures CleanedUpTo(ids, i + 1, before, now, maxAge)
      ensures removed == Expired(before[ids[i]], now, maxAge)
      ensures ExpiredCount(ids[..i + 1], before, now, maxAge)
        == ExpiredCount(ids[..i], before, now, maxAge) + if removed then 1 else 0
    {
      var id := ids[i];
      CleanupStep(ids, i, before, now, maxAge);
      assert ids[i..][0] == id;
      removed := now - tasks[id].updatedAt > maxAge;
      if removed {
        var _ := DeleteTask(id);
      }
    }

    /** Removes every task not updated within the age limit of `now` (one
        day when no limit is given) and returns how many were removed; the
        others keep their place. */
    method CleanupTasks(ageLimit: Option<int>, now: int) returns (count: nat)
      requires Valid()
      modifies this
      ensures Valid()
      ensures var maxAge := AgeLimit(ageLimit);
        tasks == map id | id in old(tasks) && !Expired(old(tasks)[id], now, maxAge) :: old(tasks)[id]
      ensures order == Survivors(old(order), old(tasks), now, AgeLimit(ageLimit))
      ensures count == ExpiredCount(old(order), old(tasks), now, AgeLimit(ageLimit))
      ensures count + |order| == |old(order)|
    {
      var maxAge := AgeLimit(ageLimit);
      ghost var before := tasks;
      var ids := order;
      count := 0;
      var i := 0;
      assert ids[..0] == [] && ids[0..] == ids;
      while i < |ids|
        invariant CleanedUpTo(ids, i, before, now, maxAge)
        invariant count == ExpiredCount(ids[..i], before, now, maxAge)
      {
        var removed := CleanupAt(ids, i, before, maxAge, now);
        if removed {
          count := count + 1;
        }
        i := i + 1;
      }
      assert ids[..i] == ids;
      assert ids[i..] == [];
      KeptTasks(tasks, before, ids, order, now, maxAge);
    }
  }

  /** In a sequence without repetitions an element occurs neither before nor
      after its position. */
  lemma DistinctAt(ids: seq<string>, i: nat)
    requires Distinct(ids) && i < |ids|
    ensures ids[i] !in ids[..i] && ids[i] !in ids[i + 1..]
  {
    forall k | 0 <= k < i ensures ids[..i][k] != ids[i] {
      assert ids[..i][k] == ids[k];
    }
    var after := ids[i + 1..];
    forall k | 0 <= k < |after| ensures after[k] != ids[i] {
      assert after[k] == ids[i + 1 + k];
    }
  }

  /** One step of the cleanup walk: the expired id at position i leaves the
      order, a live one stays. */
  lemma CleanupStep(ids: seq<string>, i: nat, tasks: map<string, Task>, now: int, maxAge: int)
    requires Distinct(ids) && (forall id :: id in ids ==> id in tasks) && i < |ids|
    ensures Survivors(ids[..i + 1], tasks, now, maxAge) + ids[i + 1..]
      == if Expired(tasks[ids[i]], now, maxAge) then Without(Survivors(ids[..i], tasks, now, maxAge) + ids[i..], ids[i])
         else Survivors(ids[..i], tasks, now, maxAge) + ids[i..]
    ensures ExpiredCount(ids[..i + 1], tasks, now, maxAge)
      == ExpiredCount(ids[..i], tasks, now, maxAge) + if Expired(tasks[ids[i]], now, maxAge) then 1 else 0
  {
    var id, before, after := ids[i], ids[..i], ids[i + 1..];
    assert ids[..i + 1] == before + [id];
    assert ids[i..] == [id] + after;
    DistinctAt(ids, i);
    StepSplit(before, id, after, tasks, now, maxAge);
    OrderStep(before, id, after, tasks, now, maxAge);
  }

  /** The same step on the parts before, at and after position i. */
  lemma OrderStep(before: seq<string>, id: string, after: seq<string>, tasks: map<string, Task>, now: int, maxAge: int)
    requires id in tasks && (forall x :: x in before ==> x in tasks) && id !in before && id !in after
    requires Survivors(before + [id], tasks, now, maxAge)
      == Survivors(before, tasks, now, maxAge) + if Expired(tasks[id], now, maxAge) then [] else [id]
    ensures Survivors(before + [id], tasks, now, maxAge) + after
      == if Expired(tasks[id], now, maxAge) then Without(Survivors(before, tasks, now, maxAge) + ([id] + after), id)
         else Survivors(before, tasks, now, maxAge) + ([id] + after)
  {
    var kept := Survivors(before, tasks, now, maxAge);
    if Expired(tasks[id], now, maxAge) {
      DropExpired(kept, before, id, after);
      assert kept + [] == kept;
    } else {
      KeepLive(kept, id, after);
    }
  }

  lemma DropExpired(kept: seq<string>, before: seq<string>, id: string, after: seq<string>)
    requires id !in before && id !in after && forall x :: x in kept ==> x in before
    ensures kept + after == Without(kept + ([id] + after), id)
  {
    assert id !in kept;
    RemoveExpired(kept, id, after);
  }

  lemma KeepLive(kept: seq<string>, id: string, after: seq<string>)
    ensures kept + [id] + after == kept + ([id] + after)
  {
  }

  lemma StepSplit(before: seq<string>, id: string, after: seq<string>, tasks: map<string, Task>, now: int, maxAge: int)
    requires id in tasks && forall x :: x in before ==> x in tasks
    ensures Survivors(before + [id], tasks, now, maxAge)
      == Survivors(before, tasks, now, maxAge) + if Expired(tasks[id], now, maxAge) then [] else [id]
    ensures ExpiredCount(before + [id], tasks, now, maxAge)
      == ExpiredCount(before, tasks, now, maxAge) + if Expired(tasks[id], now, maxAge) then 1 else 0
  {
    assert [id][1..] == [];
    SurvivorsAppend(before, [id], tasks, now, maxAge);
  }

  /** The map left by the cleanup walk is the old map restricted to the
      survivors. */
  lemma KeptTasks(tasks: map<string, Task>, before: map<string, Task>, ids: seq<string>, order: seq<string>, now: int, maxAge: int)
    requires forall id :: id in ids <==> id in before
    requires order == Survivors(ids, before, now, maxAge)
    requires forall id :: id in order <==> id in tasks
    requires forall id :: id in tasks ==> id in before && tasks[id] == before[id]
    ensures tasks == map id | id in before && !Expired(before[id], now, maxAge) :: before[id]
  {
  }

  /** Removing an id that occurs once, between two parts that lack it. */
  lemma RemoveExpired(prefix: seq<string>, id: string, after: seq<string>)
    requires id !in prefix && id !in after
    ensures Without(prefix + ([id] + after), id) == prefix + after
  {
    assert [id][1..] == [];
    WithoutAppend([id], after, id);
    WithoutAppend(prefix, [id] + after, id);
  }

  // ---------------------------------------------------------------------------
  // Properties of single-task updates

  /** A checkpoint never touches status, result or error; earlier checkpoints
      stay as they were. */
  lemma CheckpointKeepsOutcome(t: Task, step: string, data: Json, now: int)
    ensures var r := WithCheckpoint(t, step, data, now);
      r.status == t.status && r.result == t.result && r.error == t.error
      && forall k :: 0 <= k < |t.checkpoints| ==> r.checkpoints[k] == t.checkpoints[k]
  {
  }

  /** There is no transition guard: a finished task can be set back to any
      status. */
  lemma NoTransitionGuard(t: Task, status: TaskStatus, now: int)
    requires t.status == Completed || t.status == Failed || t.status == Cancelled
    ensures WithStatus(t, status, None, None, now).status == status
  {
  }

  /** Checkpoints added one after another, each a step name with its data. */
  function AddCheckpoints(t: Task, entries: seq<(string, Json)>, now: int): Task
    decreases |entries|
  {
    if entries == [] then t
    else AddCheckpoints(WithCheckpoint(t, entries[0].0, entries[0].1, now), entries[1..], now)
  }

  /** The checkpoints that a sequence of entries becomes at time `now`. */
  function Stamp(entries: seq<(string, Json)>, now: int): (r: seq<Checkpoint>)
    ensures |r| == |entries|
    ensures forall k :: 0 <= k < |r| ==> r[k] == Checkpoint(entries[k].0, now, entries[k].1)
  {
    if entries == [] then [] else [Checkpoint(entries[0].0, now, entries[0].1)] + Stamp(entries[1..], now)
  }

  /** Adding checkpoints one by one appends them all, in order, after the
      existing ones and changes nothing else but the clock. */
  lemma {:induction false} CheckpointsAccumulate(t: Task, entries: seq<(string, Json)>, now: int)
    decreases |entries|
    ensures AddCheckpoints(t, entries, now)
      == if entries == [] then t else t.(checkpoints := t.checkpoints + Stamp(entries, now), updatedAt := now)
  {
    if entries != [] {
      var t1 := WithCheckpoint(t, entries[0].0, entries[0].1, now);
      var c := Checkpoint(entries[0].0, now, entries[0].1);
      assert t1 == t.(checkpoints := t.checkpoints + [c], updatedAt := now);
      CheckpointsAccumulate(t1, entries[1..], now);
      var later := Stamp(entries[1..], now);
      assert Stamp(entries, now) == [c] + later;
      if entries[1..] == [] {
        assert later == [];
        assert [c] + later == [c];
      } else {
        AccumulateStep(t, t1, c, later, AddCheckpoints(t1, entries[1..], now), now);
      }
    }
  }

  /** The step of CheckpointsAccumulate: one checkpoint followed by the rest
      is the whole stamped sequence appended at once. */
  lemma AccumulateStep(t: Task, t1: Task, c: Checkpoint, later: seq<Checkpoint>, rest: Task, now: int)
    requires t1 == t.(checkpoints := t.checkpoints + [c], updatedAt := now)
    requires rest == t1.(checkpoints := t1.checkpoints + later, updatedAt := now)
    ensures rest == t.(checkpoints := t.checkpoints + ([c] + later), updatedAt := now)
  {
    ConcatAssoc(t.checkpoints, [c], later);
  }
}
