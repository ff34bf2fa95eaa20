# react-code-gene core, modelled in Dafny

This project models the core of react-code-gene, a set of front-end apps and
Node servers that turn a user's brief into a plan of tasks. The model covers:

- the task planner of the orchestration server. It builds a task graph from a
  brief and orders it into an execution plan: steps in topological order, plus
  groups of nodes at the same level that may run in parallel.
- the task store of the orchestration server and its workflows.
- the code-generation server: its requirement planner, its task controller and
  the parser for Figma component trees.
- the canvas app: its undo/redo store, its menu-key lookup and its generic
  adjacency-list graph with Kahn's topological sort.

There is one Dafny module per source file. The graph file has two modules:
`GraphBase` holds the graph class and `GraphSort` holds its topological sort.
`Wrappers` holds `Option` and `Result`. `Sequences` holds helpers shared by
several modules: duplicate-free lists, removal of one value, and string
`split` and `join`.

| module | file | source |
|---|---|---|
| `TaskPlanning` | task_planning.dfy | servers/server-orchestration/src/middlewares/taskPlanning.ts (planning, graph, diagram) |
| `ExecutionPlan` | execution_plan.dfy | servers/server-orchestration/src/middlewares/taskPlanning.ts (generateExecutionPlan) |
| `TaskModel` | task_model.dfy | servers/server-orchestration/src/models/taskModel.ts |
| `WorkflowService` | workflow_service.dfy | servers/server-orchestration/src/services/workflowService.ts |
| `TaskPlannerService` | task_planner_service.dfy | servers/server-gene/src/services/taskPlannerService.ts |
| `TaskController` | task_controller.dfy | servers/server-gene/src/controllers/taskController.ts |
| `FigmaService` | figma_service.dfy | servers/server-gene/src/services/figmaService.ts |
| `CanvasStore` | canvas_store.dfy | apps/app-canvas/src/stores/canvasStore.ts |
| `Menu` | menu.dfy | apps/app-canvas/src/routes/menu.tsx |
| `GraphBase`, `GraphSort` | graph_base.dfy, topological_sort.dfy | apps/app-canvas/src/faking-algorithm/graph/base.ts |
| `Sequences` | sequences.dfy | helpers used by taskModel.ts, menu.tsx and graph/base.ts |

Code that updates state in place is modelled as Dafny classes whose methods
change their fields. That covers the graph, the canvas store, the task store,
the controller, and the depth-first sorter inside `generateExecutionPlan`.
Each class method is proved against a pure specification function of the old
state. The properties of those functions are proved as lemmas. Pure code
(menu lookup, Figma parsing, task planning, requirement planning) is modelled
as functions with lemmas.

Clocks, random ids and AI calls are parameters. Each store call takes a
`now`, and a workflow run passes the same `now` to all of its store calls. `CreateTask` takes the id. The AI step of a workflow is a function
`ai` from a node name and the current state to a value or an error.

## Model

| member | source | states |
|---|---|---|
| `TaskPlanning.PlanTask` | servers/server-orchestration/src/middlewares/taskPlanning.ts:59-175 | The plan for "logo" and "code" has six nodes and every other plan has three. Each plan starts at the start node and ends at the "end" node, with process nodes between. Every node after the first depends exactly on the node before it, and ids are distinct. |
| `TaskPlanning.DependencyEdges` | servers/server-orchestration/src/middlewares/taskPlanning.ts:186-194 | A node gets one edge per dependency, in order, from the dependency to the node. |
| `TaskPlanning.GenerateTaskGraph` | servers/server-orchestration/src/middlewares/taskPlanning.ts:182-201 | The graph keeps the nodes and has the concatenated dependency edges of every node. |
| `TaskPlanning.EdgesOfMembership` | servers/server-orchestration/src/middlewares/taskPlanning.ts:182-201 | An edge is in the graph iff some node lists its source as a dependency and its target is that node. |
| `TaskPlanning.EdgesOfCount` | servers/server-orchestration/src/middlewares/taskPlanning.ts:182-201 | The number of edges equals the total number of dependencies. |
| `TaskPlanning.ChainEdges` | servers/server-orchestration/src/middlewares/taskPlanning.ts:182-201 | For a chain of nodes, the graph has exactly one edge from each node to the next. |
| `TaskPlanning.PlannedGraphIsChain` | servers/server-orchestration/src/middlewares/taskPlanning.ts:59-201 | The graph of any plan is the chain from start to end. |
| `TaskPlanning.GenerateTaskGraphVisualization` | servers/server-orchestration/src/middlewares/taskPlanning.ts:377-412 | The Mermaid text is the header, then one line per node with its shape, then one line per edge. |
| `TaskPlanning.AppendLines` | servers/server-orchestration/src/middlewares/taskPlanning.ts:381-409 | The appending loops add exactly the lines of the items, in order. |
| `TaskPlanning.MermaidStartsWithHeader` | servers/server-orchestration/src/middlewares/taskPlanning.ts:377-412 | The diagram starts with the "graph TD" header followed by the first node's line. |
| `ExecutionPlan.FindNode` | servers/server-orchestration/src/middlewares/taskPlanning.ts:225 | The result is absent iff no node has the id. Otherwise it is the first node with that id. |
| `ExecutionPlan.Outgoing` | servers/server-orchestration/src/middlewares/taskPlanning.ts:228 | The result holds exactly the edges leaving the node. |
| `ExecutionPlan.PrependPrecedes` | servers/server-orchestration/src/middlewares/taskPlanning.ts:235 | Putting a finished node in front keeps every earlier precedence and places it before all the rest. |
| `ExecutionPlan.ForwardEdgesNoCycle` | servers/server-orchestration/src/middlewares/taskPlanning.ts:217-244 | When every edge goes forward in an order, the graph has no cycle. |
| `ExecutionPlan.TopologicalSorter.constructor` | servers/server-orchestration/src/middlewares/taskPlanning.ts:213-214 | The sorter starts with empty visited and in-progress sets and an empty order. |
| `ExecutionPlan.TopologicalSorter.Visit` | servers/server-orchestration/src/middlewares/taskPlanning.ts:217-237 | A node already in progress reports a cycle naming it and changes nothing. A visited node changes nothing. Otherwise, unless a cycle is reported, the node ends visited, or stays in progress when no node has its id. The in-progress and visited sets only grow. |
| `ExecutionPlan.TopologicalSorter.VisitSuccessors` | servers/server-orchestration/src/middlewares/taskPlanning.ts:228-233 | After the loop over outgoing edges, every known target has been visited, unless a cycle was reported. |
| `ExecutionPlan.TopologicalSorter.VisitEdge` | servers/server-orchestration/src/middlewares/taskPlanning.ts:229-232 | After one edge, its known target is visited, unless a cycle was reported. |
| `ExecutionPlan.TopologicalSorter.PathCycle` | servers/server-orchestration/src/middlewares/taskPlanning.ts:217-220 | Re-entering a node that is on the current path closes a cycle through it, when the node is declared. |
| `ExecutionPlan.StackCycle` | servers/server-orchestration/src/middlewares/taskPlanning.ts:217-233 | The edges along the search path from a node, plus an edge back to it, form a cycle through that node. |
| `ExecutionPlan.TopologicalSorter.Finish` | servers/server-orchestration/src/middlewares/taskPlanning.ts:234-236 | The node leaves the in-progress set, joins the visited set and is put at the front of the order. |
| `ExecutionPlan.TopologicalOrder` | servers/server-orchestration/src/middlewares/taskPlanning.ts:211-244 | On success, the order lists every node id once, and every edge between two known nodes goes forward. On failure, the message is the cycle message plus an id that is a node or an edge endpoint. When that id names a node, a cycle of the graph runs through it. |
| `ExecutionPlan.BuildSteps` | servers/server-orchestration/src/middlewares/taskPlanning.ts:247-256 | There is one step per id in the order that names a node, with that node's name and duration. |
| `ExecutionPlan.StepsOfFound` | servers/server-orchestration/src/middlewares/taskPlanning.ts:247-256 | When every id names a node, the steps follow the order exactly. |
| `ExecutionPlan.InitLevels` | servers/server-orchestration/src/middlewares/taskPlanning.ts:262-272 | Every node gets level -1, except start nodes, which get 0. |
| `ExecutionPlan.UnlevelledTable` | servers/server-orchestration/src/middlewares/taskPlanning.ts:263-265 | Every node id maps to -1. |
| `ExecutionPlan.LevelStartNodes` | servers/server-orchestration/src/middlewares/taskPlanning.ts:267-272 | Start nodes are set to level 0. Every other node keeps -1. |
| `ExecutionPlan.RelaxEdge` | servers/server-orchestration/src/middlewares/taskPlanning.ts:275-282 | An edge from a levelled node raises its target to one more than its source's level when the target is lower. Each raise strictly lowers a bounded potential, and the level bounds are kept. |
| `ExecutionPlan.RelaxPass` | servers/server-orchestration/src/middlewares/taskPlanning.ts:274-283 | A pass that changes nothing leaves the levels at a fixpoint. A pass that changes something lowers the potential. |
| `ExecutionPlan.CalculateLevels` | servers/server-orchestration/src/middlewares/taskPlanning.ts:262-285 | The loop ends with start nodes at 0 and every edge relaxed. Every positive level has a supporting edge. |
| `ExecutionPlan.LevelIsTight` | servers/server-orchestration/src/middlewares/taskPlanning.ts:262-285 | A node at level l >= 1 has an incoming edge from a node at level l-1. |
| `ExecutionPlan.PathRaisesLevel` | servers/server-orchestration/src/middlewares/taskPlanning.ts:262-285 | Along a path of k edges out of a levelled node, the level rises by at least k. |
| `ExecutionPlan.SameLevelIndependent` | servers/server-orchestration/src/middlewares/taskPlanning.ts:262-285 | No path of one or more edges joins two levelled nodes of equal level. |
| `ExecutionPlan.PathBoundsLevel` | servers/server-orchestration/src/middlewares/taskPlanning.ts:262-285 | A node at the end of a path of k edges from a start node has level at least k. |
| `ExecutionPlan.UnreachableUnleveled` | servers/server-orchestration/src/middlewares/taskPlanning.ts:262-285 | Nodes not fed by any start node keep level -1. |
| `ExecutionPlan.ParseNatToString` | servers/server-orchestration/src/middlewares/taskPlanning.ts:305 | The decimal text of a level reads back as the same level. |
| `ExecutionPlan.GroupIdInjective` | servers/server-orchestration/src/middlewares/taskPlanning.ts:305 | Different levels get different group ids. |
| `ExecutionPlan.LevelOrder` | servers/server-orchestration/src/middlewares/taskPlanning.ts:292-299 | The levels in first-seen order hold each positive level once. |
| `ExecutionPlan.LevelOrderSound` | servers/server-orchestration/src/middlewares/taskPlanning.ts:290-299 | Every listed level belongs to some node. |
| `ExecutionPlan.Members` | servers/server-orchestration/src/middlewares/taskPlanning.ts:290-299 | The members of a level are exactly the nodes at that level, in order, without repeats. |
| `ExecutionPlan.GroupsForShape` | servers/server-orchestration/src/middlewares/taskPlanning.ts:302-309 | Every group is named after its level and holds that level's members, and there are at least two of them. |
| `ExecutionPlan.GroupsForComplete` | servers/server-orchestration/src/middlewares/taskPlanning.ts:302-309 | Every listed level with two or more members gets a group. |
| `ExecutionPlan.GroupMembership` | servers/server-orchestration/src/middlewares/taskPlanning.ts:290-309 | A node is in some group iff its level is positive and shared with another node. |
| `ExecutionPlan.GroupMembersIndependent` | servers/server-orchestration/src/middlewares/taskPlanning.ts:262-309 | No path of the graph leads from one member of a parallel group to another, so neither depends on the other. |
| `ExecutionPlan.GroupIdsDistinct` | servers/server-orchestration/src/middlewares/taskPlanning.ts:302-309 | Two groups with the same id are the same group. |
| `ExecutionPlan.FileKey` | servers/server-orchestration/src/middlewares/taskPlanning.ts:292-299 | Filing one node keeps the level table equal to the level order and members of the nodes filed so far. |
| `ExecutionPlan.GroupByLevel` | servers/server-orchestration/src/middlewares/taskPlanning.ts:290-309 | The groups are those of the levels in first-seen order. |
| `ExecutionPlan.GenerateExecutionPlan` | servers/server-orchestration/src/middlewares/taskPlanning.ts:208-315 | An error is the cycle message plus the id of a node that lies on a cycle of the graph. On success the graph has no cycle, the steps cover the nodes in an order where every edge goes forward, and the groups are those of the computed levels. No path joins two members of a group. |
| `TaskModel.WithStatus` | servers/server-orchestration/src/models/taskModel.ts:102-124 | The task takes the new status and time. Result and error are replaced only when given. Nothing else changes. |
| `TaskModel.WithCheckpoint` | servers/server-orchestration/src/models/taskModel.ts:133-152 | The checkpoint is appended at the end and the time is updated. Nothing else changes. |
| `Sequences.Without` | servers/server-orchestration/src/models/taskModel.ts:168-170 | Deleting removes exactly that value from the key order, keeps the rest in order and keeps it duplicate-free. The task store and the graph both use it. |
| `Sequences.SubsequenceUnique` | servers/server-orchestration/src/models/taskModel.ts:159-161 | In a sequence without repeats, two subsequences that keep the same values are equal: an order-preserving filter is fixed by what it keeps. |
| `TaskModel.Survivors` | servers/server-orchestration/src/models/taskModel.ts:177-189 | The kept ids are exactly the ids whose tasks are not expired, in order. |
| `TaskModel.ExpiredCount` | servers/server-orchestration/src/models/taskModel.ts:177-189 | The count of removed tasks plus the kept tasks equals the tasks before. |
| `TaskModel.SurvivorsAppend` | servers/server-orchestration/src/models/taskModel.ts:181-186 | Cleanup of a concatenation is the cleanup of each part. |
| `TaskModel.SessionTasks` | servers/server-orchestration/src/models/taskModel.ts:159-161 | The result is an in-order selection of the stored tasks, and it holds exactly those of that session. |
| `TaskModel.SessionTasksUnique` | servers/server-orchestration/src/models/taskModel.ts:159-161 | Any in-order selection of the stored tasks that keeps exactly the session's tasks is the session filter, so the filter is determined: each matching task once, in insertion order. |
| `TaskModel.TaskStore.constructor` | servers/server-orchestration/src/models/taskModel.ts:56 | The store starts empty. |
| `TaskModel.TaskStore.CreateTask` | servers/server-orchestration/src/models/taskModel.ts:66-83 | A pending task with no result, no error and no checkpoints, created and updated now, is stored under the id. |
| `TaskModel.TaskStore.GetTask` | servers/server-orchestration/src/models/taskModel.ts:90-92 | The task is present iff the id is stored, and it is the stored task. |
| `TaskModel.TaskStore.UpdateTaskStatus` | servers/server-orchestration/src/models/taskModel.ts:102-124 | A missing id gives nothing and changes nothing. Otherwise the stored task is replaced by its updated copy, which is returned. |
| `TaskModel.TaskStore.AddTaskCheckpoint` | servers/server-orchestration/src/models/taskModel.ts:133-152 | A missing id gives nothing and changes nothing. Otherwise the checkpoint is appended to the stored task, which is returned. |
| `TaskModel.TaskStore.GetSessionTasks` | servers/server-orchestration/src/models/taskModel.ts:159-161 | The result holds exactly the stored tasks of that session, each once, in the store's insertion order. |
| `TaskModel.TaskStore.DeleteTask` | servers/server-orchestration/src/models/taskModel.ts:168-170 | The answer says whether the id was stored. The id is gone afterwards and nothing else changes. |
| `TaskModel.TaskStore.CleanupAt` | servers/server-orchestration/src/models/taskModel.ts:181-186 | One step of the loop deletes the task iff it is expired, and the expired count grows by one exactly then. |
| `TaskModel.TaskStore.CleanupTasks` | servers/server-orchestration/src/models/taskModel.ts:177-189 | Exactly the tasks older than the age limit are removed, and the limit is one day when none is given. The count is the number removed. |
| `TaskModel.CleanupStep` | servers/server-orchestration/src/models/taskModel.ts:181-186 | Each loop step extends the kept prefix by the current id when it survives. |
| `TaskModel.KeptTasks` | servers/server-orchestration/src/models/taskModel.ts:177-189 | The stored map after cleanup is the old map restricted to unexpired tasks. |
| `TaskModel.CheckpointKeepsOutcome` | servers/server-orchestration/src/models/taskModel.ts:133-152 | Adding a checkpoint leaves status, result and error unchanged. |
| `TaskModel.NoTransitionGuard` | servers/server-orchestration/src/models/taskModel.ts:102-124 | A finished task can still be moved to any status. |
| `TaskModel.Stamp` | servers/server-orchestration/src/models/taskModel.ts:138-147 | Each recorded step becomes a checkpoint with its name, the time and its data. |
| `TaskModel.CheckpointsAccumulate` | servers/server-orchestration/src/models/taskModel.ts:133-152 | Adding several checkpoints appends them all in order. |
| `WorkflowService.FailureMessage` | servers/server-orchestration/src/services/workflowService.ts:105-109 | A non-empty error message is kept. An empty one is replaced by a non-empty default. |
| `WorkflowService.InitialState` | servers/server-orchestration/src/services/workflowService.ts:66-69 | The run starts with the brief and the task id only. |
| `WorkflowService.FinalResult` | servers/server-orchestration/src/services/workflowService.ts:90-99 | The result holds the logo, the colours, and one asset that is the logo with its colours replaced. |
| `WorkflowService.DebugResult` | servers/server-orchestration/src/services/workflowService.ts:123-128 | The debug result is flagged debug and echoes the parameters. |
| `WorkflowService.StepNames` | servers/server-orchestration/src/services/workflowService.ts:76-87 | The names of the recorded steps, in order. |
| `WorkflowService.RunNodesCheckpoints` | servers/server-orchestration/src/services/workflowService.ts:76-87 | Success records "name" and "name_completed" for each node. A failure at node k records the pairs before it and then node k's name. |
| `WorkflowService.RunNodesKeepsState` | servers/server-orchestration/src/services/workflowService.ts:76-87 | Success keeps every key no node writes and adds every node's key. |
| `WorkflowService.BrandDesignCheckpoints` | servers/server-orchestration/src/services/workflowService.ts:37-99 | For the logo and colour nodes, success records the four expected checkpoints and keeps the brief. A failure records one checkpoint or three. |
| `WorkflowService.TaskAfterRun` | servers/server-orchestration/src/services/workflowService.ts:64-110 | After a run, the task carries its checkpoints. It is completed with the final result, or failed with the error message. |
| `WorkflowService.CreateWorkflow` | servers/server-orchestration/src/services/workflowService.ts:138-149 | Logo tasks get the brand-design workflow and debug tasks the debug workflow. Every other type is an error naming the type. |
| `WorkflowService.RecordStep` | servers/server-orchestration/src/services/workflowService.ts:79-85 | One checkpoint is recorded on the stored task. |
| `WorkflowService.FinishRun` | servers/server-orchestration/src/services/workflowService.ts:90-109 | The stored task ends as the run leaves it. A missing task stays missing. |
| `WorkflowService.RunNode` | servers/server-orchestration/src/services/workflowService.ts:76-87 | One loop step either stops with the run's error or moves on with the next state, recording its checkpoints. |
| `WorkflowService.ExecuteBrandDesign` | servers/server-orchestration/src/services/workflowService.ts:64-110 | The answer is the final result or the run's error. The stored task ends as the run leaves it. |
| `WorkflowService.ExecuteDebug` | servers/server-orchestration/src/services/workflowService.ts:114-135 | The task is set to processing, then completed with the debug result, which is returned. |
| `WorkflowService.ExecuteWorkflow` | servers/server-orchestration/src/services/workflowService.ts:158-204 | A pending task is created under the id. A new id is appended to the key order, and a reused id keeps its place. An unsupported type marks the task failed and returns the error. Otherwise the created task is returned. |
| `TaskPlannerService.Ids` | servers/server-gene/src/services/taskPlannerService.ts:143-151 | The ids of the tasks, in order. |
| `TaskPlannerService.AnalyzeRequirements` | servers/server-gene/src/services/taskPlannerService.ts:21-38 | There are four requirements, login first and task list second. Each has priority equal to its position from 1. |
| `TaskPlannerService.BlockEntries` | servers/server-gene/src/services/taskPlannerService.ts:43-115 | Every planned task is pending. Tasks 1-4 are high priority. Dependencies are as planned. |
| `TaskPlannerService.PlanBlocksShape` | servers/server-gene/src/services/taskPlannerService.ts:43-115 | Any combination of the two task blocks has only backward dependencies and the planned priorities. |
| `TaskPlannerService.GenerateTasks` | servers/server-gene/src/services/taskPlannerService.ts:43-115 | Tasks 1-4 are generated for login and 5-7 for the task list, in that order, with the planned shape. |
| `TaskPlannerService.GenerateAcceptanceCriteria` | servers/server-gene/src/services/taskPlannerService.ts:120-138 | Task 1 gets the JWT criteria and task 3 the login API criteria. Every other task gets the default criteria. There are always three. |
| `TaskPlannerService.BuildTaskDependencyGraph` | servers/server-gene/src/services/taskPlannerService.ts:143-151 | Every task id is a key. The last task with an id gives its dependencies. |
| `TaskPlannerService.GetNextTasks` | servers/server-gene/src/services/taskPlannerService.ts:156-168 | The result is the subsequence of tasks that are neither completed nor in progress and whose dependencies are all completed. |
| `TaskController.FindIndex` | servers/server-gene/src/controllers/taskController.ts:100 | The result is -1 iff no task has the id. Otherwise it is the first index with that id. |
| `TaskController.WithCriteria` | servers/server-gene/src/controllers/taskController.ts:42-45 | Each task is paired, in order, with its three acceptance criteria. |
| `TaskController.Controller.constructor` | servers/server-gene/src/controllers/taskController.ts:10-11 | There are no tasks and no completed ids. |
| `TaskController.Controller.AnalyzeAndGenerateTasks` | servers/server-gene/src/controllers/taskController.ts:22-61 | A missing input gives 400 and changes nothing. Otherwise the tasks become the seven planned tasks and the answer is 200 with the requirements and the tasks with criteria. |
| `TaskController.Controller.GetNextTasksToExecute` | servers/server-gene/src/controllers/taskController.ts:76-83 | The answer is 200 with exactly the ready tasks, in stored order. |
| `TaskController.Controller.UpdateTaskStatus` | servers/server-gene/src/controllers/taskController.ts:88-123 | A missing id or status gives 400. An unknown id gives 404. Otherwise only the first task with the id changes status and is returned, and a newly completed id is recorded once. |
| `FigmaService.ParseComponentTree` | servers/server-gene/src/services/figmaService.ts:22-53 | A null node adds nothing. Parsing only appends to the result given. |
| `FigmaService.ParseAppends` | servers/server-gene/src/services/figmaService.ts:22-53 | Parsing into a list is that list followed by parsing into an empty list. |
| `FigmaService.ParseAllAppends` | servers/server-gene/src/services/figmaService.ts:46-50 | The same holds for a list of canvas children. |
| `FigmaService.ParseAllConcat` | servers/server-gene/src/services/figmaService.ts:46-50 | Parsing two runs of siblings is parsing the first and then the second. |
| `FigmaService.SkippedNodeContributesNothing` | servers/server-gene/src/services/figmaService.ts:26 | A document node, or a hidden node that is not a canvas, adds nothing, and its children are not visited. |
| `FigmaService.DocumentRootYieldsNothing` | servers/server-gene/src/services/figmaService.ts:134 | The document root, of type DOCUMENT, yields no components. |
| `FigmaService.CanvasIsFlattened` | servers/server-gene/src/services/figmaService.ts:46-50 | A canvas adds the components of its children in order and nothing of its own. |
| `FigmaService.EmittedNode` | servers/server-gene/src/services/figmaService.ts:26-42 | A visible node that is neither document nor canvas adds exactly one component after the list. It copies the node's id, name, type and style, and has a child list iff the node has children, holding their parse. |
| `FigmaService.ParseWellFormed` | servers/server-gene/src/services/figmaService.ts:26-42 | No parsed component, at any depth, is a document or a canvas. |
| `FigmaService.ParseAllWellFormed` | servers/server-gene/src/services/figmaService.ts:46-50 | The same holds under a canvas. |
| `FigmaService.ComponentsWellFormed` | servers/server-gene/src/services/figmaService.ts:134 | Every component of a document is well formed. |
| `CanvasStore.Initial` | apps/app-canvas/src/stores/canvasStore.ts:26-32 | The canvas starts empty with no history, index -1 and no session. |
| `CanvasStore.CanvasState.Kept` | apps/app-canvas/src/stores/canvasStore.ts:38 | The history is cut after the current index. |
| `CanvasStore.CanvasState.Record` | apps/app-canvas/src/stores/canvasStore.ts:35-50 | A change sets the content, drops the redo tail, appends a snapshot and points at it. |
| `CanvasStore.CanvasState.AddElement` | apps/app-canvas/src/stores/canvasStore.ts:35-50 | The element is appended, the annotations kept, and the new snapshot becomes current. |
| `CanvasStore.CanvasState.AddAnnotation` | apps/app-canvas/src/stores/canvasStore.ts:53-68 | The annotation is appended, the elements kept, and the new snapshot becomes current. |
| `CanvasStore.CanvasState.ClearCanvas` | apps/app-canvas/src/stores/canvasStore.ts:71-86 | Both lists are emptied and the empty snapshot becomes current. |
| `CanvasStore.CanvasState.Undo` | apps/app-canvas/src/stores/canvasStore.ts:89-102 | At index 0 or below nothing changes. Otherwise the previous snapshot is restored and the history kept. |
| `CanvasStore.CanvasState.Redo` | apps/app-canvas/src/stores/canvasStore.ts:105-118 | At the last snapshot nothing changes. Otherwise the next snapshot is restored and the history kept. |
| `CanvasStore.CanvasState.SetSessionId` | apps/app-canvas/src/stores/canvasStore.ts:121-123 | Only the session id changes. |
| `CanvasStore.RedoAfterUndo` | apps/app-canvas/src/stores/canvasStore.ts:89-118 | Undo followed by redo restores the state. |
| `CanvasStore.UndoAfterRedo` | apps/app-canvas/src/stores/canvasStore.ts:89-118 | Redo followed by undo restores the state. |
| `CanvasStore.UndoRevertsAction` | apps/app-canvas/src/stores/canvasStore.ts:35-102 | After an element is added to a canvas with history, undo restores the previous content. |
| `CanvasStore.FirstActionIsNotUndoable` | apps/app-canvas/src/stores/canvasStore.ts:89-102 | The first action on a fresh canvas cannot be undone, because undo needs an index above 0. |
| `CanvasStore.ActionClearsRedo` | apps/app-canvas/src/stores/canvasStore.ts:35-50 | After a new action there is nothing to redo. |
| `CanvasStore.UndoRedoSteps` | apps/app-canvas/src/stores/canvasStore.ts:89-118 | k undos followed by k redos restore the state. |
| `CanvasStore.UndoTimes` | apps/app-canvas/src/stores/canvasStore.ts:89-102 | Repeated undo keeps the history and the store invariant. |
| `CanvasStore.RedoTimes` | apps/app-canvas/src/stores/canvasStore.ts:105-118 | Repeated redo keeps the history and the store invariant. |
| `CanvasStore.Canvas.constructor` | apps/app-canvas/src/stores/canvasStore.ts:26-32 | The store starts in the initial state. |
| `CanvasStore.Canvas.AddElement` | apps/app-canvas/src/stores/canvasStore.ts:35-50 | The store's fields become those of the state after adding the element. |
| `CanvasStore.Canvas.AddAnnotation` | apps/app-canvas/src/stores/canvasStore.ts:53-68 | The store's fields become those of the state after adding the annotation. |
| `CanvasStore.Canvas.ClearCanvas` | apps/app-canvas/src/stores/canvasStore.ts:71-86 | The store's fields become those of the cleared state. |
| `CanvasStore.Canvas.Undo` | apps/app-canvas/src/stores/canvasStore.ts:89-102 | The store's fields become those of the undone state. |
| `CanvasStore.Canvas.Redo` | apps/app-canvas/src/stores/canvasStore.ts:105-118 | The store's fields become those of the redone state. |
| `CanvasStore.Canvas.SetSessionId` | apps/app-canvas/src/stores/canvasStore.ts:121-123 | Only the session id changes. |
| `Menu.ToAntdItem` | apps/app-canvas/src/routes/menu.tsx:57-71 | The key and label are kept. Children are present iff the item has a non-empty list of them, converted item by item. |
| `Menu.GetAntdMenuItems` | apps/app-canvas/src/routes/menu.tsx:57-71 | The converted menu has the same shape as the menu. |
| `Sequences.Split` | apps/app-canvas/src/routes/menu.tsx:76 | Splitting gives at least one part and no part holds the separator. |
| `Sequences.JoinSplit` | apps/app-canvas/src/routes/menu.tsx:76 | Joining the parts with the separator gives back the text. |
| `Sequences.SplitHead` | apps/app-canvas/src/routes/menu.tsx:76 | The first part is the whole text iff there is no separator. It is empty iff the text is empty or starts with the separator. |
| `Menu.FindIsFirstInPreorder` | apps/app-canvas/src/routes/menu.tsx:84-95 | The lookup returns the first matching entry in pre-order. |
| `Menu.FindInItemIsFirst` | apps/app-canvas/src/routes/menu.tsx:84-95 | The same holds inside one item and its children. |
| `Menu.FoundIsMatchingEntry` | apps/app-canvas/src/routes/menu.tsx:84-95 | A found item is a menu entry matching the path. Nothing found means no entry matches. |
| `Menu.FirstMatchSound` | apps/app-canvas/src/routes/menu.tsx:84-95 | The first match is an entry that matches. No match means none matches. |
| `Menu.FullPathIsNormalised` | apps/app-canvas/src/routes/menu.tsx:98-104 | The full path is the path with exactly one leading slash added when it has none. |
| `Menu.SelectedKeysSpec` | apps/app-canvas/src/routes/menu.tsx:74-117 | At most one key is selected. An empty first segment selects "canvas". Otherwise the key is that of the item matching the full path, else of a first-level item matching the segment, else none. |
| `Menu.EmptyFirstSegment` | apps/app-canvas/src/routes/menu.tsx:76-81 | The first segment is empty iff the path is empty, is "/" alone, or starts with "//". |
| `Sequences.SplitFirst` | apps/app-canvas/src/routes/menu.tsx:76 | The first part is the text up to the first separator. |
| `Menu.HomeSelectsCanvas` | apps/app-canvas/src/routes/menu.tsx:79-81 | The paths "/" and "" select "canvas". |
| `GraphBase.Drop` | apps/app-canvas/src/faking-algorithm/graph/base.ts:33-41 | Exactly the entries to the removed vertex are dropped, and every other count is kept. |
| `GraphBase.WithoutFirst` | apps/app-canvas/src/faking-algorithm/graph/base.ts:33-41 | Removing the first vertex leaves the rest of the order. |
| `GraphBase.Empty` | apps/app-canvas/src/faking-algorithm/graph/base.ts:8-11 | A new graph has no vertices. |
| `GraphBase.Adjacency.AddVertex` | apps/app-canvas/src/faking-algorithm/graph/base.ts:14-18 | A present vertex changes nothing. A new one gets an empty list at the end of the order. |
| `GraphBase.Adjacency.AddEdge` | apps/app-canvas/src/faking-algorithm/graph/base.ts:21-30 | Both ends are added as vertices and the invariant is kept. |
| `GraphBase.Adjacency.RemoveVertex` | apps/app-canvas/src/faking-algorithm/graph/base.ts:33-41 | The vertex and every entry pointing to it are gone. The other lists keep their other entries. An absent vertex changes nothing. |
| `GraphBase.Adjacency.Neighbors` | apps/app-canvas/src/faking-algorithm/graph/base.ts:44-46 | The list of a vertex, or empty when it is absent. |
| `GraphBase.AddEdgeCounts` | apps/app-canvas/src/faking-algorithm/graph/base.ts:21-30 | Adding an edge adds one entry from source to destination, plus the reverse one when undirected, and nothing else. |
| `GraphBase.AddVertexCount` | apps/app-canvas/src/faking-algorithm/graph/base.ts:14-18 | Adding a vertex keeps the edge count. |
| `GraphBase.AddEdgeCount` | apps/app-canvas/src/faking-algorithm/graph/base.ts:21-30 | Adding an edge raises the edge count by exactly one, directed or not. |
| `GraphBase.TotalEven` | apps/app-canvas/src/faking-algorithm/graph/base.ts:64-72 | An undirected graph has an even number of list entries, so halving it is exact. |
| `GraphBase.EdgeCountExact` | apps/app-canvas/src/faking-algorithm/graph/base.ts:64-72 | The edge count is the number of entries when directed and half of it when undirected. |
| `Sequences.SplitJoin` | apps/app-canvas/src/faking-algorithm/graph/base.ts:73-98 | Splitting joined lines on the separator gives back the lines. |
| `GraphBase.RenderLines` | apps/app-canvas/src/faking-algorithm/graph/base.ts:73-98 | The text has one line per vertex, in insertion order. |
| `GraphBase.Graph.constructor` | apps/app-canvas/src/faking-algorithm/graph/base.ts:8-11 | The graph starts empty with the given direction, and is undirected by default. |
| `GraphBase.Graph.AddVertex` | apps/app-canvas/src/faking-algorithm/graph/base.ts:14-18 | The fields become those of the graph with the vertex added. |
| `GraphBase.Graph.AddEdge` | apps/app-canvas/src/faking-algorithm/graph/base.ts:21-30 | The fields become those of the graph with the edge added. |
| `GraphBase.Graph.RemoveVertex` | apps/app-canvas/src/faking-algorithm/graph/base.ts:33-41 | The fields become those of the graph with the vertex removed. |
| `GraphBase.Graph.GetNeighbors` | apps/app-canvas/src/faking-algorithm/graph/base.ts:44-46 | The neighbour list of the vertex, or empty. |
| `GraphBase.Graph.GetVertices` | apps/app-canvas/src/faking-algorithm/graph/base.ts:59-61 | Every vertex once, in insertion order. |
| `GraphBase.Graph.GetEdgeCount` | apps/app-canvas/src/faking-algorithm/graph/base.ts:64-72 | The number of edges added: the entries when directed, half of them when undirected. |
| `GraphBase.Graph.ToString` | apps/app-canvas/src/faking-algorithm/graph/base.ts:73-98 | The rendering of the graph, one line per vertex. |
| `GraphSort.CycleNotAcyclic` | apps/app-canvas/src/faking-algorithm/graph/base.ts:139 | A graph with a cycle has a stuck set, a non-empty set where every vertex has a source inside it. |
| `GraphSort.ForwardAcyclic` | apps/app-canvas/src/faking-algorithm/graph/base.ts:127-139 | A listing of all vertices where every source precedes its target rules out a stuck set. |
| `GraphSort.PendingPositive` | apps/app-canvas/src/faking-algorithm/graph/base.ts:115-119 | The pending in-degree is positive iff some unprocessed vertex has an edge to the vertex. |
| `GraphSort.PendingRelease` | apps/app-canvas/src/faking-algorithm/graph/base.ts:130-134 | Processing a vertex lowers each pending in-degree by its edges to that vertex. |
| `GraphSort.InitDegrees` | apps/app-canvas/src/faking-algorithm/graph/base.ts:112 | Every vertex starts at in-degree 0. |
| `GraphSort.CountDegrees` | apps/app-canvas/src/faking-algorithm/graph/base.ts:115-119 | Each in-degree is the number of edges into the vertex. |
| `GraphSort.ZeroQueue` | apps/app-canvas/src/faking-algorithm/graph/base.ts:122-124 | The queue starts with exactly the vertices of in-degree 0, once each. |
| `GraphSort.Release` | apps/app-canvas/src/faking-algorithm/graph/base.ts:130-135 | Each neighbour's in-degree drops by its entries. Exactly those that reach 0 are queued, once each. |
| `GraphSort.Prepare` | apps/app-canvas/src/faking-algorithm/graph/base.ts:110-124 | Before the loop the queue holds exactly the vertices with no edges into them. |
| `GraphSort.Emit` | apps/app-canvas/src/faking-algorithm/graph/base.ts:127-136 | One loop step outputs the queue head and keeps the loop invariant. |
| `GraphSort.KahnDone` | apps/app-canvas/src/faking-algorithm/graph/base.ts:139 | When the loop ends, a full output is a topological order. An empty answer means the graph is empty or has a stuck set. |
| `GraphSort.TopologicalSort` | apps/app-canvas/src/faking-algorithm/graph/base.ts:106-140 | A non-empty answer lists every vertex once with every edge forward. The answer is empty iff the graph is empty or not acyclic. |

## Left out

- `updateTaskStatus` in taskModel.ts has no transition guard: a terminal task can be moved to any status (`TaskModel.NoTransitionGuard`).
- Clocks, random ids and the network are parameters. `createTask` draws a random id, which `CreateTask` takes as `id`. `Date.now()` becomes a `now` parameter, although `addTaskCheckpoint` reads the clock twice.
- `ExecuteBrandDesign` and `ExecuteDebug` use a single `now` for all store calls of a run. The source reads `Date.now()` afresh in each `updateTaskStatus` and `addTaskCheckpoint`, across the awaited AI calls and the debug delay, so the model does not capture that later checkpoints and updates carry later times.
- The OpenAI calls of the workflow nodes are one abstract `ai` function from node name and state to a value or an error.
- `setTimeout` scheduling, socket emission and console logging in `executeWorkflow` are not modelled. `ExecuteWorkflow` returns after picking the workflow. `ExecuteBrandDesign` and `ExecuteDebug` are the scheduled runs.
- The debug workflow's two-second delay is not modelled. Its ISO timestamp is a parameter.
- `extractStyles` and `extractFigmaSpec` in figmaService.ts (style extraction and HTTP fetch) are not modelled. The style `extractStyles` computes for a node is taken as a given opaque `style` value on the node, which the emitted component copies.
- Tasks held in JavaScript `Map`s are objects shared by reference. The model stores them as values, so aliasing between a returned task and the stored one is not captured.
- `taskPlanningMiddleware` (Koa request handling) and `getAllTasks` of the controller (a plain read of the task list) are not modelled.
- The controller's catch branch, which answers 500, cannot be reached in the model: the planner functions it calls are total. A successful answer has status 200, which is Koa's default.
- Completed ids are not reset when new tasks are generated. This matches the controller.
- `Graph.print` writes to the console and is not modelled. `toString` takes a `show` function for vertex text. Edge weights are kept as optional reals and are never used.
- `GraphSort.TopologicalSort`: JavaScript `Map` iteration order is modelled as vertex insertion order. A cycle is characterised by a stuck set. `GraphSort.CycleNotAcyclic` proves that every cycle gives one. An undirected graph with any edge always has such a set, so its sort returns the empty list.
- `ExecutionPlan.TopologicalOrder`: the recursive `visit` is modelled as mutually recursive methods, with its successor loop as a recursion over the outgoing edges. An error naming an id that is not a declared node need not come from a real cycle. In the source, a visit to an id that names no node leaves that id in the in-progress set, so a second edge into it is reported as a cycle. `GenerateExecutionPlan` rules this case out by its requirement on edge endpoints.
- Within a parallel group, nodes are listed in declaration order, the order in which the level table receives them, not in topological order. The model keeps the code's order.
- `ExecutionPlan.GenerateExecutionPlan` requires every edge endpoint to name a node. `calculateLevels` needs this to terminate, and graphs built by `generateTaskGraph` from planned nodes meet it.
- Absent dependency lists of task nodes are modelled as empty lists. `generateTaskGraph` treats both alike.
- The step fields `retryStrategy` and `fallbackNodeId` are never set by the code and are omitted.
- Figma node bounds and the other node properties are not modelled. A node keeps its id, name, type, visibility, style value and children.
