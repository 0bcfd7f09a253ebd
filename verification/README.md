# Task service model

A Dafny model of the task-management backend's service layer: the
`TaskService` that lists tasks through a dynamically built filter, reads,
creates, updates and deletes them, and the `SortDirection` enumeration whose
lower-case token is handed to the store's sort.

The repository (a Spring Data JPA repository in the source) is abstracted to
an immutable `map<int, Task>`. Every service operation is a pure function of
that store; a mutating operation returns the service's result together with
the store after the call, so "absent means no change", "delete twice" and
"nothing else changes" are stated about plain values.

Files and modules:

- `wrappers.dfy` (`Wrappers`): `Option` (for `Optional` and nullable
  fields), `Result` (for code that may throw) and the `IllegalArgument`
  error that `Enum.valueOf` raises.
- `text.dfy` (`Text`): ASCII case conversion and case-insensitive equality.
- `tasks.dfy` (`Tasks`): the `Task` entity and the `Priority` enumeration
  with its `valueOf`.
- `filters.dfy` (`Filters`): the filter map to query specification step.
  Each entry becomes a priority-equality or completed-equality test. The
  tests are AND-reduced by a left fold. An empty map yields no
  specification, which matches every task.
- `stores.dfy` (`Stores`): the store, its validity invariant (rows keyed by
  their own positive id), `save`, `delete` and `findAll`.
- `service.dfy` (`TaskService`): the five service operations and the
  properties relating them.
- `sort_direction.dfy` (`SortDirections`): `SortDirection`,
  `getSortDirection`, and the controller's default and read-back of the
  direction.
- `query.dfy` (`Query`): how the listing endpoint hands its request
  parameters to the service, as written and as evidently intended (see
  Findings).

Modelling decisions:

- The filter map's iteration order is a parameter `keys`: any sequence that
  lists keys of the map and misses none. `Filters.FilterOrderIndependent`
  shows that the order changes neither the outcome nor the selected tasks.
- The store's sorted listing is a parameter `order`. Ordering by a sort
  field is the store's job.
- The save rule belongs to the persistence framework, whose code is not part
  of this model, so it is an assumption. A payload whose id is a stored key
  replaces that row unchanged. Any other payload is inserted under a fresh
  positive id that the store assigns. "Any other payload" means id 0 (the
  "new" marker of a primitive `int` id) or an id with no row. The fresh id
  arrives as the parameter `nextId`, required to be positive and unused.
- `TaskPriority` is not part of this model. It is modelled as
  `LOW | MEDIUM | HIGH`: the tests use LOW and HIGH, and MEDIUM is an
  assumed third member, since the enumeration's file is not available. The filter key for priority is taken to be `"priority"`,
  the query parameter name the endpoint documents.
- `Task.priority` is an `Option`, because the entity's enum field may be
  null. A null priority never satisfies a priority-equality test.
- The integration test at
  `src/test/java/com/example/demo/integration/IntegrationTest.java:88-113`
  expects an update to write the payload's content to the row the path
  names. The service code saves the payload entity itself. The model
  follows the code and records the difference under Findings.

## Model

| member | source | states |
|---|---|---|
| Tasks.PriorityValueOf | src/main/java/com/example/demo/service/TaskService.java:42 | `valueOf` succeeds exactly on a member's exact, case-sensitive name and returns that member |
| Filters.EqualityTests | src/main/java/com/example/demo/service/TaskService.java:21-27 | the priority test accepts a task exactly when its priority is the given member, so a null priority passes none; every task passes exactly one of the two completed tests |
| Filters.ParseBooleanSpelling | src/main/java/com/example/demo/service/TaskService.java:44 | `parseBoolean` is true exactly for four-letter strings spelling "true" in any mix of cases |
| Filters.ParseBooleanIsLowerTrue | src/main/java/com/example/demo/service/TaskService.java:44 | `parseBoolean` is true exactly when the value lower-cases to "true"; anything else parses as false |
| Filters.EntrySpec | src/main/java/com/example/demo/service/TaskService.java:40-46 | the key "priority" fails exactly on an unknown member name; otherwise it tests priority equality with the named member; every other key tests `completed` against the parsed boolean |
| Filters.BuildSpecs | src/main/java/com/example/demo/service/TaskService.java:39-47 | one specification per entry in iteration order; fails exactly when some entry fails to parse |
| Filters.Reduce | src/main/java/com/example/demo/service/TaskService.java:49 | the fold yields no specification exactly when there are no entries |
| Filters.ReduceIsConjunction | src/main/java/com/example/demo/service/TaskService.java:49 | the reduced specification admits a task exactly when every per-entry specification holds; no specification admits all |
| Filters.BuildFilter | src/main/java/com/example/demo/service/TaskService.java:39-49 | the filter step fails exactly on an unknown priority name and yields "match everything" exactly for the empty map |
| Filters.FilterSemantics | src/main/java/com/example/demo/service/TaskService.java:39-49 | the built filter admits a task exactly when the task satisfies every entry of the map |
| Filters.EmptyFilterAdmitsAll | src/main/java/com/example/demo/service/TaskService.java:49 | an empty map reduces to no specification, which admits every task |
| Filters.FilterOrderIndependent | src/main/java/com/example/demo/service/TaskService.java:39-49 | two iteration orders of the same map give the same outcome and admit the same tasks |
| Stores.Save | src/main/java/com/example/demo/entity/TaskEntity.java:17-19 | (assumed store rule) a stored id is replaced by the payload; otherwise the payload is inserted under the fresh id; content kept, other rows unchanged, validity preserved |
| Stores.Delete | src/main/java/com/example/demo/service/TaskService.java:66 | removes exactly the given key and leaves every other row unchanged |
| Stores.FindAll | src/main/java/com/example/demo/service/TaskService.java:49-50 | lists a task exactly when some listed row holds it and the specification admits it; without a specification every listed row is returned |
| Stores.FindAllSelects | src/main/java/com/example/demo/service/TaskService.java:49-50 | over a full listing the query returns exactly the stored tasks the specification admits |
| TaskService.GetTaskById | src/main/java/com/example/demo/service/TaskService.java:33-35 | present exactly when the id is a key; returns the stored task unchanged, whose id is the requested one |
| TaskService.GetAllTasks | src/main/java/com/example/demo/service/TaskService.java:37-51 | fails exactly on an unknown priority name, before any query; an empty map lists every row |
| TaskService.GetAllTasksSelects | src/main/java/com/example/demo/service/TaskService.java:37-51 | a valid filter returns exactly the stored tasks satisfying every entry |
| TaskService.EmptyFilterReturnsAll | src/main/java/com/example/demo/service/TaskService.java:39-50 | the empty map returns every stored task and nothing else |
| TaskService.CreateTask | src/main/java/com/example/demo/service/TaskService.java:53-55 | a new candidate gets an unused id and its content is stored; a candidate carrying a stored id replaces that row; reading the returned id gives the saved task; other rows unchanged |
| TaskService.CreateGetDelete | src/main/java/com/example/demo/service/TaskService.java:53-70 | create, then read by the returned id, gives the candidate's content; deleting it restores the original store |
| TaskService.CreateScenarioWithStoredId | src/main/java/com/example/demo/service/TaskService.java:53-55 | a create whose body carries a stored id overwrites that task and adds no row |
| TaskService.CreateTaskFresh | src/main/java/com/example/demo/service/TaskService.java:53-55 | intended create: the client id is ignored; the candidate's content becomes a new row under an unused id and every existing row is unchanged |
| TaskService.CreateAgreesOnNewCandidates | src/main/java/com/example/demo/service/TaskService.java:53-55 | for a candidate whose id is not stored, the written and the intended create give the same result |
| TaskService.UpdateTask | src/main/java/com/example/demo/service/TaskService.java:57-61 | absent path id: empty result and no change; present: the payload itself is saved and returned, with no merge onto the existing row, under its own id if stored and the fresh id otherwise; only the saved row changes |
| TaskService.UpdateIgnoresPathId | src/main/java/com/example/demo/service/TaskService.java:57-61 | the path id is only an existence gate: any two existing path ids give the same update |
| TaskService.UpdateWithoutIdInserts | src/main/java/com/example/demo/service/TaskService.java:57-61 | a payload without an id leaves the path's task as it was and inserts a new row |
| TaskService.UpdateScenarioAsWritten | src/test/java/com/example/demo/integration/IntegrationTest.java:88-113 | the update scenario leaves task 1 not completed and LOW, and adds task 2 |
| TaskService.UpdateTaskAtPath | src/main/java/com/example/demo/service/TaskService.java:57-61 | intended update: the path's row takes the payload's content and keeps its id; keys and other rows unchanged |
| TaskService.UpdateAtPathThenGet | src/main/java/com/example/demo/service/TaskService.java:57-61 | after the intended update, reading the path id gives the payload's content; the payload's id is irrelevant |
| TaskService.UpdateScenarioAtPath | src/test/java/com/example/demo/integration/IntegrationTest.java:88-113 | under the intended update, task 1 becomes completed and HIGH with no new row |
| TaskService.DeleteTask | src/main/java/com/example/demo/service/TaskService.java:63-70 | present: returns the pre-deletion task and removes only that key; absent: empty and no change |
| TaskService.DeleteTwice | src/main/java/com/example/demo/service/TaskService.java:63-70 | a second delete returns empty and changes nothing; the deleted id reads as absent |
| SortDirections.GetSortDirection | src/main/java/com/example/demo/util/SortDirection.java:7-9 | ASC gives "asc", DESC gives "desc"; upper-casing the token gives back the member name |
| SortDirections.ValueOf | src/main/java/com/example/demo/util/SortDirection.java:3-5 | exactly "ASC" and "DESC" name a member, and each names the member it spells |
| SortDirections.GetSortDirectionInjective | src/main/java/com/example/demo/util/SortDirection.java:7-9 | distinct members give distinct tokens |
| SortDirections.DirectionTokenRoundTrip | src/main/java/com/example/demo/controller/TaskController.java:47 | upper-casing the token and looking it up gives back the member that produced it |
| SortDirections.DirectionParam | src/main/java/com/example/demo/controller/TaskController.java:41 | no parameter means ASC; a given parameter must be an exact member name |
| Query.ListTasksAsWritten | src/main/java/com/example/demo/controller/TaskController.java:39-47 | the endpoint converts the direction, then hands every request parameter to the filter; fails exactly on a direction that is no member name or an unknown priority name |
| Query.SortDirectionFiltersCompleted | src/main/java/com/example/demo/controller/TaskController.java:40-41 | as written, an accepted `sortDirection` parameter restricts the listing to tasks whose completed flag equals the parsed direction, so no completed task is listed |
| Query.CompletedQueryAsWritten | src/main/java/com/example/demo/controller/TaskController.java:39-47 | `completed=true&sortDirection=DESC` over one completed task lists nothing |
| Query.LowerCaseDirectionRejected | src/main/java/com/example/demo/controller/TaskController.java:41 | `sortDirection=desc` is not a member name, so both listings reject the request |
| Query.ListTasks | src/main/java/com/example/demo/controller/TaskController.java:39-47 | intended listing: the direction is converted and the sort parameters are dropped from the filter; fails exactly on a direction that is no member name or an unknown priority name |
| Query.ListTasksSelects | src/main/java/com/example/demo/controller/TaskController.java:39-47 | with an accepted direction and a valid filter, the intended listing returns exactly the stored tasks satisfying every non-sort parameter |
| Query.CompletedQueryIntended | src/main/java/com/example/demo/controller/TaskController.java:39-47 | the same request under the intended listing returns the completed task |

## Left out

- Persistence engine: the JPA repository, `Specification`/`CriteriaBuilder`, transactions and id generation. It is replaced by the map store and the assumed save rule above. The positive, unused `nextId` is an assumption about the generator, not a verified fact.
- Ordering: `findAll(spec, sort)` sorts by a `SortField` whose source is not part of this model. The sorted listing is a parameter of the query.
- HTTP transport: mapping empty results to 404, response bodies, and the API-key gate (`SecurityConfig.java`). API documentation (`OpenApiConfig.java`) is left out too.
- Subtasks: `SubTaskEntity.java` is not referenced from `TaskEntity`, and no code reconciles subtask collections. There is no behaviour to model.
- Integer width: ids are Java `int`. The model uses unbounded integers, and generator overflow is not modelled.
- Null strings: a null description or filter value is not distinguished from a string. `parseBoolean(null)` and `valueOf(null)` are not modelled.
- Case mapping is ASCII-only. This is exact where the core uses it: the one case-insensitive comparison against user input is `parseBoolean` against "true", and no non-ASCII character case-maps to t, r, u or e. "ASC" and "DESC" are only ever cased by the program itself.
- Query.ListTasksAsWritten: the endpoint also converts `sortField` to a `SortField` before the service runs, and an unknown value rejects the request. `SortField` is not part of this model, so that rejection is not modelled.
- Query.ListTasks: the same `sortField` conversion and rejection is not modelled, for the same reason.
- SortDirections.DirectionParam: the web framework's string-to-enum conversion also trims the value and treats an empty value as absent. That is not modelled.
- SortDirections.DirectionTokenRoundTrip: the store's own direction enum is identified with `SortDirection`, whose member names it shares.

## Findings

| source | as written | input that shows it | evidently intended | confidence | as-written member | corrected member |
|---|---|---|---|---|---|---|
| src/main/java/com/example/demo/service/TaskService.java:57-61 | `updateTask` saves the payload entity, so the payload's own id picks the row written. A body without an id is a new entity and is inserted. | The store holds only task 1 (not completed, LOW). PUT /task/1 with body `{description: "Task 1", completed: true, priority: HIGH}` and no id. Task 1 is unchanged and a task 2 appears. The integration test at IntegrationTest.java:88-113 expects task 1 to become completed and HIGH. | Write the payload's content to the row the path id names | medium: depends on the assumed save rule; not executed | TaskService.UpdateScenarioAsWritten | TaskService.UpdateTaskAtPath |
| src/main/java/com/example/demo/controller/TaskController.java:40-42 | The filter `Map` binds every request parameter, including `sortDirection` and `sortField`. Each non-"priority" key becomes a completed filter. | `GET /task?completed=true&sortDirection=DESC` over one completed task. "DESC" parses as false, so the filter asks for completed = true AND completed = false, and nothing is listed. | Only the filter parameters reach the filter | high: documented binding of a map-typed request parameter; not executed | Query.CompletedQueryAsWritten | Query.ListTasks |
| src/main/java/com/example/demo/service/TaskService.java:53-55 | `createTask` saves the candidate as given, so a body carrying the id of a stored task overwrites that task. | Task 1 exists. POST /task with body `{id: 1, description: "other", completed: true, priority: HIGH}`. Task 1 takes the body's content and no task is added. The id is declared store-generated at TaskEntity.java:17-19. | Ignore the client's id and always insert a new row | low: depends on the assumed save rule; not executed | TaskService.CreateScenarioWithStoredId | TaskService.CreateTaskFresh |
