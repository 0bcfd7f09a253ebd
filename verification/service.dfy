/** The task service: filtered listing, lookup, create, update and delete,
    each a pure function of the store. Mutations return the service's
    result together with the store after the call. */
module TaskService {
  import opened Wrappers
  import opened Tasks
  import opened Filters
  import opened Stores

  /** `getTaskById`: the stored task, or empty; the store is only read. */
  function GetTaskById(s: Store, id: int): (r: Option<Task>)
    ensures r.Some? <==> id in s
    ensures r.Some? ==> r.value == s[id]
    ensures Valid(s) && r.Some? ==> r.value.id == id
  {
    if id in s then Some(s[id]) else None
  }

  /** `getAllTasks`: build the filter from the map's entries (`keys` is the
      map's iteration order), then ask the store for the admitted rows in
      `order`, the store's sorted listing. An unknown priority name fails
      before any query is issued. */
  function GetAllTasks(s: Store, filter: map<string, string>, keys: seq<string>, order: seq<int>)
    : (r: Result<seq<Task>, Error>)
    requires Enumerates(keys, filter)
    requires forall i :: 0 <= i < |order| ==> order[i] in s
    ensures r.Failure? <==> !ValidFilter(filter)
    ensures r.Success? ==> |r.value| <= |order|
    ensures r.Success? && |filter| == 0 ==> |r.value| == |order|
  {
    var spec :- BuildFilter(filter, keys);
    Success(FindAll(s, spec, order))
  }

  /** A valid filter returns exactly the stored tasks that satisfy every
      entry of the map, whatever the map's iteration order. */
  lemma GetAllTasksSelects(s: Store, filter: map<string, string>, keys: seq<string>, order: seq<int>, t: Task)
    requires Valid(s) && Listing(order, s) && Enumerates(keys, filter)
    requires ValidFilter(filter)
    ensures GetAllTasks(s, filter, keys, order).Success?
    ensures t in GetAllTasks(s, filter, keys, order).value <==> Stored(s, t) && SatisfiesAll(filter, t)
  {
    FilterSemantics(filter, keys, t);
    FindAllSelects(s, BuildFilter(filter, keys).value, order, t);
  }

  /** An empty filter map returns every stored task. */
  lemma EmptyFilterReturnsAll(s: Store, keys: seq<string>, order: seq<int>, t: Task)
    requires Valid(s) && Listing(order, s) && Enumerates(keys, map[])
    ensures GetAllTasks(s, map[], keys, order).Success?
    ensures |GetAllTasks(s, map[], keys, order).value| == |order|
    ensures t in GetAllTasks(s, map[], keys, order).value <==> Stored(s, t)
  {
  }

  /** `createTask`: a save of the candidate. */
  function CreateTask(s: Store, e: Task, nextId: int): (r: (Task, Store))
    requires FreshId(s, nextId)
    ensures SameContent(r.0, e)
    ensures e.id !in s ==> r.0.id !in s && r.1.Keys == s.Keys + {r.0.id}
    ensures e.id in s ==> r.0 == e && r.1.Keys == s.Keys
    ensures GetTaskById(r.1, r.0.id) == Some(r.0)
    ensures forall k :: k in s && k != r.0.id ==> r.1[k] == s[k]
    ensures Valid(s) ==> Valid(r.1)
  {
    Save(s, e, nextId)
  }

  /** A create whose body carries the id of a stored task overwrites that
      task instead of adding one: task 1 takes the body's content and no
      row is added. */
  lemma CreateScenarioWithStoredId()
    ensures var s := map[1 := Task(1, "task 1", false, Some(LOW))];
      var r := CreateTask(s, Task(1, "other", true, Some(HIGH)), 2);
      r.1 == map[1 := Task(1, "other", true, Some(HIGH))]
  {
  }

  /** `createTask` as evidently intended: the client's id is ignored and the
      candidate always becomes a new row under a store-assigned id. */
  function CreateTaskFresh(s: Store, e: Task, nextId: int): (r: (Task, Store))
    requires FreshId(s, nextId)
    ensures SameContent(r.0, e)
    ensures r.0.id !in s
    ensures r.1.Keys == s.Keys + {r.0.id}
    ensures GetTaskById(r.1, r.0.id) == Some(r.0)
    ensures forall k :: k in s ==> r.1[k] == s[k]
    ensures Valid(s) ==> Valid(r.1)
  {
    var saved := e.(id := nextId);
    (saved, s[nextId := saved])
  }

  /** On a candidate whose id is not stored (in particular id 0) the
      written and the intended create agree. */
  lemma CreateAgreesOnNewCandidates(s: Store, e: Task, nextId: int)
    requires FreshId(s, nextId) && e.id !in s
    ensures CreateTask(s, e, nextId) == CreateTaskFresh(s, e, nextId)
  {
  }

  /** `updateTask` as written: the path id only gates on existence; the
      payload itself is saved, so the row written is the one the payload's
      own id selects. */
  function UpdateTask(s: Store, id: int, e: Task, nextId: int): (r: (Option<Task>, Store))
    requires FreshId(s, nextId)
    ensures id !in s ==> r.0 == None && r.1 == s
    ensures id in s ==> r.0.Some? && SameContent(r.0.value, e)
    ensures id in s ==> r.0.value.id in r.1 && r.1[r.0.value.id] == r.0.value
    ensures id in s && e.id in s ==> r == (Some(e), s[e.id := e])
    ensures id in s && e.id != id ==> id in r.1 && r.1[id] == s[id]
    ensures id in s && e.id !in s ==> r.0.value.id == nextId
    ensures id in s ==> r.1.Keys == s.Keys + {r.0.value.id}
    ensures id in s ==> forall k :: k in s && k != r.0.value.id ==> r.1[k] == s[k]
    ensures Valid(s) ==> Valid(r.1)
  {
    match GetTaskById(s, id)
    case None => (None, s)
    case Some(_) =>
      var (saved, s') := Save(s, e, nextId);
      (Some(saved), s')
  }

  /** Which existing id the path names makes no difference to the update. */
  lemma UpdateIgnoresPathId(s: Store, a: int, b: int, e: Task, nextId: int)
    requires FreshId(s, nextId)
    requires a in s && b in s
    ensures UpdateTask(s, a, e, nextId) == UpdateTask(s, b, e, nextId)
  {
  }

  /** A payload without an id (id 0) does not touch the task the path
      names: it is inserted as a new row beside it. */
  lemma UpdateWithoutIdInserts(s: Store, id: int, e: Task, nextId: int)
    requires Valid(s) && FreshId(s, nextId)
    requires id in s && e.id == 0
    ensures UpdateTask(s, id, e, nextId).1[id] == s[id]
    ensures UpdateTask(s, id, e, nextId).1.Keys == s.Keys + {nextId}
    ensures UpdateTask(s, id, e, nextId).0 == Some(e.(id := nextId))
  {
  }

  /** The integration scenario: task 1 is LOW and not completed; a PUT to
      /task/1 with a body that carries no id leaves task 1 as it was. */
  lemma UpdateScenarioAsWritten()
    ensures var s := map[1 := Task(1, "Task 1", false, Some(LOW))];
      var r := UpdateTask(s, 1, Task(0, "Task 1", true, Some(HIGH)), 2);
      && GetTaskById(r.1, 1) == Some(Task(1, "Task 1", false, Some(LOW)))
      && GetTaskById(r.1, 2) == Some(Task(2, "Task 1", true, Some(HIGH)))
  {
  }

  /** `updateTask` as evidently intended: the payload's content is written
      to the row the path names, which keeps its id. */
  function UpdateTaskAtPath(s: Store, id: int, e: Task): (r: (Option<Task>, Store))
    ensures id !in s ==> r.0 == None && r.1 == s
    ensures r.1.Keys == s.Keys
    ensures id in s ==> r.0 == Some(r.1[id]) && r.1[id].id == id && SameContent(r.1[id], e)
    ensures forall k :: k in s && k != id ==> r.1[k] == s[k]
    ensures Valid(s) ==> Valid(r.1)
  {
    if id in s then
      var u := e.(id := id);
      (Some(u), s[id := u])
    else
      (None, s)
  }

  /** After the intended update, reading the path id gives the payload's
      content, and the payload's own id is irrelevant. */
  lemma UpdateAtPathThenGet(s: Store, id: int, e: Task, e': Task)
    requires id in s && SameContent(e, e')
    ensures GetTaskById(UpdateTaskAtPath(s, id, e).1, id) == Some(e.(id := id))
    ensures UpdateTaskAtPath(s, id, e) == UpdateTaskAtPath(s, id, e')
  {
  }

  /** The integration scenario under the intended update: task 1 becomes
      completed and HIGH. */
  lemma UpdateScenarioAtPath()
    ensures var s := map[1 := Task(1, "Task 1", false, Some(LOW))];
      var r := UpdateTaskAtPath(s, 1, Task(0, "Task 1", true, Some(HIGH)));
      && GetTaskById(r.1, 1) == Some(Task(1, "Task 1", true, Some(HIGH)))
      && r.1.Keys == {1}
  {
  }

  /** `deleteTask`: the pre-deletion task and the store without it, or empty
      and no change. */
  function DeleteTask(s: Store, id: int): (r: (Option<Task>, Store))
    ensures id !in s ==> r.0 == None && r.1 == s
    ensures id in s ==> r.0 == Some(s[id])
    ensures Valid(s) ==> r.1.Keys == s.Keys - {id}
    ensures forall k :: k in r.1 ==> k in s && r.1[k] == s[k]
    ensures Valid(s) ==> Valid(r.1)
  {
    match GetTaskById(s, id)
    case None => (None, s)
    case Some(t) => (Some(t), Delete(s, t.id))
  }

  /** Deleting twice: the second call finds nothing and changes nothing, and
      the task can no longer be read. */
  lemma DeleteTwice(s: Store, id: int)
    requires Valid(s)
    ensures var s' := DeleteTask(s, id).1;
      && DeleteTask(s', id) == (None, s')
      && GetTaskById(s', id) == None
  {
  }

  /** Creating a new task and reading it back by the returned id yields the
      candidate's content; deleting it then leaves the store as it was. */
  lemma CreateGetDelete(s: Store, e: Task, nextId: int)
    requires Valid(s) && FreshId(s, nextId) && e.id !in s
    ensures var (saved, s') := CreateTask(s, e, nextId);
      && GetTaskById(s', saved.id).Some?
      && SameContent(GetTaskById(s', saved.id).value, e)
      && DeleteTask(s', saved.id) == (Some(saved), s)
  {
    var (saved, s') := CreateTask(s, e, nextId);
    assert DeleteTask(s', saved.id).1 == s;
  }
}
