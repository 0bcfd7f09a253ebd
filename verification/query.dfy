/** The listing endpoint's hand-off to the service. Its filter map is bound
    to every request parameter, so the two sort parameters, which the
    endpoint also binds separately, reach the service as filter entries. */
module Query {
  import opened Wrappers
  import opened Text
  import opened Tasks
  import opened Filters
  import opened Stores
  import opened TaskService
  import SortDirections

  const SortDirectionParam: string := "sortDirection"
  const SortFieldParam: string := "sortField"

  predicate IsSortParam(k: string) {
    k == SortDirectionParam || k == SortFieldParam
  }

  /** A task satisfies every request parameter other than the sort
      parameters. */
  predicate SatisfiesFilterParams(params: map<string, string>, t: Task) {
    forall k :: k in params && !IsSortParam(k) ==> EntryAccepts(k, params[k], t)
  }

  /** The `sortDirection` parameter as the endpoint binds it: absent, or
      present with its value. */
  function DirectionValue(params: map<string, string>): Option<string> {
    if SortDirectionParam in params then Some(params[SortDirectionParam]) else None
  }

  /** The endpoint converts `sortDirection` to the enumeration before the
      service runs; a value that names no member rejects the request. */
  predicate ValidDirection(params: map<string, string>) {
    SortDirectionParam in params ==> SortDirections.ValueOf(params[SortDirectionParam]).Some?
  }

  /** The listing as written: the direction is converted first, then all
      request parameters form the filter map. */
  function ListTasksAsWritten(s: Store, params: map<string, string>, keys: seq<string>, order: seq<int>)
    : (r: Result<seq<Task>, Error>)
    requires Enumerates(keys, params)
    requires forall i :: 0 <= i < |order| ==> order[i] in s
    ensures r.Failure? <==> !ValidDirection(params) || !ValidFilter(params)
  {
    var _ :- SortDirections.DirectionParam(DirectionValue(params));
    GetAllTasks(s, params, keys, order)
  }

  /** As written, a `sortDirection` parameter acts as a completed filter:
      only tasks whose flag equals whether the direction reads "true" are
      listed, and since an accepted direction is "ASC" or "DESC", no
      completed task is ever listed. */
  lemma SortDirectionFiltersCompleted(
    s: Store, params: map<string, string>, keys: seq<string>, order: seq<int>, t: Task)
    requires Valid(s) && Listing(order, s) && Enumerates(keys, params)
    requires ValidDirection(params) && ValidFilter(params)
    requires SortDirectionParam in params
    ensures ListTasksAsWritten(s, params, keys, order).Success?
    ensures t in ListTasksAsWritten(s, params, keys, order).value ==>
      t.completed == (ToLower(params[SortDirectionParam]) == "true")
    ensures t in ListTasksAsWritten(s, params, keys, order).value ==> !t.completed
  {
    GetAllTasksSelects(s, params, keys, order, t);
    var d := params[SortDirectionParam];
    assert d == "ASC" || d == "DESC";
    assert ToLower(d)[0] != 't';
  }

  /** `GET /task?completed=true&sortDirection=DESC` on a store holding one
      completed task lists nothing. */
  lemma CompletedQueryAsWritten()
    ensures ListTasksAsWritten(
      map[1 := Task(1, "task 2", true, Some(HIGH))],
      map["completed" := "true", SortDirectionParam := "DESC"],
      ["completed", SortDirectionParam], [1]) == Success([])
  {
    var params := map["completed" := "true", SortDirectionParam := "DESC"];
    var t := Task(1, "task 2", true, Some(HIGH));
    assert ToLower("DESC") != "true" by {
      assert ToLower("DESC")[0] == 'd';
    }
    SortDirectionFiltersCompleted(map[1 := t], params, ["completed", SortDirectionParam], [1], t);
  }

  /** A direction that is not an exact member name, such as "desc",
      rejects the request before anything is listed, as written and as
      intended. */
  lemma LowerCaseDirectionRejected(s: Store, order: seq<int>)
    requires forall i :: 0 <= i < |order| ==> order[i] in s
    ensures ListTasksAsWritten(s, map[SortDirectionParam := "desc"], [SortDirectionParam], order).Failure?
    ensures ListTasks(s, map[SortDirectionParam := "desc"], [SortDirectionParam], order).Failure?
  {
  }

  /** The filter map without the sort parameters. */
  function FilterParams(params: map<string, string>): (r: map<string, string>)
    ensures forall k :: k in r <==> k in params && !IsSortParam(k)
    ensures forall k :: k in r ==> r[k] == params[k]
  {
    map k | k in params && !IsSortParam(k) :: params[k]
  }

  /** The iteration order with the sort parameters dropped. */
  function FilterKeys(keys: seq<string>): (r: seq<string>)
    ensures forall x :: x in r <==> x in keys && !IsSortParam(x)
    ensures |r| <= |keys|
  {
    if |keys| == 0 then []
    else if IsSortParam(keys[0]) then FilterKeys(keys[1..])
    else [keys[0]] + FilterKeys(keys[1..])
  }

  /** Dropping the sort parameters from the map and from its iteration
      order leaves an iteration order of the smaller map. */
  lemma EnumeratesFiltered(params: map<string, string>, keys: seq<string>)
    requires Enumerates(keys, params)
    ensures Enumerates(FilterKeys(keys), FilterParams(params))
  {
    var fkeys := FilterKeys(keys);
    assert forall i :: 0 <= i < |fkeys| ==> fkeys[i] in fkeys;
    assert forall i :: 0 <= i < |keys| ==> keys[i] in keys;
  }

  /** The listing as evidently intended: the direction is converted first,
      and the sort parameters are not filters. */
  function ListTasks(s: Store, params: map<string, string>, keys: seq<string>, order: seq<int>)
    : (r: Result<seq<Task>, Error>)
    requires Enumerates(keys, params)
    requires forall i :: 0 <= i < |order| ==> order[i] in s
    ensures r.Failure? <==> !ValidDirection(params) || !ValidFilter(params)
  {
    var _ :- SortDirections.DirectionParam(DirectionValue(params));
    EnumeratesFiltered(params, keys);
    GetAllTasks(s, FilterParams(params), FilterKeys(keys), order)
  }

  /** The intended listing returns exactly the stored tasks that satisfy
      every parameter other than the sort parameters. */
  lemma ListTasksSelects(s: Store, params: map<string, string>, keys: seq<string>, order: seq<int>, t: Task)
    requires Valid(s) && Listing(order, s) && Enumerates(keys, params)
    requires ValidDirection(params) && ValidFilter(params)
    ensures ListTasks(s, params, keys, order).Success?
    ensures t in ListTasks(s, params, keys, order).value <==> Stored(s, t) && SatisfiesFilterParams(params, t)
  {
    EnumeratesFiltered(params, keys);
    GetAllTasksSelects(s, FilterParams(params), FilterKeys(keys), order, t);
  }

  /** The same request under the intended listing returns the completed
      task. */
  lemma CompletedQueryIntended()
    ensures ListTasks(
      map[1 := Task(1, "task 2", true, Some(HIGH))],
      map["completed" := "true", SortDirectionParam := "DESC"],
      ["completed", SortDirectionParam], [1]) == Success([Task(1, "task 2", true, Some(HIGH))])
  {
    var s := map[1 := Task(1, "task 2", true, Some(HIGH))];
    var params := map["completed" := "true", SortDirectionParam := "DESC"];
    var keys := ["completed", SortDirectionParam];
    var t := Task(1, "task 2", true, Some(HIGH));
    assert Valid(s) && Listing([1], s);
    assert Enumerates(keys, params);
    assert ValidFilter(params) && ValidDirection(params);
    assert SatisfiesFilterParams(params, t) by {
      forall k | k in params && !IsSortParam(k)
        ensures EntryAccepts(k, params[k], t)
      {
        assert k == "completed";
        assert ToLower("true") == "true";
      }
    }
    ListTasksSelects(s, params, keys, [1], t);
    var r := ListTasks(s, params, keys, [1]).value;
    assert t in r;
    assert |r| <= 1;
    assert r == [t];
  }
}
