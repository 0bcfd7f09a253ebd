/** Turning a free-form filter map into one query predicate: each entry
    becomes an equality test, and the tests are AND-reduced. */
module Filters {
  import opened Wrappers
  import opened Text
  import opened Tasks

  /** The filter key that selects the priority test; every other key
      selects the completed test. */
  const PriorityKey: string := "priority"

  /** A query specification: the two equality tests and their conjunction. */
  datatype Spec =
    | PriorityEquals(priority: Priority)
    | CompletedEquals(completed: bool)
    | And(left: Spec, right: Spec)

  predicate Holds(spec: Spec, t: Task) {
    match spec
    // a SQL equality against a NULL column is not true
    case PriorityEquals(p) => t.priority == Some(p)
    case CompletedEquals(c) => t.completed == c
    case And(l, r) => Holds(l, t) && Holds(r, t)
  }

  /** `priorityEquals` and `completedEquals`: the priority test accepts a
      task exactly when its priority is the given member, so a task without
      a priority passes no priority test; every task passes exactly one of
      the two completed tests. */
  lemma EqualityTests(t: Task)
    ensures forall p :: Holds(PriorityEquals(p), t) <==> t.priority == Some(p)
    ensures t.priority.None? ==> forall p :: !Holds(PriorityEquals(p), t)
    ensures t.priority.Some? ==> exists p :: Holds(PriorityEquals(p), t)
    ensures Holds(CompletedEquals(true), t) != Holds(CompletedEquals(false), t)
  {
  }

  /** A `null` specification (`None`) places no restriction on the query. */
  predicate Admits(spec: Option<Spec>, t: Task) {
    spec.None? || Holds(spec.value, t)
  }

  /** `Boolean.parseBoolean`: true exactly for "true" in any letter case. */
  predicate ParseBoolean(s: string) {
    EqualsIgnoreCase(s, "true")
  }

  /** What one filter entry asks of a task, stated without the parsers: a
      priority entry names the task's priority, any other entry asks for
      `completed` to equal whether the value lower-cases to "true". */
  predicate EntryAccepts(key: string, value: string, t: Task) {
    if key == PriorityKey then t.priority.Some? && PriorityName(t.priority.value) == value
    else t.completed == (ToLower(value) == "true")
  }

  /** A task satisfies a filter map when it satisfies every entry. */
  predicate SatisfiesAll(filter: map<string, string>, t: Task) {
    forall k :: k in filter ==> EntryAccepts(k, filter[k], t)
  }

  /** The filter map is valid when its priority entry, if any, names a member. */
  predicate ValidFilter(filter: map<string, string>) {
    PriorityKey in filter ==> PriorityValueOf(filter[PriorityKey]).Some?
  }

  /** `keys` is an iteration order of the map's entry set: it lists keys of
      the map and no key is missed. */
  predicate Enumerates(keys: seq<string>, filter: map<string, string>) {
    && (forall i :: 0 <= i < |keys| ==> keys[i] in filter)
    && (forall k :: k in filter ==> k in keys)
  }

  lemma ParseBooleanSpelling(s: string)
    ensures ParseBoolean(s) <==>
      && |s| == 4
      && (s[0] == 't' || s[0] == 'T')
      && (s[1] == 'r' || s[1] == 'R')
      && (s[2] == 'u' || s[2] == 'U')
      && (s[3] == 'e' || s[3] == 'E')
  {
  }

  /** `parseBoolean` agrees with comparing the lower-cased value to "true". */
  lemma ParseBooleanIsLowerTrue(s: string)
    ensures ParseBoolean(s) <==> ToLower(s) == "true"
  {
  }

  /** The specification one filter entry produces (the lambda of the
      stream's `map` step). */
  function EntrySpec(key: string, value: string): (r: Result<Spec, Error>)
    ensures r.Failure? <==> key == PriorityKey && PriorityValueOf(value).None?
    ensures r.Success? ==> forall t :: Holds(r.value, t) <==> EntryAccepts(key, value, t)
  {
    ParseBooleanIsLowerTrue(value);
    if key == PriorityKey then
      match PriorityValueOf(value)
      case Some(p) => Success(PriorityEquals(p))
      case None => Failure(IllegalArgument(value))
    else
      Success(CompletedEquals(ParseBoolean(value)))
  }

  /** The stream's `map` and `collect` steps: one specification per entry, in
      iteration order; the first entry that fails to parse aborts the list. */
  function BuildSpecs(filter: map<string, string>, keys: seq<string>): (r: Result<seq<Spec>, Error>)
    requires forall i :: 0 <= i < |keys| ==> keys[i] in filter
    ensures r.Failure? <==> exists i :: 0 <= i < |keys| && EntrySpec(keys[i], filter[keys[i]]).Failure?
    ensures r.Success? ==>
      && |r.value| == |keys|
      && forall i :: 0 <= i < |keys| ==> EntrySpec(keys[i], filter[keys[i]]) == Success(r.value[i])
    decreases |keys|
  {
    if |keys| == 0 then Success([])
    else
      var head :- EntrySpec(keys[0], filter[keys[0]]);
      var tail :- BuildSpecs(filter, keys[1..]);
      assert forall i :: 1 <= i < |keys| ==> keys[i] == keys[1..][i - 1];
      Success([head] + tail)
  }

  /** `Stream.reduce(Specification::and)`: a left fold, empty for an empty
      list. */
  function Reduce(specs: seq<Spec>): (r: Option<Spec>)
    ensures r.None? <==> |specs| == 0
  {
    if |specs| == 0 then None
    else if |specs| == 1 then Some(specs[0])
    else Some(And(Reduce(specs[..|specs| - 1]).value, specs[|specs| - 1]))
  }

  /** The reduced specification admits a task exactly when every listed
      specification holds of it; the empty list admits everything. */
  lemma {:induction false} ReduceIsConjunction(specs: seq<Spec>, t: Task)
    ensures Admits(Reduce(specs), t) <==> forall i :: 0 <= i < |specs| ==> Holds(specs[i], t)
  {
    if |specs| > 1 {
      var init := specs[..|specs| - 1];
      ReduceIsConjunction(init, t);
      assert forall i :: 0 <= i < |init| ==> init[i] == specs[i];
    }
  }

  /** An enumeration is empty exactly when the map is. */
  lemma EnumeratesEmpty(keys: seq<string>, filter: map<string, string>)
    requires Enumerates(keys, filter)
    ensures |keys| == 0 <==> |filter| == 0
  {
    if |keys| != 0 {
      assert keys[0] in filter;
    }
    if |filter| != 0 {
      var k :| k in filter;
      assert k in keys;
    }
  }

  /** The whole filter step of the query: the reduced specification, or the
      error of an unparseable priority. */
  function BuildFilter(filter: map<string, string>, keys: seq<string>): (r: Result<Option<Spec>, Error>)
    requires Enumerates(keys, filter)
    ensures r.Failure? <==> !ValidFilter(filter)
    ensures r.Success? ==> (r.value.None? <==> |filter| == 0)
  {
    var specs :- BuildSpecs(filter, keys);
    EnumeratesEmpty(keys, filter);
    Success(Reduce(specs))
  }

  /** The filter admits a task exactly when the task satisfies every entry
      of the map, and it fails exactly on an unknown priority name. */
  lemma FilterSemantics(filter: map<string, string>, keys: seq<string>, t: Task)
    requires Enumerates(keys, filter)
    ensures BuildFilter(filter, keys).Failure? <==> !ValidFilter(filter)
    ensures BuildFilter(filter, keys).Success? ==>
      (Admits(BuildFilter(filter, keys).value, t) <==> SatisfiesAll(filter, t))
  {
    var r := BuildFilter(filter, keys);
    if r.Success? {
      var specs := BuildSpecs(filter, keys).value;
      ReduceIsConjunction(specs, t);
      if SatisfiesAll(filter, t) {
        forall i | 0 <= i < |specs|
          ensures Holds(specs[i], t)
        {
          assert EntryAccepts(keys[i], filter[keys[i]], t);
        }
      }
      if Admits(r.value, t) {
        forall k | k in filter
          ensures EntryAccepts(k, filter[k], t)
        {
          var i :| 0 <= i < |keys| && keys[i] == k;
          assert Holds(specs[i], t);
        }
      }
    }
  }

  /** An empty filter map reduces to no specification, which admits every
      task. */
  lemma EmptyFilterAdmitsAll(keys: seq<string>, t: Task)
    requires Enumerates(keys, map[])
    ensures BuildFilter(map[], keys) == Success(None)
    ensures Admits(BuildFilter(map[], keys).value, t)
  {
  }

  /** The iteration order of the map changes neither whether the filter
      fails nor which tasks it admits. */
  lemma FilterOrderIndependent(filter: map<string, string>, keys1: seq<string>, keys2: seq<string>, t: Task)
    requires Enumerates(keys1, filter) && Enumerates(keys2, filter)
    ensures BuildFilter(filter, keys1).Success? == BuildFilter(filter, keys2).Success?
    ensures BuildFilter(filter, keys1).Success? ==>
      (Admits(BuildFilter(filter, keys1).value, t) <==> Admits(BuildFilter(filter, keys2).value, t))
  {
    FilterSemantics(filter, keys1, t);
    FilterSemantics(filter, keys2, t);
  }
}
