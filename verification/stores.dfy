/** The task repository, abstracted to a finite map from id to task. Its
    save rule is an assumption about the persistence framework, which is not
    part of this model: a payload whose id is a stored key replaces that row
    as it is; any other payload (id 0, the "new" marker of a primitive id,
    or an id with no row) is inserted under an id the store assigns. */
module Stores {
  import opened Wrappers
  import opened Tasks
  import opened Filters

  type Store = map<int, Task>

  /** Every row is keyed by its own id, and assigned ids are positive. */
  predicate Valid(s: Store) {
    forall id :: id in s ==> id > 0 && s[id].id == id
  }

  /** `t` is a row of the store. */
  predicate Stored(s: Store, t: Task) {
    t.id in s && s[t.id] == t
  }

  /** An id the store's generator may hand out next. */
  predicate FreshId(s: Store, n: int) {
    n > 0 && n !in s
  }

  /** `save`: returns the saved entity and the new store. */
  function Save(s: Store, e: Task, nextId: int): (r: (Task, Store))
    requires FreshId(s, nextId)
    ensures SameContent(r.0, e)
    ensures e.id in s ==> r.0 == e
    ensures e.id !in s ==> r.0.id == nextId
    ensures r.1.Keys == s.Keys + {r.0.id}
    ensures r.1[r.0.id] == r.0
    ensures forall k :: k in s && k != r.0.id ==> r.1[k] == s[k]
    ensures Valid(s) ==> Valid(r.1)
  {
    var saved := if e.id in s then e else e.(id := nextId);
    (saved, s[saved.id := saved])
  }

  /** `delete` of a stored entity, by its key. */
  function Delete(s: Store, id: int): (r: Store)
    ensures r.Keys == s.Keys - {id}
    ensures forall k :: k in r ==> r[k] == s[k]
    ensures Valid(s) ==> Valid(r)
  {
    s - {id}
  }

  /** `order` is the store's listing of its rows in the requested sort
      order: every row exactly once. */
  predicate Listing(order: seq<int>, s: Store) {
    && (forall i :: 0 <= i < |order| ==> order[i] in s)
    && (forall i, j :: 0 <= i < j < |order| ==> order[i] != order[j])
    && (forall k :: k in s ==> k in order)
  }

  /** `findAll(spec, sort)`: the rows the specification admits, in the
      store's order. The sort itself is the store's business, so the order
      arrives as a parameter. */
  function FindAll(s: Store, spec: Option<Spec>, order: seq<int>): (r: seq<Task>)
    requires forall i :: 0 <= i < |order| ==> order[i] in s
    ensures |r| <= |order|
    ensures spec.None? ==> |r| == |order|
    ensures forall t :: t in r <==> exists i :: 0 <= i < |order| && s[order[i]] == t && Admits(spec, t)
    decreases |order|
  {
    if |order| == 0 then []
    else
      var rest := FindAll(s, spec, order[1..]);
      assert forall i :: 1 <= i < |order| ==> order[i] == order[1..][i - 1];
      assert forall i :: 0 <= i < |order| - 1 ==> order[1..][i] == order[i + 1];
      var t := s[order[0]];
      if Admits(spec, t) then [t] + rest else rest
  }

  /** Over a full listing, the query returns exactly the stored tasks the
      specification admits. */
  lemma FindAllSelects(s: Store, spec: Option<Spec>, order: seq<int>, t: Task)
    requires Valid(s) && Listing(order, s)
    ensures t in FindAll(s, spec, order) <==> Stored(s, t) && Admits(spec, t)
  {
  }
}
