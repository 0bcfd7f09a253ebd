/** The task entity and its priority enumeration. */
module Tasks {
  import opened Wrappers

  /** The priority enumeration; its source file is not part of this model.
      LOW and HIGH are the members the tests use; MEDIUM is an assumed third
      member. */
  datatype Priority = LOW | MEDIUM | HIGH

  /** `Enum.name()`: the symbolic name, which is also the stored column value. */
  function PriorityName(p: Priority): string {
    match p
    case LOW => "LOW"
    case MEDIUM => "MEDIUM"
    case HIGH => "HIGH"
  }

  /** `TaskPriority.valueOf`: exact, case-sensitive match on a member name;
      anything else is an error (`None` here). */
  function PriorityValueOf(s: string): (r: Option<Priority>)
    ensures r.Some? ==> PriorityName(r.value) == s
    ensures forall p :: PriorityName(p) == s ==> r == Some(p)
  {
    if s == "LOW" then Some(LOW)
    else if s == "MEDIUM" then Some(MEDIUM)
    else if s == "HIGH" then Some(HIGH)
    else None
  }

  /** A task. `priority` is a nullable enum field in the entity, so it is an
      `Option`; `completed` is a primitive boolean and never null. */
  datatype Task = Task(id: int, description: string, completed: bool, priority: Option<Priority>)

  /** The fields a client controls, i.e. everything but the id. */
  predicate SameContent(a: Task, b: Task) {
    a.description == b.description && a.completed == b.completed && a.priority == b.priority
  }
}
