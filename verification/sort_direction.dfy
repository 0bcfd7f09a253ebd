/** The two-member sort-direction enumeration and the lower-case token it
    hands to the store's sort. */
module SortDirections {
  import opened Wrappers
  import opened Text

  datatype SortDirection = ASC | DESC

  /** `Enum.name()`. */
  function Name(d: SortDirection): string {
    match d
    case ASC => "ASC"
    case DESC => "DESC"
  }

  /** `getSortDirection`: the member name in lower case. */
  function GetSortDirection(d: SortDirection): (r: string)
    ensures d == ASC ==> r == "asc"
    ensures d == DESC ==> r == "desc"
    ensures ToUpper(r) == Name(d)
  {
    ToLower(Name(d))
  }

  /** `SortDirection.valueOf`: exact, case-sensitive match on a member name. */
  function ValueOf(s: string): (r: Option<SortDirection>)
    ensures r.Some? <==> s == "ASC" || s == "DESC"
    ensures r.Some? ==> Name(r.value) == s
  {
    if s == "ASC" then Some(ASC)
    else if s == "DESC" then Some(DESC)
    else None
  }

  /** Distinct members give distinct tokens. */
  lemma GetSortDirectionInjective(a: SortDirection, b: SortDirection)
    ensures GetSortDirection(a) == GetSortDirection(b) ==> a == b
  {
  }

  /** The store reads the token back by upper-casing it and looking the
      name up; that gives the member that produced it. */
  lemma DirectionTokenRoundTrip(d: SortDirection)
    ensures ValueOf(ToUpper(GetSortDirection(d))) == Some(d)
  {
  }

  /** The `sortDirection` request parameter: absent means ASC, present must
      be a member name. */
  function DirectionParam(raw: Option<string>): (r: Result<SortDirection, Error>)
    ensures raw.None? ==> r == Success(ASC)
    ensures raw.Some? ==> (r.Success? <==> raw.value == "ASC" || raw.value == "DESC")
    ensures raw.Some? && r.Success? ==> Name(r.value) == raw.value
  {
    match raw
    case None => Success(ASC)
    case Some(s) =>
      match ValueOf(s)
      case Some(d) => Success(d)
      case None => Failure(IllegalArgument(s))
  }
}
