/**
 * The data structures of the GoRest "users" collection: the user record, the
 * pagination metadata, a page of results, the sortable keys and the listing
 * query parameters.
 */
module GoRest {
  import opened Wrappers
  import JsRuntime

  /** A user as the server returns it. */
  datatype User = User(id: int, name: string, email: string, gender: string, status: string)

  /**
   * A user object in which every field may be missing (`Partial<User>`),
   * the body of an update request.
   */
  datatype PartialUser = PartialUser(
    id: Option<int>,
    name: Option<string>,
    email: Option<string>,
    gender: Option<string>,
    status: Option<string>)

  /**
   * Pagination metadata. The declared field type is a number; the value is
   * whatever the corresponding response header holds, and `None` stands for
   * the `undefined` that a missing header yields.
   */
  datatype Pagination = Pagination(
    totalResults: Option<int>,
    totalPages: Option<int>,
    currentPage: Option<int>,
    resultsPerPage: Option<int>)

  /** A page of users with optional pagination metadata. */
  datatype UserResults = UserResults(users: seq<User>, pagination: Option<Pagination>)

  /** `keyof User`: the five property names of a user. */
  datatype UserKey = Id | Name | Email | Gender | Status

  /** The inclusive range of results per page, 1 through 100. */
  type PageRange = n: int | 1 <= n <= 100 witness 1

  /** Query parameters of a listing request; both may be absent. */
  datatype PageParam = PageParam(page: Option<int>, perPage: Option<PageRange>)

  /** The property name a key stands for. */
  function KeyName(k: UserKey): string {
    match k
    case Id => "id"
    case Name => "name"
    case Email => "email"
    case Gender => "gender"
    case Status => "status"
  }

  /** The key a property name denotes, if it is one of the five. */
  function ParseKey(s: string): (r: Option<UserKey>)
    ensures r.Some? <==> s in {"id", "name", "email", "gender", "status"}
  {
    if s == "id" then Some(Id)
    else if s == "name" then Some(Name)
    else if s == "email" then Some(Email)
    else if s == "gender" then Some(Gender)
    else if s == "status" then Some(Status)
    else None
  }

  /** Property names and keys are in one-to-one correspondence. */
  lemma KeyNameRoundTrip(k: UserKey, s: string)
    ensures ParseKey(KeyName(k)) == Some(k)
    ensures ParseKey(s) == Some(k) ==> KeyName(k) == s
  {
  }

  /** The value a comparison on a key sees: `id` is a number, the other keys are strings. */
  datatype KeyValue = NumberKey(n: int) | StringKey(s: string)

  function KeyOf(u: User, k: UserKey): (r: KeyValue)
    ensures r.NumberKey? <==> k == Id
    ensures k == Id ==> r.n == u.id
    ensures k == Name ==> r == StringKey(u.name)
    ensures k == Email ==> r == StringKey(u.email)
    ensures k == Gender ==> r == StringKey(u.gender)
    ensures k == Status ==> r == StringKey(u.status)
  {
    match k
    case Id => NumberKey(u.id)
    case Name => StringKey(u.name)
    case Email => StringKey(u.email)
    case Gender => StringKey(u.gender)
    case Status => StringKey(u.status)
  }

  /** JavaScript's `<` on two key values of the same kind. */
  predicate KeyLess(a: KeyValue, b: KeyValue) {
    match (a, b)
    case (NumberKey(x), NumberKey(y)) => x < y
    case (StringKey(x), StringKey(y)) => JsRuntime.StringLess(x, y)
    case _ => false
  }
}
