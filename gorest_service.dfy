/**
 * The paged users service: sorting, and for each remote operation the
 * request it builds and how it turns the transport's outcome into its
 * result. Every operation swallows failures into a soft result (null, an
 * empty page, false).
 */
module GoRestService {
  import opened Wrappers
  import opened GoRest
  import opened Http
  import JsRuntime
  import UserSort

  const UsersEndpoint := "/public/v2/users"
  const DefaultSortBy: UserKey := Id
  const DefaultResultsPerPage: PageRange := 10
  const HeaderPaginationTotal := "x-pagination-total"
  const HeaderPaginationPages := "x-pagination-pages"
  const HeaderPaginationPage := "x-pagination-page"
  const HeaderPaginationLimit := "x-pagination-limit"

  // ---------------------------------------------------------------------------
  // sortUsers
  // ---------------------------------------------------------------------------

  /**
   * Sorts a non-empty array in place, ascending by the key (by `id` when no
   * key is given), and returns that same array; a missing or empty array
   * yields a fresh empty one.
   */
  method SortUsers(users: array?<User>, sortBy: Option<UserKey>) returns (r: array<User>)
    modifies users
    ensures users == null || users.Length == 0 ==> fresh(r) && r.Length == 0
    ensures users != null && users.Length > 0 ==>
      var k := if sortBy.Some? then sortBy.value else DefaultSortBy;
      && r == users
      && r[..] == UserSort.SortByKey(old(users[..]), k)
      && UserSort.Sorted(r[..], k)
      && multiset(r[..]) == multiset(old(users[..]))
      && UserSort.SameKeyOrder(r[..], old(users[..]), k)
  {
    if users != null && users.Length > 0 {
      var k := if sortBy.Some? then sortBy.value else DefaultSortBy;
      UserSort.SortInPlace(users, k);
      UserSort.SortByKeySorted(old(users[..]), k);
      UserSort.SortByKeyPermutes(old(users[..]), k);
      UserSort.SortByKeyStable(old(users[..]), k);
      r := users;
    } else {
      r := new User[0];
    }
  }

  // ---------------------------------------------------------------------------
  // Requests
  // ---------------------------------------------------------------------------

  /** The GET that fetches one user. */
  function GetUserRequest(cfg: Config, id: int): (r: Request)
    ensures r.verb == GET && r.params == None && r.data == None
    ensures r.url == cfg.url + "//public/v2/users/" + JsRuntime.IntToString(id)
    ensures r.headers == StandardHeaders(cfg.accessToken)
  {
    Request(GET, ItemUrl(cfg.url, UsersEndpoint, JsRuntime.IntToString(id)),
            StandardHeaders(cfg.accessToken), None, None)
  }

  /** The GET that lists users with the given query parameters. */
  function GetUsersRequest(cfg: Config, params: Option<PageParam>): (r: Request)
    ensures r.verb == GET && r.params == params && r.data == None
    ensures r.url == cfg.url + "//public/v2/users"
    ensures r.headers == StandardHeaders(cfg.accessToken)
  {
    Request(GET, CollectionUrl(cfg.url, UsersEndpoint), StandardHeaders(cfg.accessToken), params, None)
  }

  /** The listing request for one page; 10 results per page unless given. */
  function GetUsersAtPageRequest(cfg: Config, page: int, perPage: Option<PageRange>): (r: Request)
    ensures r.verb == GET && r.url == cfg.url + "//public/v2/users" && r.data == None
    ensures r.headers == StandardHeaders(cfg.accessToken)
    ensures r.params.Some? && r.params.value.page == Some(page)
    ensures perPage.Some? ==> r.params.value.perPage == perPage
    ensures perPage.None? ==> r.params.value.perPage == Some(10)
  {
    var resultsPerPage := if perPage.Some? then perPage.value else DefaultResultsPerPage;
    GetUsersRequest(cfg, Some(PageParam(Some(page), Some(resultsPerPage))))
  }

  /** The PUT that sends the partial user as the body. */
  function UpdateUserRequest(cfg: Config, update: PartialUser): (r: Request)
    ensures r.verb == PUT && r.params == None && r.data == Some(update)
    ensures r.url == cfg.url + "//public/v2/users/" + JsRuntime.TemplateNumber(update.id)
    ensures r.headers == StandardHeaders(cfg.accessToken)
  {
    Request(PUT, ItemUrl(cfg.url, UsersEndpoint, JsRuntime.TemplateNumber(update.id)),
            StandardHeaders(cfg.accessToken), None, Some(update))
  }

  /** The DELETE that removes one user. */
  function DeleteUserRequest(cfg: Config, id: int): (r: Request)
    ensures r.verb == DELETE && r.params == None && r.data == None
    ensures r.url == cfg.url + "//public/v2/users/" + JsRuntime.IntToString(id)
    ensures r.headers == StandardHeaders(cfg.accessToken)
  {
    Request(DELETE, ItemUrl(cfg.url, UsersEndpoint, JsRuntime.IntToString(id)),
            StandardHeaders(cfg.accessToken), None, None)
  }

  // ---------------------------------------------------------------------------
  // Outcomes
  // ---------------------------------------------------------------------------

  /** The user, only for a 200 with a body; null (None) for anything else. */
  function GetUser(o: Outcome<User>): (r: Option<User>)
    ensures r.Some? <==> OkWithData(o)
    ensures r.Some? ==> r.value == o.data.value
  {
    match o
    case Resp(status, data, _) => if status == 200 then data else None
    case Thrown(_) => None
  }

  /** Renames the four pagination headers; a missing header gives None. */
  function BuildPagination(headers: map<string, int>): (p: Pagination)
    ensures HeaderPaginationTotal in headers ==> p.totalResults == Some(headers[HeaderPaginationTotal])
    ensures HeaderPaginationPages in headers ==> p.totalPages == Some(headers[HeaderPaginationPages])
    ensures HeaderPaginationPage in headers ==> p.currentPage == Some(headers[HeaderPaginationPage])
    ensures HeaderPaginationLimit in headers ==> p.resultsPerPage == Some(headers[HeaderPaginationLimit])
    ensures HeaderPaginationTotal !in headers ==> p.totalResults == None
    ensures HeaderPaginationPages !in headers ==> p.totalPages == None
    ensures HeaderPaginationPage !in headers ==> p.currentPage == None
    ensures HeaderPaginationLimit !in headers ==> p.resultsPerPage == None
  {
    Pagination(
      Lookup(headers, HeaderPaginationTotal),
      Lookup(headers, HeaderPaginationPages),
      Lookup(headers, HeaderPaginationPage),
      Lookup(headers, HeaderPaginationLimit))
  }

  /** `headers[name]`, undefined when absent. */
  function Lookup(headers: map<string, int>, name: string): Option<int> {
    if name in headers then Some(headers[name]) else None
  }

  /**
   * The body and its pagination for a 200 with a body (an empty array is a
   * body); otherwise an empty page without pagination.
   */
  function GetUsers(o: Outcome<seq<User>>): (r: UserResults)
    ensures OkWithData(o) ==> r.users == o.data.value && r.pagination == Some(BuildPagination(o.headers))
    ensures !OkWithData(o) ==> r.users == [] && r.pagination == None
  {
    var results := UserResults([], None);
    match o
    case Resp(status, Some(users), headers) =>
      if status == 200 then results.(users := users, pagination := Some(BuildPagination(headers)))
      else results
    case _ => results
  }

  /** The updated user, only for a 200 with a body; null (None) otherwise. */
  function UpdateUser(o: Outcome<User>): (r: Option<User>)
    ensures r.Some? <==> OkWithData(o)
    ensures r.Some? ==> r.value == o.data.value
  {
    if o.Resp? && o.status == 200 && o.data.Some? then o.data else None
  }

  /** True exactly for a 204 response. */
  function DeleteUser<T>(o: Outcome<T>): (r: bool)
    ensures r <==> o.Resp? && o.status == 204
  {
    match o
    case Resp(status, _, _) => status == 204
    case Thrown(_) => false
  }

  // ---------------------------------------------------------------------------
  // Properties
  // ---------------------------------------------------------------------------

  /** Every operation turns a thrown error into its soft-failure value. */
  lemma ThrownIsSoftFailure(err: AxiosError)
    ensures GetUser(Thrown(err)) == None
    ensures GetUsers(Thrown(err)) == UserResults([], None)
    ensures UpdateUser(Thrown(err)) == None
    ensures !DeleteUser<User>(Thrown(err))
  {
  }

  /** A 200 with an empty array is a body: the page is empty but paginated. */
  lemma EmptyArrayIsPaginated(headers: map<string, int>)
    ensures GetUsers(Resp(200, Some([]), headers)) == UserResults([], Some(BuildPagination(headers)))
  {
  }

  /** Page 3 of 370, ten per page, out of 3700 users. */
  lemma PageThreeExample(users: seq<User>)
    requires |users| == 10
    ensures var headers := map[HeaderPaginationTotal := 3700, HeaderPaginationLimit := 10,
                               HeaderPaginationPage := 3, HeaderPaginationPages := 370];
      var r := GetUsers(Resp(200, Some(users), headers));
      |r.users| == 10 && r.pagination == Some(Pagination(Some(3700), Some(370), Some(3), Some(10)))
  {
  }

  /** Pagination depends on the four pagination headers and nothing else. */
  lemma PaginationReadsOnlyItsHeaders(h1: map<string, int>, h2: map<string, int>)
    requires forall name :: name in {HeaderPaginationTotal, HeaderPaginationPages,
                                      HeaderPaginationPage, HeaderPaginationLimit} ==>
               Lookup(h1, name) == Lookup(h2, name)
    ensures BuildPagination(h1) == BuildPagination(h2)
  {
    assert Lookup(h1, HeaderPaginationTotal) == Lookup(h2, HeaderPaginationTotal);
    assert Lookup(h1, HeaderPaginationPages) == Lookup(h2, HeaderPaginationPages);
    assert Lookup(h1, HeaderPaginationPage) == Lookup(h2, HeaderPaginationPage);
    assert Lookup(h1, HeaderPaginationLimit) == Lookup(h2, HeaderPaginationLimit);
  }

  /** The prefix every item URL starts with, double slash included. */
  function ItemUrlPrefix(cfg: Config): string {
    cfg.url + "//public/v2/users/"
  }

  /** The id can be read back from the end of an item URL. */
  lemma ItemUrlRoundTrip(cfg: Config, id: int)
    ensures var url := GetUserRequest(cfg, id).url;
      var prefix := ItemUrlPrefix(cfg);
      |prefix| <= |url| && url[..|prefix|] == prefix && JsRuntime.ParseInt(url[|prefix|..]) == Some(id)
  {
    var prefix := ItemUrlPrefix(cfg);
    var url := GetUserRequest(cfg, id).url;
    assert url == prefix + JsRuntime.IntToString(id);
    assert url[|prefix|..] == JsRuntime.IntToString(id);
    JsRuntime.IntToStringRoundTrip(id);
  }

  /** Distinct ids address distinct URLs; get, update and delete address the same one. */
  lemma ItemUrlsIdentifyUsers(cfg: Config, a: int, b: int, update: PartialUser)
    requires update.id == Some(a)
    ensures GetUserRequest(cfg, a).url == GetUserRequest(cfg, b).url <==> a == b
    ensures DeleteUserRequest(cfg, a).url == GetUserRequest(cfg, a).url
    ensures UpdateUserRequest(cfg, update).url == GetUserRequest(cfg, a).url
  {
    ItemUrlRoundTrip(cfg, a);
    ItemUrlRoundTrip(cfg, b);
  }
}
