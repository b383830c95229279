/**
 * The list-only users service: the same operations as the paged service,
 * except that a page request sends no `per_page` and a listing returns the
 * bare array, without pagination metadata. Its failures log at error level
 * where the paged service warns; logging is not part of the results. Where
 * the two services' code is the same, this module uses the paged service's
 * definitions and states their contracts again for this service.
 */
module GraphQLService {
  import opened Wrappers
  import opened GoRest
  import opened Http
  import JsRuntime
  import UserSort
  import GoRestService

  const DefaultSortBy: UserKey := Id

  /**
   * Sorts a non-empty array in place, ascending by the key (by `id` when no
   * key is given), and returns that same array; a missing or empty array
   * yields a fresh empty one.
   */
  method SortUsers(users: array?<User>, sortBy: Option<UserKey>) returns (r: array<User>)
    modifies users
    ensures users == null || users.Length == 0 ==> fresh(r) && r.Length == 0
    ensures users != null && users.Length > 0 ==>
      var k := if sortBy.Some? then sortBy.value else DefaultSortBy;
      && r == users
      && r[..] == UserSort.SortByKey(old(users[..]), k)
      && UserSort.Sorted(r[..], k)
      && multiset(r[..]) == multiset(old(users[..]))
      && UserSort.SameKeyOrder(r[..], old(users[..]), k)
  {
    r := GoRestService.SortUsers(users, sortBy);
  }

  /** The GET that fetches one user. */
  function GetUserRequest(cfg: Config, id: int): (r: Request)
    ensures r.verb == GET && r.params == None && r.data == None
    ensures r.url == cfg.url + "//public/v2/users/" + JsRuntime.IntToString(id)
    ensures r.headers == StandardHeaders(cfg.accessToken)
  {
    GoRestService.GetUserRequest(cfg, id)
  }

  /** The user, only for a 200 with a body; null (None) for anything else. */
  function GetUser(o: Outcome<User>): (r: Option<User>)
    ensures r.Some? <==> OkWithData(o)
    ensures r.Some? ==> r.value == o.data.value
  {
    GoRestService.GetUser(o)
  }

  /** The GET that lists users with the given query parameters. */
  function GetUsersRequest(cfg: Config, params: PageParam): (r: Request)
    ensures r.verb == GET && r.params == Some(params) && r.data == None
    ensures r.url == cfg.url + "//public/v2/users"
    ensures r.headers == StandardHeaders(cfg.accessToken)
  {
    GoRestService.GetUsersRequest(cfg, Some(params))
  }

  /** The listing request for one page: the page number only. */
  function GetUsersAtPageRequest(cfg: Config, page: int): (r: Request)
    ensures r.verb == GET && r.url == cfg.url + "//public/v2/users" && r.data == None
    ensures r.headers == StandardHeaders(cfg.accessToken)
    ensures r.params == Some(PageParam(Some(page), None))
  {
    GetUsersRequest(cfg, PageParam(Some(page), None))
  }

  /**
   * The body for a 200 with a body (an empty array included); else empty.
   * These are the users of the paged service's result, without pagination.
   */
  function GetUsers(o: Outcome<seq<User>>): (r: seq<User>)
    ensures OkWithData(o) ==> r == o.data.value
    ensures !OkWithData(o) ==> r == []
  {
    GoRestService.GetUsers(o).users
  }

  /** The PUT that sends the partial user as the body. */
  function UpdateUserRequest(cfg: Config, update: PartialUser): (r: Request)
    ensures r.verb == PUT && r.params == None && r.data == Some(update)
    ensures r.url == cfg.url + "//public/v2/users/" + JsRuntime.TemplateNumber(update.id)
    ensures r.headers == StandardHeaders(cfg.accessToken)
  {
    GoRestService.UpdateUserRequest(cfg, update)
  }

  /** The updated user, only for a 200 with a body; null (None) otherwise. */
  function UpdateUser(o: Outcome<User>): (r: Option<User>)
    ensures r.Some? <==> OkWithData(o)
    ensures r.Some? ==> r.value == o.data.value
  {
    GoRestService.UpdateUser(o)
  }

  /** The DELETE that removes one user. */
  function DeleteUserRequest(cfg: Config, id: int): (r: Request)
    ensures r.verb == DELETE && r.params == None && r.data == None
    ensures r.url == cfg.url + "//public/v2/users/" + JsRuntime.IntToString(id)
    ensures r.headers == StandardHeaders(cfg.accessToken)
  {
    GoRestService.DeleteUserRequest(cfg, id)
  }

  /** True exactly for a 204 response. */
  function DeleteUser<T>(o: Outcome<T>): (r: bool)
    ensures r <==> o.Resp? && o.status == 204
  {
    GoRestService.DeleteUser(o)
  }

  /** A ten-element body yields ten users. */
  lemma TenUsersExample(users: seq<User>, headers: map<string, int>)
    requires |users| == 10
    ensures |GetUsers(Resp(200, Some(users), headers))| == 10
  {
  }

  /** A page request here carries no per_page, whereas the paged service always sends one. */
  lemma PageRequestsDiffer(cfg: Config, page: int, perPage: Option<PageRange>)
    ensures GetUsersAtPageRequest(cfg, page).params.value.perPage == None
    ensures GoRestService.GetUsersAtPageRequest(cfg, page, perPage).params.value.perPage.Some?
    ensures GetUsersAtPageRequest(cfg, page).params.value.page
         == GoRestService.GetUsersAtPageRequest(cfg, page, perPage).params.value.page
  {
  }
}
