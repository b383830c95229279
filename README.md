# GoRest users client: a Dafny model

This project models the decision logic of a small TypeScript client for the
GoRest "users" collection. It covers two near-identical services: the paged
`GoRestService` and the list-only `GraphQLService`. It also covers the error
classifier they share (`AxiosErrorHandler.handleError`) and the data model in
`GoRest.ts`. The HTTP transport (axios) is replaced by an input value, so
every remote operation becomes two pure functions: one builds the request
from the configuration and the arguments, and one maps the transport's
outcome to the operation's result.

Modules, one per source file or shared concept:

- `Wrappers` (`wrappers.dfy`): `Option`, which stands for JavaScript's
  `undefined`/`null`.
- `JsRuntime` (`jsruntime.dfy`): the JavaScript behaviours the code relies on.
  These are `${n}` for an integral number (with a parser, so that round trips
  can be proved) and the string `<` operator. That operator compares UTF-16
  code units lexicographically, following the IsLessThan operation of
  ECMA-262. It is defined character by character (`StringLess`), and a lemma
  proves it equal to the comparison of the `Utf16` encodings.
- `GoRest` (`gorest_model.dfy`): `User`, `PartialUser`, `Pagination`,
  `UserResults`, the key type `UserKey` for `keyof User`, the subset type
  `PageRange` (1 through 100) and `PageParam`.
- `UserSort` (`user_sort.dfy`): the three-way comparator both services pass to
  `Array.prototype.sort`. The sort is specified as a stable insertion sort on
  sequences (`SortByKey`). Lemmas prove that the result is ascending, is a
  permutation of the input, keeps users with equal keys in their original
  order, and is the only sequence with those properties. That last lemma is
  why a stable sort such as `Array.prototype.sort` (section 23.1.3.30 of
  ECMA-262, 2023 edition) must produce exactly `SortByKey`. `SortInPlace`
  performs the sort on an array.
- `Http` (`http.dfy`): the axios request configuration (`Request`), the
  transport outcome (`Outcome`: a response or a thrown error), the error shape
  (`AxiosError`) and JSON truthiness.
- `AxiosErrorHandler` (`axios_error_handler.dfy`): the three-way classifier.
  It returns the message and the lines it logs.
- `GoRestService` and `GraphQLService` (`gorest_service.dfy`,
  `graphql_service.dfy`): the services. The two TypeScript classes repeat the
  same code for sorting, get, update and delete. `GraphQLService` defines
  those operations by the paged service's functions and states their
  contracts again. Its listing is the paged result's users without the
  pagination.

Facts about the code that the model keeps:

- Item URLs are `url + "/" + "/public/v2/users" + "/" + id`, which contains a
  double slash.
- An update whose partial user has no `id` targets `.../users/undefined`.
- `response.data` is tested for JavaScript truthiness. A 200 response whose
  body is the empty array `[]` therefore still takes the success path: the
  page is empty but carries pagination built from the headers. So a listing
  of an empty collection still reports pagination.
- `deleteUser` succeeds only on status 204. `getUser` and `updateUser` succeed
  only on status 200 with a body. Any other status, and any thrown error,
  gives the soft-failure value (null, an empty page, or false).
- When no response arrives, the classifier's message is the fixed text with
  the operation label appended without a separator.
- When `JSON.stringify` throws on the response body, the classifier logs three
  lines and returns `''`.

## Model

| member | source | states |
|---|---|---|
| `JsRuntime.IntToStringRoundTrip` | src/modules/goRest/service/GoRestService.ts:75 | the decimal text that `${pId}` puts into a URL reads back as the same id |
| `JsRuntime.IntToStringInjective` | src/modules/goRest/service/GoRestService.ts:207 | distinct ids render as distinct path segments |
| `JsRuntime.TemplateNumber` | src/modules/goRest/service/GoRestService.ts:171 | `${pUserUpdate.id}` is "undefined" when the id is missing, and otherwise reads back as the id |
| `JsRuntime.StringLessIsCodeUnitOrder` | src/modules/goRest/service/GoRestService.ts:51-54 | `<` on two strings, defined character by character, is the lexicographic comparison of their UTF-16 code units |
| `JsRuntime.CharLessIsCodeUnitOrder` | src/modules/goRest/service/GoRestService.ts:51 | for two different characters, the first code units that differ decide, whatever follows them; characters outside the Basic Multilingual Plane sort between U+D7FF and U+E000 |
| `JsRuntime.StringLessAsymmetric` | src/modules/goRest/service/GoRestService.ts:51-56 | string `<` never holds both ways |
| `JsRuntime.StringLessTransitive` | src/modules/goRest/service/GoRestService.ts:51-56 | string `<` is transitive |
| `JsRuntime.StringLessTotal` | src/modules/goRest/service/GoRestService.ts:51-57 | two strings neither of which is `<` the other are equal, so the comparator returns 0 only for equal keys |
| `GoRest.ParseKey` | src/modules/goRest/model/GoRest.ts:26 | exactly the five names id, name, email, gender and status are keys of a user |
| `GoRest.KeyNameRoundTrip` | src/modules/goRest/model/GoRest.ts:26 | keys and property names correspond one to one |
| `GoRest.KeyOf` | src/modules/goRest/model/GoRest.ts:6-12 | the comparator reads the field the key names (`u1[sortBy]`): `id` as a number, and `name`, `email`, `gender`, `status` as those string fields |
| `Http.StandardHeaders` | src/modules/goRest/service/GoRestService.ts:76-79 | every request carries exactly `Content-Type: application/json` and `Authorization: Bearer <token>` |
| `UserSort.Compare` | src/modules/goRest/service/GoRestService.ts:50-59 | the comparator returns -1 iff the first key is `<` the second, 1 iff only the reverse holds, and 0 iff neither holds |
| `UserSort.CompareConsistent` | src/modules/goRest/service/GoRestService.ts:50-59 | the comparator is consistent: its sign flips with its arguments, 0 means equal keys, and "before" is transitive |
| `UserSort.PrecedesTotal` | src/modules/goRest/service/GoRestService.ts:57 | neither user precedes the other exactly when their keys are equal |
| `UserSort.SortByKeySorted` | src/modules/goRest/service/GoRestService.ts:50-59 | the sorted sequence is ascending by the key |
| `UserSort.SortByKeyPermutes` | src/modules/goRest/service/GoRestService.ts:50 | the sorted sequence is a permutation of the input |
| `UserSort.SortByKeyStable` | src/modules/goRest/service/GoRestService.ts:57 | users whose keys are equal keep their relative order |
| `UserSort.StableSortUnique` | src/modules/goRest/service/GoRestService.ts:50 | two ascending sequences with the same order within every key class are equal, so every stable sort gives the same result |
| `UserSort.SortByKeyOfSorted` | src/modules/goRest/service/GoRestService.ts:50-60 | sorting an already sorted sequence leaves it unchanged |
| `UserSort.SortByKeyIdempotent` | src/modules/goRest/service/GoRestService.ts:50-60 | sorting twice by the same key is the same as sorting once |
| `UserSort.SortByIdExample` | src/modules/goRest/service/GoRestService.ts:50-59 | users with ids 3, 1, 2 sort by id to 1, 2, 3 |
| `UserSort.InsertSorted` | src/modules/goRest/service/GoRestService.ts:50 | inserting into an ascending sequence keeps it ascending |
| `UserSort.SortByKeyLength` | src/modules/goRest/service/GoRestService.ts:50 | sorting keeps the number of users |
| `UserSort.InsertInPlace` | src/modules/goRest/service/GoRestService.ts:50 | one step of the in-place sort: the array becomes the insertion of a[i] into the old prefix a[..i], followed by the untouched old a[i + 1..] |
| `UserSort.SortInPlace` | src/modules/goRest/service/GoRestService.ts:50 | the array, sorted in place, holds exactly `SortByKey` of its old contents |
| `GoRestService.SortUsers` | src/modules/goRest/service/GoRestService.ts:47-63 | a missing or empty array gives a fresh empty array; otherwise the same array, sorted in place by the key (`id` when no key is given), ascending, a permutation of the input, stable |
| `GoRestService.GetUserRequest` | src/modules/goRest/service/GoRestService.ts:73-80 | a GET to `url + "//public/v2/users/" + id` with the standard headers and no params or body |
| `GoRestService.GetUser` | src/modules/goRest/service/GoRestService.ts:83-101 | the user is returned iff the status is 200 with a body, and it is the body; otherwise null, including for 404 and thrown errors |
| `GoRestService.GetUsersAtPageRequest` | src/modules/goRest/service/GoRestService.ts:110-113 | a listing GET with params `{page, per_page}`, where `per_page` is 10 when omitted |
| `GoRestService.GetUsersRequest` | src/modules/goRest/service/GoRestService.ts:128-136 | a GET to `url + "//public/v2/users"` carrying the given params |
| `GoRestService.GetUsers` | src/modules/goRest/service/GoRestService.ts:125-157 | for a 200 with a body, the users are the body and the pagination is built from the headers; otherwise the result is `{users: []}` with no pagination |
| `GoRestService.BuildPagination` | src/modules/goRest/service/GoRestService.ts:235-242 | each of the four pagination headers becomes its field, and a missing header becomes undefined |
| `GoRestService.UpdateUserRequest` | src/modules/goRest/service/GoRestService.ts:169-177 | a PUT to the item URL of the partial user's id with the partial user as the body |
| `GoRestService.UpdateUser` | src/modules/goRest/service/GoRestService.ts:180-193 | the updated user is returned iff the status is 200 with a body; otherwise null |
| `GoRestService.DeleteUserRequest` | src/modules/goRest/service/GoRestService.ts:205-212 | a DELETE to the item URL of the id |
| `GoRestService.DeleteUser` | src/modules/goRest/service/GoRestService.ts:214-226 | the result is true iff the response status is exactly 204; every thrown error gives false |
| `GoRestService.ThrownIsSoftFailure` | src/modules/goRest/service/GoRestService.ts:154-157 | a thrown error makes get and update return null, list return an empty page, and delete return false |
| `GoRestService.EmptyArrayIsPaginated` | src/modules/goRest/service/GoRestService.ts:140-144 | a 200 with `[]` gives no users but does give pagination |
| `GoRestService.PageThreeExample` | src/modules/goRest/service/__tests__/GoRestService.spec.ts:37-69 | a ten-user body with headers 3700/370/3/10 yields ten users and exactly that pagination |
| `GoRestService.PaginationReadsOnlyItsHeaders` | src/modules/goRest/service/GoRestService.ts:11-14 | the pagination depends on the four pagination headers and nothing else |
| `GoRestService.ItemUrlRoundTrip` | src/modules/goRest/service/GoRestService.ts:75 | the item URL starts with `url + "//public/v2/users/"`, and the rest reads back as the id |
| `GoRestService.ItemUrlsIdentifyUsers` | src/modules/goRest/service/GoRestService.ts:207 | two ids share an item URL iff they are equal, and get, update and delete of one id target the same URL |
| `GraphQLService.SortUsers` | src/modules/graphQL/service/GraphQLService.ts:41-57 | the same contract as the paged service's sort |
| `GraphQLService.GetUserRequest` | src/modules/graphQL/service/GraphQLService.ts:62-69 | a GET to `url + "//public/v2/users/" + id` |
| `GraphQLService.GetUser` | src/modules/graphQL/service/GraphQLService.ts:72-90 | the user is returned iff the status is 200 with a body; otherwise null (404 included) |
| `GraphQLService.GetUsersAtPageRequest` | src/modules/graphQL/service/GraphQLService.ts:93-97 | the params are `{page}` only, with no `per_page` |
| `GraphQLService.GetUsersRequest` | src/modules/graphQL/service/GraphQLService.ts:103-111 | a GET to the collection URL carrying the given params |
| `GraphQLService.GetUsers` | src/modules/graphQL/service/GraphQLService.ts:114-131 | the result is the body for a 200 with a body, and `[]` otherwise, with no pagination |
| `GraphQLService.UpdateUserRequest` | src/modules/graphQL/service/GraphQLService.ts:138-146 | a PUT of the partial user to `.../users/<id>` |
| `GraphQLService.UpdateUser` | src/modules/graphQL/service/GraphQLService.ts:149-163 | the updated user is returned iff the status is 200 with a body; otherwise null |
| `GraphQLService.DeleteUserRequest` | src/modules/graphQL/service/GraphQLService.ts:170-177 | a DELETE to the item URL |
| `GraphQLService.DeleteUser` | src/modules/graphQL/service/GraphQLService.ts:180-191 | the result is true iff the status is 204 |
| `GraphQLService.TenUsersExample` | src/modules/graphQL/service/__tests__/GraphQLService.spec.ts:36-43 | a ten-element body yields ten users |
| `GraphQLService.PageRequestsDiffer` | src/modules/graphQL/service/GraphQLService.ts:93-96 | a page request here sends no `per_page`, while the paged service always sends one, for the same page |
| `AxiosErrorHandler.Classify` | src/logging/AxiosErrorHandler.ts:16-46 | exactly one of three classes applies, tested in order: a response is present; else a request is present; else neither |
| `AxiosErrorHandler.ResponseMessage` | src/logging/AxiosErrorHandler.ts:21 | the message is the stringified body when the body is truthy, and the status text otherwise; it is absent when stringifying throws |
| `AxiosErrorHandler.HandleError` | src/logging/AxiosErrorHandler.ts:14-48 | a response gives one line `Error calling <label> responseCode: <status> - <message>`, or three lines and `''` when stringifying throws; no response gives the fixed text plus the label, logged once; no request gives the setup text and the error's message, two lines |
| `AxiosErrorHandler.ResponseTakesPrecedence` | src/logging/AxiosErrorHandler.ts:16-35 | when a response is present, the request flag does not affect the message |
| `AxiosErrorHandler.LogLineCount` | src/logging/AxiosErrorHandler.ts:20-46 | the handler logs one or three lines for a response, one for no response, and two for a setup failure, never none |
| `AxiosErrorHandler.MessageIsLogged` | src/logging/AxiosErrorHandler.ts:20-45 | unless stringifying the response body fails, the returned message ends the first logged line; when it fails, the message is `''` and the first line is the fixed failure text |
| `AxiosErrorHandler.StatusIsLogged` | src/logging/AxiosErrorHandler.ts:22-29 | the status code can be read back from the logged line |

## Left out

- The axios transport, the HTTP exchange and the Promise sequencing are not modelled. Each operation's outcome is an input value (`Http.Outcome`), and the request it would send is a separate function.
- Service-level logging is not modelled: the `debug` lines, including `JSON.stringify(options)`, and the `warn`/`error` lines on a non-200 status. The paged service warns where the list-only service logs an error. Only the classifier's log lines are modelled.
- The `instanceof AxiosError` test at src/modules/goRest/service/GoRestService.ts:93 is not modelled. It only decides whether the classifier or the service logs the error, and no result depends on it. A thrown outcome is a single case, `Http.Outcome.Thrown`.
- Strings are sequences of Unicode scalar values (Dafny's `char`). A JavaScript string holding a lone surrogate code unit, such as a name parsed from the JSON text `"\ud800"`, cannot be expressed. So `JsRuntime.StringLess`, and the sort by `name`, `email`, `gender` or `status`, cover only well-formed strings.
- The winston logger construction (src/logging/LoggingService.ts, `createDefaultLogger`) is not part of this model.
- The nconf configuration loading (src/config/ConfigurationService.ts) is not part of this model. The service constructor reduces to the value `Http.Config(url, accessToken)`.
- The demo script in src/index.ts is not modelled. It only calls the service.
- `JSON.stringify` is not modelled. The classifier takes it as a function argument that may fail (`None`).
- Number-to-string conversion is exact only for integral ids. JavaScript's exponent notation from 10^21 upward, fractional ids, `NaN` and `-0` are not modelled.
- Response header values are taken as numbers, as the code's types and its tests assume. Real HTTP headers arrive as strings.
- A response body is either a value of the declared type or absent (`None` covers every falsy body). A truthy body of another shape cannot be expressed.
- `Array.prototype.sort` is modelled by an insertion sort. `UserSort.StableSortUnique` shows that every stable sort gives the same result. Comparator calls and their number are not modelled.
- src/modules/graphQL/model/GraphQL.ts is not modelled separately. It restates `User` and a page-only `PageParam`, so the list-only service reuses the `GoRest` types with `perPage` absent.
