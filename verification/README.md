# SnackWorld web client and mock API, modelled in Dafny

SnackWorld sells subscription "snack boxes" (`cajas`) of sweets from one country. Its
Next.js web application has an administrator dashboard. This project models the part
of it that carries the session and the data:

- the access gate (`middleware.ts`) that redirects between `/login` and `/dashboard`
  according to the `auth-token` cookie;
- the browser session in `lib/api.ts`:
  - reading the token back out of `document.cookie`;
  - the request interceptor that turns it into a `Bearer` header;
  - the cookies `login` and `logout` write;
- `apiFetch.crearCaja`: it normalises a new box, refuses an incomplete one locally and
  rewrites every failure into one error message;
- the create-box form (`app/dashboard/create/page.tsx`): its product list editor and its
  submit handler;
- the client caches of the `useCajas` and `useUsuarios` hooks, and how each API outcome
  changes them;
- the three mock endpoints behind the dashboard:
  - the catalog list (`GET`/`POST /api/cajas`);
  - the login (`POST /api/auth/login`);
  - the administrator statistics (`GET /api/admin/usuarios`).

JavaScript values are a `Json` datatype, with `undefined` as `None`. The language
operations the code relies on are modelled once in module `Js`:

- truthiness;
- `?.` (optional property reads);
- `||` and `??`;
- object spread, where arrays spread their indices and strings spread one index per code point;
- `String(v)`;
- thrown errors.

`String.prototype.split`, `trim` and `startsWith` are in `Strings`, and `filter`, `find`
and the index filter are in `Seqs`. Everything outside the program is a parameter:

- the outcome of each HTTP call (`Result<Json, JsError>`);
- the cookie string;
- the clock (`Date.now()`);
- the parsed request body (`None` when it is not valid JSON);
- `Number(precio)`.

Each React state update is one pure transition from the old state to the new one.

Module `Flows` composes the pieces, treating the three mock routes as stand-ins for the
remote API that the HTTP client actually calls:

- the login endpoint's token, stored by `login`, reads back and authenticates;
- a request sent through the interceptor, delivered to the statistics endpoint, passes
  its gate exactly when the session holds a token;
- a payload that `crearCaja` normalises and accepts, answered by the catalog endpoint,
  lands in the `useCajas` cache, and deleting it restores the cache;
- the statistics endpoint values a subscription at 45, but the `useUsuarios` hook
  recomputes the value at 50 after a deletion. Were the hook fed the endpoint's
  statistics, deleting a user who has no subscription would raise the value.

## Model

| member | source | states |
|---|---|---|
| `Middleware.Decide` | snackworldweb/middleware.ts:4-28 | `/login` with a non-empty token redirects to `/dashboard`; any path starting with `/dashboard` without one redirects to `/login`; `/` redirects by token; a redirect never targets the requested path and only ever targets `/login` or `/dashboard` |
| `Middleware.DecideFollowsPolicy` | snackworldweb/middleware.ts:8-31 | on every path the matcher admits, the gate is the two-state policy table: login page, protected page, root |
| `Middleware.PassThroughExactly` | snackworldweb/middleware.ts:9-27 | a matched request passes exactly when it is the login page without a session or a dashboard page with one |
| `Middleware.OnlyPresenceMatters` | snackworldweb/middleware.ts:5-20 | the decision depends only on whether the cookie value is non-empty, so an empty value counts as no cookie |
| `Strings.SplitJoin` | snackworldweb/lib/api.ts:15-16 | joining the pieces of `split(sep)` with `sep` gives back the cookie string |
| `Strings.TrimBlank` | snackworldweb/app/dashboard/create/page.tsx:67 | `trim()` gives the empty string exactly when the input is all ECMAScript whitespace |
| `Strings.TrimIsSlice` | snackworldweb/lib/api.ts:120-123 | `trim()` returns a slice of its input with only whitespace cut from either end |
| `Strings.DecimalRoundTrip` | snackworldweb/app/api/cajas/route.ts:33 | the decimal text of a clock value reads back as that value |
| `Seqs.Filter` | snackworldweb/hooks/useCajas.ts:62 | `filter` keeps only elements that pass the test, each taken from the input, never more than the input |
| `Seqs.FilterComplete` | snackworldweb/hooks/useCajas.ts:62 | every element that passes the test is kept |
| `Seqs.FilterAppend` | snackworldweb/hooks/useUsuarios.ts:77 | filtering distributes over concatenation, so relative order is kept |
| `Seqs.FilterIdempotent` | snackworldweb/hooks/useUsuarios.ts:77 | filtering twice with the same test is filtering once |
| `Seqs.FilterDropsOne` | snackworldweb/hooks/useUsuarios.ts:77 | a test that rejects exactly one position removes exactly that element |
| `Seqs.FindIndex` | snackworldweb/lib/api.ts:17 | `find` returns the first element that passes the test, or none when no element does |
| `Seqs.DropIndex` | snackworldweb/app/dashboard/create/page.tsx:79 | `filter((_, i) => i !== index)` removes the element at `index` when there is one and otherwise changes nothing |
| `Js.ErrorText` | snackworldweb/hooks/useCajas.ts:29 | the recorded error is the backend's `message`, else the error's own message, else the fallback, and it is always truthy |
| `Session.ExtractToken` | snackworldweb/lib/api.ts:15-18 | a token is found exactly when some `; `-separated row starts with `auth-token=`; it is the text of the first such row after the prefix, cut at the next `=`, and holds no `=` |
| `Session.TokenRowSplits` | snackworldweb/lib/api.ts:17-18 | the second piece of an `auth-token=` row split on `=` is its value up to the first `=`, and holds no `=` |
| `Session.AuthenticatedExactly` | snackworldweb/lib/api.ts:215-225 | `isAuthenticated` holds exactly when the first `auth-token=` row carries a value that does not start with `=` |
| `Session.ExtractFirstEntry` | snackworldweb/lib/api.ts:15-18 | when the session cookie is the first entry, its value up to the first `=` is read |
| `Session.SkipOtherEntry` | snackworldweb/lib/api.ts:17 | an entry that is not the session cookie is skipped |
| `Session.ExtractTruncates` | snackworldweb/lib/api.ts:18 | a cookie value holding `=` is cut at its first `=` |
| `Session.Intercept` | snackworldweb/lib/api.ts:14-23 | with a non-empty token the request gets `Authorization: Bearer <token>`, and the token read back from the header is the extracted one; otherwise the headers are unchanged; other headers are always kept and no header other than `Authorization` is ever added |
| `Session.InterceptAgreesWithIsAuthenticated` | snackworldweb/lib/api.ts:215-221 | the interceptor adds a header exactly when `isAuthenticated` holds |
| `Session.LoginCookieRoundTrip` | snackworldweb/lib/api.ts:188-189 | the cookie `login` writes reads back as its token when the token holds neither `;` nor `=` |
| `Session.LoginCookieTruncates` | snackworldweb/lib/api.ts:189 | a token holding `=` reads back only up to that `=` |
| `Session.LoginCatch` | snackworldweb/lib/api.ts:196-202 | a truthy backend `message` becomes a fresh `Error` carrying that text; without one (an error without a response included) the original error is rethrown unchanged |
| `Session.Login` | snackworldweb/lib/api.ts:180-203 | a response carrying a truthy token succeeds with the response body and writes the cookie with that token; the cookie is written only then; any other non-null body fails with the fixed message; a null body fails with a TypeError; a failed request goes through the catch |
| `Session.Logout` | snackworldweb/lib/api.ts:205-208 | the cookie written by `logout` reads back as an empty token and does not authenticate; `{ success: true }` is returned |
| `CatalogClient.TrimmedField` | snackworldweb/lib/api.ts:120-123 | `key?.trim()` is undefined for a missing or null field, the trimmed text of a string, and a TypeError for anything else |
| `CatalogClient.KeptProducts` | snackworldweb/lib/api.ts:126 | every kept product is an untrimmed input string that is non-blank after trimming, and every such string is kept |
| `CatalogClient.KeptProductsAppend` | snackworldweb/lib/api.ts:126 | filtering a concatenation keeps each part's products in order |
| `CatalogClient.KeptProductsFollowFilter` | snackworldweb/lib/api.ts:126 | the kept products are exactly the strings `Array.filter` keeps, in their order and with their duplicates |
| `CatalogClient.Products` | snackworldweb/lib/api.ts:126 | the product filter throws exactly when an array element is truthy but not a string; an array of falsy values and strings yields exactly the kept products; a non-array gives `[]` |
| `CatalogClient.Normalise` | snackworldweb/lib/api.ts:119-126 | the payload is built exactly when no field read throws, and then it carries the trimmed strings, the given price and the filtered products |
| `CatalogClient.PayloadBody` | snackworldweb/lib/api.ts:119-132 | the JSON body holds only the six payload properties (never `_id`), writes a NaN price as `null`, and carries the products in order |
| `CatalogClient.PayloadBodyStrings` | snackworldweb/lib/api.ts:120-123 | each string property of the body is the trimmed text when it was defined and is absent when it was undefined |
| `CatalogClient.CreateCatch` | snackworldweb/lib/api.ts:135-139 | the rethrown error is the backend's `message`, else its `error`, else `Error creando caja`, and has no response attached |
| `CatalogClient.CompleteExactly` | snackworldweb/lib/api.ts:128-130 | a built payload passes the required-field check exactly when the four text fields are strings that are not blank, the price is a number other than 0, and `productos` is an array holding a non-blank string |
| `CatalogClient.CrearCaja` | snackworldweb/lib/api.ts:118-139 | a request is sent exactly when the payload is built and complete; without one the caller gets `Error creando caja`; a successful post returns its body; a failed post goes through the catch |
| `CatalogClient.LocalFailureHidesValidationText` | snackworldweb/lib/api.ts:127-139 | a failure before the request never surfaces the validation text |
| `CatalogClient.NoRequestWithoutPriceOrProducts` | snackworldweb/lib/api.ts:127-129 | a price of 0 or NaN, or no products, stops the request |
| `CreateForm.AddProduct` | snackworldweb/app/dashboard/create/page.tsx:66-74 | a non-blank, unlisted trimmed input is appended and the input cleared; otherwise nothing changes; the list stays valid (trimmed, non-blank, distinct) |
| `CreateForm.AppendKeepsValid` | snackworldweb/app/dashboard/create/page.tsx:66-72 | appending a trimmed, non-blank product that is not listed keeps the list valid |
| `CreateForm.RemoveProduct` | snackworldweb/app/dashboard/create/page.tsx:76-81 | exactly the product at the index is removed and the rest keep their order; an index out of range changes nothing; the list stays valid |
| `CreateForm.DropKeepsValid` | snackworldweb/app/dashboard/create/page.tsx:79 | removing one product from a valid list leaves a valid list |
| `CreateForm.RemoveUndoesAdd` | snackworldweb/app/dashboard/create/page.tsx:66-81 | removing the product just added restores the list |
| `CreateForm.HandleSubmit` | snackworldweb/app/dashboard/create/page.tsx:31-64 | a request is sent exactly when the list is non-empty; an empty list sets the product message; the page navigates to `/dashboard` exactly on an ok response; every other outcome sets the failure message |
| `CreateForm.EditsKeepProductsValid` | snackworldweb/app/dashboard/create/page.tsx:66-81 | any sequence of edits keeps a valid product list valid |
| `CreateForm.ReachableFormsAreValid` | snackworldweb/app/dashboard/create/page.tsx:18-25 | from the initial form, no sequence of edits produces a blank, untrimmed or repeated product |
| `CajasHook.FetchCajas` | snackworldweb/hooks/useCajas.ts:21-33 | an array response replaces the cache and anything else empties it, clearing the error; a failure keeps the cache and records the error text |
| `CajasHook.CrearCaja` | snackworldweb/hooks/useCajas.ts:35-44 | the created entry is appended after the old entries; a failure is rethrown and changes nothing |
| `CajasHook.Merge` | snackworldweb/hooks/useCajas.ts:50 | the merged entry has the update's properties and keeps the other old ones |
| `CajasHook.UpdateEntries` | snackworldweb/hooks/useCajas.ts:49-51 | entries with the id are merged and all others are kept, with the length unchanged |
| `CajasHook.ActualizarCaja` | snackworldweb/hooks/useCajas.ts:46-57 | a successful update rewrites only the matching entries; a failure changes nothing |
| `CajasHook.EliminarCaja` | snackworldweb/hooks/useCajas.ts:59-67 | after a successful delete no entry has the id and every other entry is still present; a failure changes nothing |
| `CajasHook.DeleteUndoesCreate` | snackworldweb/hooks/useCajas.ts:35-67 | deleting a just-created entry with a fresh id restores the cache |
| `CajasHook.DeleteIdempotent` | snackworldweb/hooks/useCajas.ts:62 | deleting the same id twice is deleting it once |
| `CajasHook.DeleteDistributes` | snackworldweb/hooks/useCajas.ts:62 | deleting from a concatenation deletes from each part |
| `UsuariosHook.Normalise` | snackworldweb/hooks/useUsuarios.ts:41-45 | `fechaRegistro` is the first truthy of `fechaRegistro` and `createdAt`, else `''`; `suscripcion` is `null` when missing; every other spread property is kept |
| `UsuariosHook.NormaliseAll` | snackworldweb/hooks/useUsuarios.ts:57-61 | each record is normalised in place |
| `UsuariosHook.NormaliseKeepsSubscription` | snackworldweb/hooks/useUsuarios.ts:41-45 | normalisation keeps whether a user is subscribed |
| `UsuariosHook.NormaliseKeepsSubscribers` | snackworldweb/hooks/useUsuarios.ts:51-61 | normalising a list keeps its number of subscribers |
| `UsuariosHook.UserList` | snackworldweb/hooks/useUsuarios.ts:36-49 | the list read is the `usuarios` array of a statistics response, or the array response, or `[]`; a null response or a non-array `usuarios` throws |
| `UsuariosHook.Stats` | snackworldweb/hooks/useUsuarios.ts:36-63 | it succeeds exactly when the list has no null user; server totals are kept, 0 included; totals the server leaves out are derived; an array response yields consistent statistics at 50 per subscription |
| `UsuariosHook.FetchUsuarios` | snackworldweb/hooks/useUsuarios.ts:27-70 | readable statistics replace the data and clear the error; otherwise the data stays and the error text is recorded |
| `UsuariosHook.AfterDelete` | snackworldweb/hooks/useUsuarios.ts:75-81 | the id's records go and the user count drops by one; the subscription count drops by one exactly when the first record with the id was subscribed; the value is recomputed at 50 |
| `UsuariosHook.EliminarUsuario` | snackworldweb/hooks/useUsuarios.ts:72-86 | a successful delete adjusts existing data and leaves `null` alone; a failure is rethrown and changes nothing |
| `UsuariosHook.OnlyRecordDropped` | snackworldweb/hooks/useUsuarios.ts:77 | filtering out an id that one record carries removes exactly that record |
| `UsuariosHook.DeleteKeepsConsistent` | snackworldweb/hooks/useUsuarios.ts:75-81 | deleting an id that occurs once keeps consistent statistics consistent |
| `UsuariosHook.DeleteNonSubscriber` | snackworldweb/hooks/useUsuarios.ts:79-80 | deleting the only record with an id, when it has no subscription, keeps the subscription count |
| `UsuariosHook.DeleteAbsentIdDesynchronises` | snackworldweb/hooks/useUsuarios.ts:77-78 | deleting an id no record carries still lowers the user count, so the statistics stop matching the list |
| `UsuariosRoute.HandleGet` | snackworldweb/app/api/admin/usuarios/route.ts:42-62 | without a `Bearer` header the answer is 401 `Unauthorized`; with one it is 200 with the user count, the subscription count, their value at 45 each, and the users |
| `UsuariosRoute.StatsBody` | snackworldweb/app/api/admin/usuarios/route.ts:50-62 | the body holds exactly the user count, the subscription count, the value and the users; the subscription count is the number of users with an active subscription, so at most the user count, equal to it exactly when every user subscribes and 0 exactly when none does; the value is the count at 45 each |
| `Seqs.FilterCountExtremes` | snackworldweb/app/api/admin/usuarios/route.ts:51 | a filter keeps every element exactly when all pass, and none exactly when none pass |
| `UsuariosRoute.MockActiveCount` | snackworldweb/app/api/admin/usuarios/route.ts:4-51 | three of the five mock users hold an active subscription |
| `UsuariosRoute.MockStatistics` | snackworldweb/app/api/admin/usuarios/route.ts:49-55 | the endpoint reports 5 users, 3 subscriptions and a value of 135 |
| `CajasRoute.HandleGet` | snackworldweb/app/api/cajas/route.ts:25-27 | the current list is returned with status 200 |
| `CajasRoute.NewBox` | snackworldweb/app/api/cajas/route.ts:32-35 | the new box carries the body's own properties over an `_id` that is the clock's decimal text |
| `CajasRoute.HandlePost` | snackworldweb/app/api/cajas/route.ts:29-43 | a body that is not JSON gives 500 and leaves the list alone; otherwise the new box is appended and returned with 201 |
| `CajasRoute.PostThenGet` | snackworldweb/app/api/cajas/route.ts:25-39 | a later `GET` returns the earlier list followed by the created box |
| `CajasRoute.FreshServerList` | snackworldweb/app/api/cajas/route.ts:4-37 | a freshly loaded module serves the two seeded boxes with ids `1` and `2`; the first creation keeps them and adds the new box third |
| `CajasRoute.SameInstantSameId` | snackworldweb/app/api/cajas/route.ts:33 | two creations in the same millisecond without a client id get the same `_id` |
| `CajasRoute.DistinctInstantsDistinctIds` | snackworldweb/app/api/cajas/route.ts:33 | creations at different instants without a client id get different ids |
| `CajasRoute.ClientIdWins` | snackworldweb/app/api/cajas/route.ts:32-35 | an `_id` in the body replaces the generated one |
| `LoginRoute.MockToken` | snackworldweb/app/api/auth/login/route.ts:10 | the token is `mock-jwt-token-` followed by the decimal numeral of the clock: digits that read back as the clock's value, with no leading zero, so the numeral is the single digit `0` exactly when the clock reads 0; it holds neither `;` nor `=` |
| `LoginRoute.HandlePost` | snackworldweb/app/api/auth/login/route.ts:3-18 | a non-JSON or null body gives 500; exactly the admin credentials give 200 with a token; anything else gives 401 |
| `LoginRoute.TokensDifferAcrossInstants` | snackworldweb/app/api/auth/login/route.ts:10 | logins at different instants receive different tokens |
| `Flows.AdminLoginAuthenticates` | snackworldweb/lib/api.ts:183-189 | the admin login writes a cookie that reads back as the issued token and authenticates |
| `Flows.RejectedLoginWritesNoCookie` | snackworldweb/lib/api.ts:196-201 | a 401 from the endpoint is rethrown unchanged and writes no cookie |
| `Flows.GateFollowsSession` | snackworldweb/app/api/admin/usuarios/route.ts:44-47 | a request through the interceptor passes the gate exactly when the session holds a non-empty token |
| `Flows.LogoutLocksOut` | snackworldweb/lib/api.ts:205-208 | after logout the same request is refused with 401 |
| `Flows.ServerStoresBox` | snackworldweb/app/api/cajas/route.ts:32-37 | the box created from a payload's body carries the clock's id and the payload's name, and is appended to the server's list |
| `Flows.CreatedBoxReachesCache` | snackworldweb/hooks/useCajas.ts:35-39 | a complete payload accepted by the endpoint comes back with the clock's id and lands at the end of both the server list and the cache; deleting that id restores the cache |
| `Flows.ReadStatsBody` | snackworldweb/hooks/useUsuarios.ts:36-46 | a body of the endpoint's shape is read as the totals it carries and the normalised users |
| `Flows.ServedStats` | snackworldweb/hooks/useUsuarios.ts:36-46 | the hook keeps the endpoint's totals 5, 3 and 135 |
| `Flows.ServedStatsDisagreeWithHookPrice` | snackworldweb/hooks/useUsuarios.ts:38-40 | the served statistics do not satisfy the hook's own relation of value to subscriptions at 50 |
| `Flows.DeletingNonSubscriberRaisesValue` | snackworldweb/hooks/useUsuarios.ts:79-80 | statistics valued at 45 per subscription show a higher value after deleting a user without a subscription |

## Left out

- HTTP transport, axios and `fetch`: every request's outcome is a parameter. A non-2xx response is an error carrying the response body. The base URL, headers and `Content-Type` are not modelled.
- Module `Flows` connects the client to the three mock routes, but the two are not wired together in the program. The axios instance in `lib/api.ts` has the base URL `https://snackworld-api.vercel.app`, so `login`, `crearCaja` and the hooks call the remote API, not these routes. `app/dashboard/create/page.tsx` posts the form with a plain `fetch` and never calls `crearCaja`. `app/dashboard/page.tsx` fetches `/api/admin/usuarios` without an `Authorization` header. The flows state what holds when the routes answer in the remote API's place.
- `console.log`/`console.error` calls and the `loading` flags are left out: they do not affect the data.
- Asynchrony: each hook operation is one atomic transition, so interleavings of concurrent calls are not modelled.
- Numbers are integers. `Number.parseFloat(formData.precio)` in the form's request body and fractional prices are not modelled. `Number(cajaData.precio)` is passed in as a finite integer or NaN.
- The runtime wording of TypeErrors is not modelled; they all carry one placeholder message.
- `Session.Logout`: the model reads back the string `logout` writes. A browser drops the expired cookie instead. Neither authenticates, but cookie-jar semantics (paths, expiry, several cookies) are not modelled.
- `Session.BearerToken`: only the exact prefix `Bearer ` is recognised. Header names are compared exactly, not case-insensitively.
- The middleware's `request.cookies.get('auth-token')?.value` is passed in as already parsed. Next's cookie parser is not modelled.
- `UsuariosHook.FetchUsuarios`: the totals of a statistics response must be absent, null or numbers, as `UsuariosData` declares. JavaScript's coercion of other values in `??` and in `prev.totalUsers - 1` is not modelled.
- `CajasHook.EliminarCaja`: a `null` entry in the cache is kept, as one that does not match. In the source, `caja._id` on `null` throws inside the state updater, so the deletion would fail while rendering instead.
- `UsuariosHook.Stats`: it requires the totals of the response to be absent, null or numbers, as `UsuariosData` declares. The source would store any other value unchanged and coerce it in `prev.totalUsers - 1`; that coercion is not modelled.
- `CajasHook.UpdateEntries`: a `null` entry in the cache is treated as not matching. In the source, `caja._id` on `null` would throw inside the state updater.
- `CreateForm.HandleSubmit`: the request body (the form spread with a parsed price) is not modelled, only the branch structure and the resulting state.
- The `catch` branch of the statistics endpoint (500 `Failed to get admin stats`) cannot be reached from the modelled code, so it is not modelled.
- `Js.Spread`: strings are sequences of Unicode code points, not of UTF-16 code units. Spreading a bare string with a character outside the Basic Multilingual Plane (an emoji, say) gives one property for it here but two in JavaScript, one per surrogate half. A lone surrogate cannot be a Dafny `char`, so the halves are not modelled. This reaches `CajasRoute.NewBox`, `CajasHook.Merge` and `UsuariosHook.Normalise` only when a body is a bare string.
- `Js.Get` reads only the named properties the code uses. Prototype properties such as `length` on strings and arrays are not modelled as property reads.
- The `[id]` routes, the registration route, `AuthContext`, `usePedidos` and the other pages are not part of this model.
- The rendering of every page (JSX, styling, navigation links) is left out.
