# Admin front-end core: request pipeline, navigation guard and utilities

This project is a Dafny model of the logic at the centre of a Vue admin front-end. It proves properties of that model. The modelled parts are:

- **The axios request pipeline.** This covers the request and response interceptors and the state they keep between requests:
  - the pending requests by identity, each with a cancel source;
  - the response cache with timestamps;
  - the reference-counted full-screen loading overlay;
  - the global loading flag.

  It also covers the error table with the expired-session redirect, the retry bookkeeping and `cancelAllRequests`.
- **The request helpers.** These are the request identity, the stripping of blank parameters and body fields, and the loading options.
- **The login path builder.** The redirect target is encoded by `encodeURIComponent` (ECMA-262, section 19.2.6.5). It is then encoded again by the application/x-www-form-urlencoded serializer of the WHATWG URL Standard (section 5.2) behind `URLSearchParams`.
- **The user store.** This covers the token, profile and permissions, and the any-of permission check.
- **The navigation guard.** It chooses one `next(...)` argument per navigation and updates the user store, the persisted token, the title and the loading flag.
- **The string and value utilities.** These are masking, bank-card grouping, HTML escaping, camel/kebab/snake conversion, `isEmpty`, `throttle` and `debounce`.

Modules and files:

- `Json` (`json.dfy`): JavaScript values as a datatype.
  - Objects are ordered sequences of properties.
  - It covers truthiness, `typeof`, object spread (`Assign`), property reads and `JSON.stringify`.
- `Shared` (`shared.dfy`): the persisted store and the app store's loading flag.
  - The persisted store is a string-keyed map behind the JSON storage wrapper.
- `RequestUtils` (`request_utils.dfy`), `Request` (`request.dfy`): the pipeline.
  - The module state is the class `Request.Service`.
  - The overlay is the class `Request.LoadingIndicator`.
- `Route` (`route.dfy`), `UserStore` (`user_store.dfy`), `Guard` (`guard.dfy`).
- `Format` (`format.dfy`), `Validator` (`validator.dfy`), `Timing` (`timing.dfy`).

Inputs to the model:

- **Outside world.** Time (`now`), the browser location, the user agent and `VITE_APP_TITLE` are parameters.
- **Request outcomes.** What each request produces is a parameter. For the pipeline that is an envelope or a failed request. For the stores it is `Option` values, where `None` is a rejected request.
- **Recorded effects.** Messages and the delayed navigation after an expired session are recorded as `Effect` values. Cancellations are recorded as `Cancellation` values.

## Model

| member | source | states |
|---|---|---|
| Request.Show | src/utils/request.ts:29-36 | with `showLoading` the count rises by one and an overlay is open (the existing one is kept); without it nothing changes; `count >= 0` and "overlay open iff count > 0" are preserved |
| Request.Hide | src/utils/request.ts:42-51 | acts only with `showLoading` and an open overlay; the count drops by one, and the last request closes the overlay and clamps the count to 0; consistency is preserved |
| Request.HideUndoesShow | src/utils/request.ts:29-51 | a request's hide undoes its show |
| Request.BalancedRequestsCloseOverlay | src/utils/request.ts:29-51 | showing any sequence of requests and hiding them in reverse order returns to the starting overlay; the state stays consistent throughout |
| Request.LoadingIndicator.ShowLoading | src/utils/request.ts:29-36 | the module's overlay becomes `Show` of the old one; the invariant holds |
| Request.LoadingIndicator.HideLoading | src/utils/request.ts:42-51 | the module's overlay becomes `Hide` of the old one; the invariant holds |
| Request.ApiErrorAction | src/utils/request.ts:73-90 | 401 and only 401 expires the session; 403, 404 and 500 show their fixed texts; 400 shows the server's message, or '请求参数错误' when it is empty; a code without a handler shows the server's message, or '请求失败' when it is empty |
| Request.FixedTexts | src/utils/request.ts:75-79 | 401, 403, 404 and 500 ignore the server's message |
| Request.ApiErrorEffects | src/utils/request.ts:73-108 | a code other than 401 shows exactly one error message, the text `ApiErrorAction` chooses; 401, and only 401, shows '登录已过期，请重新登录' and navigates to the login path for the current location after 1500 ms |
| Request.StorageAfterApiError | src/utils/request.ts:95-97 | an expired session removes exactly the persisted token; every other entry is kept |
| Request.CachedData | src/utils/request.ts:158-162 | a cache answer is the entry stored under the request identity |
| Request.CacheWindow | src/utils/request.ts:158-162 | an entry stored at `t` is served iff the cache is enabled and `now - t` is below `cacheTime`, or 300000 when that is absent or 0; a `cacheTime` of 0 acts as absent; with the cache disabled nothing is served |
| Request.RetryRequest | src/utils/request.ts:115-136 | a retry happens iff a config is present, `retryCount` is truthy and `currentRetryCount` is below it; the retried config differs only in `currentRetryCount`, which rises by exactly one (from 0 when absent); the delay is `retryDelay`, or 1000 when that is absent or 0 |
| Request.RetryBudget | src/utils/request.ts:115-125 | a fresh request with `retryCount` n > 0 is retried exactly n times in a row, the k-th retry carrying `currentRetryCount` k |
| Request.Dispatched | src/utils/request.ts:173-179 | the sent config keeps the request identity and any explicit `retryCount`/`retryDelay` |
| Request.RetryDefaults | src/utils/request.ts:178-179 | an explicit `retryCount` of 0 survives the default and disables retrying; an absent one allows exactly three retries |
| Request.SourceOf | src/utils/request.ts:166-167 | the source found is the one registered under the key; none is found when no entry has the key |
| Request.Without | src/utils/request.ts:169 | deletes exactly the entries with the key; other keys keep their sources; distinctness of keys and sources is kept |
| Request.Register | src/utils/request.ts:166-175 | after delete-then-set the key maps to the new source and every other key keeps its source |
| Request.Superseded | src/utils/request.ts:166-170 | the previous source under the key, and only it, is cancelled once with '重复请求被取消' |
| Request.CancelAll | src/utils/request.ts:291-296 | one cancellation per pending request, in insertion order, with the given reason |
| Request.SupersedeKeepsRegistry | src/utils/request.ts:166-175 | registering a fresh source and cancelling the one it replaces keeps keys distinct and sources fresh, and no source is both pending and cancelled or cancelled twice |
| Request.WithoutKeepsRegistry | src/utils/request.ts:215 | deleting a settled request keeps that bookkeeping sound |
| Request.CancelAllKeepsRegistry | src/utils/request.ts:291-296 | cancelling everything keeps every source cancelled at most once |
| Request.WithCommonHeaders | src/utils/request.ts:57-66 | only the two headers change; a falsy token leaves `Authorization` alone; a token string `t` gives `Bearer t`; the client header is the user agent |
| Request.StoredUndefinedTokenIsSent | src/utils/request.ts:57-66 | a token persisted as `undefined` reads back as the string "undefined" and is sent as `Bearer undefined` |
| Request.Prepared | src/utils/request.ts:148-152 | setting the headers and normalising the data do not depend on each other: the prepared config has the headers of `WithCommonHeaders` and the params and body of `Normalised` |
| Request.FailureEffects | src/utils/request.ts:263-273 | a failure without a response shows the network notice only; with one, 401 and only 401 adds the login navigation; an unhandled status shows the body's message, else the error's message, else '请求失败' |
| Request.Service.Supersede | src/utils/request.ts:166-175 | the new state is `Register` of the old registry, the cancellations grow by `Superseded`, and a fresh source is drawn |
| Request.Service.RequestInterceptor | src/utils/request.ts:141-188 | the loading flag and overlay are switched on before the cache is consulted; a cache hit answers with the cached data and leaves the registry alone; otherwise the prepared config is registered under its identity with a fresh source and sent with the retry defaults |
| Request.Service.HandleApiError | src/utils/request.ts:73-108 | appends `ApiErrorEffects`; the persisted store becomes `StorageAfterApiError`; registry and cache are unchanged |
| Request.Service.ResponseFulfilled | src/utils/request.ts:196-232 | the flag goes off and the overlay is hidden; a non-200 envelope runs the error table and rejects with its message (or '请求失败'), leaving pending requests and cache unchanged; 200 deletes the pending entry, caches `{data, now}` when the cache is enabled and resolves with the data |
| Request.Service.ResponseRejected | src/utils/request.ts:233-276 | the flag goes off and the overlay is hidden when a config is present; a cancellation rejects with no effect and no delete; otherwise a retry is taken first; only without one is the pending entry deleted, with the error table on the HTTP status or the network notice |
| Request.Service.CancelAllRequests | src/utils/request.ts:291-296 | every pending source is cancelled with the message (default '操作已取消') and the registry is empty |
| RequestUtils.GenerateRequestKey | src/utils/requestUtils.ts:5-8 | the identity starts with the url, '&', the method, '&'; when they hold no '&' they are its first two '&'-separated fields |
| RequestUtils.KeySeparatesEndpoints | src/utils/requestUtils.ts:5-8 | when neither url nor method contains '&', requests with equal identities have the same url and method |
| RequestUtils.KeyDependsOnKeyOrder | src/utils/requestUtils.ts:7 | the same params written in another key order give a different identity |
| RequestUtils.StripBlankKeeps | src/utils/requestUtils.ts:17-23 | no null, undefined or '' value is left; every other entry keeps its key and value; nothing is added |
| RequestUtils.StripBlankIdempotent | src/utils/requestUtils.ts:17-23 | stripping twice is stripping once |
| RequestUtils.Normalised | src/utils/requestUtils.ts:11-36 | `skipTransform` leaves the config unchanged; only `params` and `data` change; truthy params and non-FormData object bodies lose their blank entries, keeping every other entry; an absent, primitive or FormData body is untouched |
| RequestUtils.DeleteBlankEntries | src/utils/requestUtils.ts:17-23 | the for-in loop that deletes blank keys from the copy yields `StripBlank` of the entries |
| RequestUtils.FormatRequestData | src/utils/requestUtils.ts:11-36 | the rewritten config is `Normalised` of the given one |
| RequestUtils.NormalisedIdempotent | src/utils/requestUtils.ts:11-36 | normalising twice is normalising once |
| RequestUtils.ArrayBodyBecomesObject | src/utils/requestUtils.ts:28 | on the body `[7]`: the object spread turns an array body into an object keyed by index, `{"0": 7}` |
| RequestUtils.LoadingOptionsOverride | src/utils/requestUtils.ts:39-44 | a caller option overrides the default of the same key; defaults for other keys are kept; no other keys appear |
| RequestUtils.GetLoadingOptions | src/utils/requestUtils.ts:39-44 | the result is an object whose first three keys are the defaults' 'lock', 'text', 'background' in that order, and no key appears twice |
| Route.GetLoginPath | src/constants/route.ts:26-34 | the result starts with '/login', and is exactly '/login' iff the redirect is absent or empty |
| Route.LoginPathWithRedirect | src/constants/route.ts:31-33 | a non-empty redirect gives '/login?redirect=' followed by the form encoding of its URI-component encoding |
| Route.SlashPathRedirect | src/constants/route.ts:32-33 | a one-segment path such as '/dashboard' gives '/login?redirect=%252Fdashboard' |
| Route.RedirectValueIsQuerySafe | src/constants/route.ts:32-33 | the parameter value holds only ASCII alphanumerics, `*-._` and `%XX` escapes, so no raw '&', '#', '?', '=', '+' or space |
| Route.UriRoundTrip | src/constants/route.ts:32 | percent-decoding the URI-component encoding of ASCII text gives the text back |
| Route.FormRoundTrip | src/constants/route.ts:33 | form-decoding the form encoding of ASCII text gives the text back |
| Route.RedirectRoundTrip | src/constants/route.ts:32-33 | decoding the parameter value twice, as a form value and then as a URI component, recovers an ASCII redirect |
| UserStore.AnyHeld | src/stores/modules/user.ts:66 | true iff some required permission is held |
| UserStore.HasPermissions | src/stores/modules/user.ts:60-67 | an absent or empty requirement is met; otherwise any one held permission suffices |
| UserStore.HasPermissionsMonotone | src/stores/modules/user.ts:66 | gaining permissions never removes access |
| UserStore.AnyOfNotAllOf | src/stores/modules/user.ts:66 | any-of, not all-of, on a concrete example |
| UserStore.User.constructor | src/stores/modules/user.ts:20-24 | the token is the persisted one when truthy, else null; no profile, no permissions |
| UserStore.User.SetToken | src/stores/modules/user.ts:37-40 | the token is set in the state and its JSON copy under 'token' in the persisted store; the stored token is truthy iff the token was truthy or `undefined` |
| UserStore.User.ResetState | src/stores/modules/user.ts:53-57 | token and profile null, no permissions, so `hasUserInfo` is false |
| UserStore.User.Login | src/stores/modules/user.ts:70-81 | returns true iff the request resolved with readable data, and then stores its `token` (as "undefined" when the answer has none); otherwise returns false and leaves the token and the store alone |
| UserStore.User.Logout | src/stores/modules/user.ts:84-93 | whatever the request did, the state is reset and the persisted token removed; the call rejects iff the request did |
| UserStore.User.GetUserInfo | src/stores/modules/user.ts:96-111 | succeeds iff both requests do; the profile is stored as soon as it arrives; a failed permission request keeps the old permissions |
| Guard.CheckPermission | src/router/guard.ts:35-44 | a route without required permissions is open; otherwise `hasPermissions` decides |
| Guard.VisitorAccess | src/router/guard.ts:20-27 | without a token a page opens iff it is whitelisted; every other page (the home page included) goes to the login path for it |
| Guard.Decide | src/router/guard.ts:49-119 | a navigation goes through (as itself or replaced) only to a whitelisted page, or with a token and the permissions of the loaded or fetched profile; a replacement is the target itself; every login redirect carries the page as redirect target; with a token, '/login' goes to '/', and any other redirect is to '/403' |
| Guard.SessionAccess | src/router/guard.ts:66-102 | with a token, away from '/login': a loaded profile lets the page open iff `checkPermission` holds, else '/403'; a successful fetch gives the target with `replace` iff the fetched permissions suffice, else '/403'; a failed fetch gives the login path for the page |
| Guard.StoredUndefinedTokenIsSession | src/router/guard.ts:58-61 | the string "undefined" stored by a login answer without a token counts as a session: '/login' sends the user to '/' |
| Guard.LoginRedirectReturns | src/router/guard.ts:99 | for a non-empty ASCII path, the login page the guard sends a visitor to decodes back to the page they asked for |
| Guard.DocumentTitle | src/router/guard.ts:143-146 | the title starts with the route's title |
| Guard.RouterGuard.BeforeEach | src/router/guard.ts:49-161 | the loading flag is on; the one argument passed to `next` is the decision for the persisted token, loaded profile and permissions; the three branches change exactly: nothing; profile and permissions; or reset state, removed token and '验证失败，请重新登录' |
| Guard.RouterGuard.AfterEach | src/router/guard.ts:191-203 | the loading flag is off; the page scrolls unless `scrollToTop` is `false` |
| Guard.RouterGuard.OnError | src/router/guard.ts:206-211 | the loading flag is off |
| Format.FormatPhone | src/utils/format.ts:74-78 | an input not of length 11 is returned as it is; otherwise characters 3-6 become '*' and the rest are kept, at the same length |
| Format.FormatIdCard | src/utils/format.ts:96-100 | an input shorter than 15 is returned as it is; otherwise characters 6-13 become '*' and the rest are kept, at the same length |
| Format.FormatBankCard | src/utils/format.ts:85-89 | '' gives ''; spaces sit exactly at every fifth place, none at the end; removing them gives the input without whitespace |
| Format.PassesIsEscape | src/utils/format.ts:108-115 | because '&' is escaped first, the five passes escape each character exactly once and no entity is escaped again |
| Format.EscapeIsInert | src/utils/format.ts:108-115 | the escaped text holds no '<', '>', '"' or "'" |
| Format.FormatSafeHtml | src/utils/format.ts:107-116 | the output is the single-pass escape of the input; unescaping the five entities gives the input back; the output holds no '<', '>', '"' or "'" |
| Format.CamelToSeparated | src/utils/format.ts:56-58 | the output holds no capital letter |
| Format.SeparatedToCamel | src/utils/format.ts:65-67 | no separator followed by a lower-case letter is left; other leading characters are kept |
| Format.SeparatedToCamelUnchanged | src/utils/format.ts:65-67 | text with no separator followed by a lower-case letter is left as it is |
| Format.SeparatedToCamelAppend | src/utils/format.ts:65-67 | text that does not end in the separator converts independently of what follows it |
| Format.FormatCamelToKebab | src/utils/format.ts:56-58 | the output holds no capital letter; an ASCII name without '-' converts back to itself with `formatKebabToCamel` |
| Format.FormatKebabToCamel | src/utils/format.ts:65-67 | the output is no longer than the input and no '-' in it is followed by a lower-case letter; text with no such pair is returned as it is |
| Format.CamelRoundTrip | src/utils/format.ts:135-164 | the same for the snake_case key conversion with '_' |
| Format.ConvertKeys | src/utils/format.ts:123-174 | non-objects and null are returned as they are; arrays keep their length; objects (and FormData) become objects with unique keys |
| Format.ConvertItemsAt | src/utils/format.ts:127-129 | arrays are converted element by element |
| Format.ConvertEntriesAt | src/utils/format.ts:133-141 | each entry gets its renamed key and converted value |
| Format.ConvertObject | src/utils/format.ts:131-144 | the keys of the result are exactly the renamed keys, each holding the converted value of the last entry renamed to it |
| Format.FormatObjectKeysToSnake | src/utils/format.ts:123-145 | a falsy or non-object value is returned as it is; an object becomes an object with unique keys, none holding a capital letter |
| Format.FormatObjectKeysToCamel | src/utils/format.ts:152-174 | a falsy or non-object value is returned as it is; an object becomes an object with unique keys, in none of which '_' is followed by a lower-case letter |
| Shared.Persisted | src/utils/storage.ts:37-60 | reading back a stored `undefined` gives the string "undefined"; any other value reads back with the same JSON text; the value read back is truthy iff the stored one was truthy or `undefined` |
| Shared.LocalStorage.Get | src/utils/storage.ts:48-61 | a missing key reads as `null`; a present one as the value kept for it |
| Shared.LocalStorage.Set | src/utils/storage.ts:37-40 | the key now holds `Persisted(v)` and every other key is unchanged |
| Shared.LocalStorage.Remove | src/utils/storage.ts:67-69 | only the key is removed; it then reads as `null` |
| Json.JsonCopyKeepsText | src/utils/storage.ts:38-55 | `JSON.parse(JSON.stringify(v))` writes the same JSON text as `v` and has the same truthiness |
| Validator.IsEmpty | src/utils/validator.ts:6-20 | null, undefined, '', [], {} and FormData are empty; numbers, booleans, non-empty strings and non-empty arrays and objects are not |
| Validator.EmptyIsNotFalsy | src/utils/validator.ts:7-19 | 0 and false are not empty; [], {} and FormData are empty but truthy; the blank values are empty |
| Timing.Throttle.constructor | src/utils/index.ts:43-44 | the delay defaults to 300 and `lastTime` starts at 0 |
| Timing.Throttle.Call | src/utils/index.ts:46-53 | runs `fn` iff `now - lastTime >= delay`; a run that returns sets `lastTime := now`, one that throws leaves `lastTime` alone; otherwise nothing changes; the runs that returned stay `delay` apart |
| Timing.ThrowDoesNotThrottle | src/utils/index.ts:49-52 | a run that throws adds no completed run and leaves the last completed time, so the next call is not held off by it |
| Timing.SpacedRate | src/utils/index.ts:49-51 | runs k places apart are at least k delays apart |
| Timing.SpacedWindow | src/utils/index.ts:49-51 | a window of w ms holds at most w / delay + 1 runs |
| Timing.Debounce.constructor | src/utils/index.ts:23-24 | the delay defaults to 300 and no timer is pending |
| Timing.ToInt32 | src/utils/index.ts:30-33 | the 32-bit signed wrap-around of an integer: in range, congruent modulo 2^32, and the identity on values already in range |
| Timing.Wait | src/utils/index.ts:30-33 | the wait `setTimeout` applies: the delay itself below 2^31; 0 for negative delays and for delays from 2^31 to 2^32; otherwise congruent to the delay modulo 2^32 |
| Timing.LongDelayWraps | src/utils/index.ts:30-33 | a debounce delay of 2^31 ms fires at once and one of 2^32 + 5 ms after 5 ms |
| Timing.Debounce.Call | src/utils/index.ts:26-34 | the pending timer is replaced by one for `now + Wait(delay)` with the call's arguments; nothing runs |
| Timing.Debounce.Tick | src/utils/index.ts:30-33 | a due timer runs `fn` with its arguments and is cleared; otherwise nothing changes |
| Timing.AfterInvoke | src/utils/index.ts:27-33 | one timer is pending, holding the call's arguments, due no earlier than the call |
| Timing.AfterClock | src/utils/index.ts:30-33 | a due timer runs once and is cleared; before its due time nothing happens |
| Timing.BurstRunsOnce | src/utils/index.ts:26-34 | a burst of calls, followed by the clock passing the last call's delay, runs `fn` exactly once, with the last call's arguments |

## Left out

- **Transport.** Axios itself, its cancel tokens and the `get`, `post`, `put`, `del`, `uploadFile` and `downloadFile` wrappers are not modelled.
  - The response a request resolves or rejects with is an input.
  - `createCancelToken` is not modelled.
  - A cancel source is a fresh number, and cancelling it is a recorded `Cancellation`.
  - A retried config is handed back for resending, not re-sent.
  - A cached answer is returned as `Cached(data)`. It is not threaded through axios's adapter.
- **UI and browser effects.** ElMessage, ElLoading, NProgress, `window.location`, `document.title`, `window.scrollTo` and console logging are reduced to recorded effects or returned values.
  - `setTimeout` is a scheduled navigation or debounce timer. Time is a parameter.
  - The overlay records the options it was opened with.
- **Storage.** The persisted store is a map from keys to the values `get` returns. `set` stores the JSON copy of a value (`Shared.Persisted`), with `undefined` read back as the string "undefined". `sessionStorage`, `clear`, `keys`, `size`, `has` and the batch operations of `src/utils/storage.ts` are not modelled; no caller in the core uses them.
- **The app store.** `src/stores/modules/app/index.ts` is folded into `Shared.AppStore` as a single flag.
- **Request configuration.** The config is a value that the interceptors return updated; the aliasing of the config object that axios passes on is not modelled. Bodies other than JSON-like values, FormData and absent (strings, Blobs) are not distinguished.
- **Numbers.** Numbers are integers. Floating point, `NaN` and the JavaScript ordering of integer-like object keys (which come first in enumeration) are not modelled. Objects keep their insertion order.
- **Strings.** Strings are sequences of Unicode scalar values. JavaScript counts UTF-16 code units, which differ for characters outside the Basic Multilingual Plane.
- Format.CamelToSeparated: case mapping covers ASCII letters only; `toLowerCase` also maps other scripts.
- Format.FormatCamelToKebab: the round trip is stated for ASCII names without '-', where it holds.
- Route.RedirectRoundTrip: stated for ASCII redirect targets; the decoder models only escapes of ASCII bytes.
- Request.Service.ResponseRejected: the overlay is hidden for whatever config the error carries; which config axios attaches to a cancellation is not modelled.
- Guard.RouterGuard.BeforeEach: the `.catch` at src/router/guard.ts:157-160 that sends a failed navigation to '/500' is not reachable in the model; every branch passes one argument to `next` and none rejects.
- Timing.Debounce.Tick: a callback that throws skips `timer = null` (src/utils/index.ts:31-32), leaving a spent handle in the closure; the model clears its timer either way, since the timeout has fired and the next call's `clearTimeout` on the spent handle does nothing.
- **Other guard and store parts.** `router.beforeResolve` (page data preload) is not modelled. Neither are the user-store getters other than `hasUserInfo`, nor `setUserInfo`, `setPermissions` and `generateRoutes`: the setters are single assignments inlined in `GetUserInfo`, and `generateRoutes` returns `[]`.
- **Other utilities.** `formatRelativeTime` (date arithmetic), `formatFileSize` (logarithms and floating point), `randomNumber` (randomness), `getType` and `deepClone` (runtime reflection and object identity) are not modelled.

## Behaviour worth knowing

The model follows the code in each of these cases:

- A cache hit still switches the loading flag on and shows the overlay, because both happen before the cache is consulted (src/utils/request.ts:143-146 run before line 158). Nothing hides the overlay for a cached answer.
- A non-200 envelope does not remove the pending request (src/utils/request.ts:206-211).
- A `cacheTime` of 0 means the default five minutes (src/utils/request.ts:160). A `retryCount` of 0 stays 0 and disables retrying (src/utils/request.ts:178).
- The request identity keeps the key order of params and body, so the same fields in another order are a different request (src/utils/requestUtils.ts:7).
- A login answer without a `token` stores `undefined`, which the storage wrapper reads back as the string "undefined" (src/utils/storage.ts:37-59). That string is truthy, so the guard treats it as a session (`Guard.StoredUndefinedTokenIsSession`) and requests send `Bearer undefined` (`Request.StoredUndefinedTokenIsSent`).
- The redirect parameter is encoded twice (src/constants/route.ts:32-33), so '/dashboard' becomes `%252Fdashboard`, not `%2Fdashboard`. A single decode on the login page gives `%2Fdashboard`, and two are needed (`Route.RedirectRoundTrip`).
