# Taskosit core, modelled in Dafny

Taskosit is a task manager: an Express/MongoDB back end with JWT login and a
React front end. This project models its core logic as pure Dafny functions and
proves properties about them.

- **Refresh-token store** (`auth_controllers.dfy`, `auth_properties.dfy`).
  `login`, `refreshToken` and `logout` act on a user's list of refresh-token
  digests. Each returns the HTTP status, the JSON body and the new user
  collection.
  - The list is capped at ten entries.
  - A redeemed token is revoked.
  - Logging out twice is the same as logging out once.
  - A refresh token is signed over the user id and the issue second only. So a
    refresh in the same second as the token's issue gives back the same token,
    and that token stays redeemable. `SameSecondRefreshReplays` states this
    case, and single use is proved under the condition that the new token
    differs.
- **Task controller** (`task_order.dfy`, `query_params.dfy`,
  `task_controller.dfy`, `task_properties.dfy`).
  - Listing: the filter always pins the owner. The sort orders are the
    `sortMap` table, compared as the database compares fields. `page` and
    `limit` go through JavaScript's `parseInt(x) || default`. Then come skip,
    limit and the page count.
  - Create, update, status change and remove, with their 404/403 ownership
    checks.
- **Request validators** (`validators.dfy`). The `validate` combinator, and
  every rule set written as chains of checks and `trim()` write-backs. One
  lemma per rule set says which request bodies it accepts.
- **Error handler** (`error_handler.dfy`). Classifies an error into a reply,
  and links a rejected validation to the 400 reply it would get. The server
  as written does not install it (see "Left out").
- **Dashboard pages** (`rounding.dfy`, `home.dfy`, `analytics.dfy`,
  `navigation.dfy`, `profile.dfy`, `text.dfy`):
  - the statistics and achievement card;
  - progress and chart bars;
  - avatar initials;
  - the highlighted link;
  - the profile tab read from the URL;
  - the password form's confirmation gate.

Outside code is not modelled. It appears as parameters:

- JWT signing and verification (RFC 7519), the HMAC-SHA256 token digest
  (RFC 2104) and bcrypt are function values of a `Crypto` record. The
  properties that need them say what they assume: digest injectivity, and
  that signed tokens verify.
- The database's case-insensitive regular-expression match is a
  `textMatches` function parameter.
- The e-mail, ISO 8601 and database-id checks of the validator library are
  function values of a `Formats` record.
- The clock is a `now` second passed to the auth operations.
- The result of the password-change API call is a boolean.

## Model

| member | source | states |
|---|---|---|
| AuthControllers.FindFirst | back/controllers/authControllers.js:57 | `findOne`/`findById` return the first document in collection order that matches, and None only when none matches |
| AuthControllers.Cap | back/controllers/authControllers.js:69-70 | the capped list holds at most ten digests; it is the newest `min(10, n)` entries, in order |
| AuthControllers.Remove | back/controllers/authControllers.js:104 | filtering out a digest keeps exactly the other entries, never lengthens the list, and changes nothing when the digest is absent |
| AuthControllers.RemoveAppend | back/controllers/authControllers.js:136 | filtering distributes over concatenation, so the kept entries keep their original order |
| AuthControllers.RemoveIdempotent | back/controllers/authControllers.js:136 | filtering the same digest twice is filtering it once |
| AuthControllers.CapAppend | back/controllers/authControllers.js:67-70 | appending to a capped list and capping again equals capping the whole history once |
| AuthControllers.Login | back/controllers/authControllers.js:53-77 | the presented email is lower-cased and trimmed before the lookup, as the schema does to the query; 401 "Invalid credentials" with no state change exactly when the email is unknown or the password does not match; otherwise the pair signed for that user, and that user's list becomes the cap of the old list (absent read as empty) plus the new refresh token's digest |
| AuthControllers.Refresh | back/controllers/authControllers.js:79-115 | 400 "Missing token" exactly for a missing or empty token; 401 "Invalid refresh token" when verification fails; 401 "Invalid token user" for an unknown user; exactly `401 "Refresh token revoked"` with no change when the holder's list is absent or lacks the digest; 200 exactly when the token is present, names a user and its digest is in that user's list; no failure changes state; success returns the access token signed for that user at `now`, removes every copy of the digest, appends the new token's digest and caps at ten |
| AuthControllers.Logout | back/controllers/authControllers.js:117-142 | 400 exactly for a missing token; otherwise always 200 "Logged out"; an unverifiable token or an unknown user changes nothing; otherwise only that user's list changes, to the old list without the digest |
| AuthProperties.LoginIgnoresCaseAndSpace | back/models/User.js:13-14 | logging in with an email and with its lower-cased, trimmed form gives the same reply and the same users |
| AuthProperties.NormalEmailIdempotent | back/models/User.js:13-14 | normalising an email twice is normalising it once |
| AuthProperties.LookupsSurviveSave | back/controllers/authControllers.js:94-95 | saving a digest list does not change which user an email or an id finds |
| AuthProperties.HolderSurvivesSave | back/controllers/authControllers.js:94-99 | saving a digest list does not change which user a token names |
| AuthProperties.OperationsKeepBound | back/controllers/authControllers.js:67-70 | if no user holds more than ten digests, none does after any login, refresh or logout |
| AuthProperties.LoginKeepsBound | back/controllers/authControllers.js:67-70 | a login keeps every list at ten digests or fewer |
| AuthProperties.RefreshKeepsBound | back/controllers/authControllers.js:102-106 | a refresh keeps every list at ten digests or fewer |
| AuthProperties.LogoutKeepsBound | back/controllers/authControllers.js:135-137 | a logout keeps every list at ten digests or fewer |
| AuthProperties.RefreshIsSingleUse | back/controllers/authControllers.js:102-105 | with an injective digest, once a refresh succeeds and mints a different token, presenting the old token again gives 401 "Refresh token revoked" and changes nothing |
| AuthProperties.SameSecondRefreshReplays | back/controllers/authControllers.js:14-19 | when the minted token equals the presented one, the same token is redeemable again: single use fails |
| AuthProperties.SameSecondMintsSameToken | back/controllers/authControllers.js:14-19 | a token issued in a second and refreshed in that same second is minted again unchanged |
| AuthProperties.RefreshChains | back/controllers/authControllers.js:102-111 | when signed tokens verify, the token a refresh returns can itself be refreshed |
| AuthProperties.LogoutRevokes | back/controllers/authControllers.js:135-137 | after logging out with a token, refreshing with it is rejected as revoked |
| AuthProperties.LogoutIdempotent | back/controllers/authControllers.js:136 | a second identical logout answers the same and changes nothing |
| AuthProperties.LoginRunKeepsNewest | back/controllers/authControllers.js:67-70 | after any run of successful logins, the user's list is the newest ten of the old list followed by the digests issued, in issue order |
| AuthProperties.CapConcat | back/controllers/authControllers.js:69-70 | capping a prefix before appending does not change the final cap |
| AuthProperties.CapForgetsOldest | back/controllers/authControllers.js:69-70 | of more than ten distinct digests, the cap keeps the last ten and none of the older ones |
| AuthProperties.ManyLoginsForgetOldest | back/controllers/authControllers.js:69-70 | after more than ten logins with distinct digests, starting from an empty list, the oldest tokens' digests are gone and the newest ten remain |
| TaskOrder.SortOrder | back/controllers/taskController.js:26-38 | no `sort` parameter gives due date ascending then creation descending; a `sortMap` key gives its order; any other value gives creation descending |
| TaskOrder.CompareAntisymmetric | back/controllers/taskController.js:35-37 | the multi-key comparison is antisymmetric |
| TaskOrder.CompareTransitive | back/controllers/taskController.js:35-37 | the multi-key comparison is transitive, so sorting by it is well defined |
| TaskOrder.Insert | back/controllers/taskController.js:35-37 | inserting into a sorted list keeps it sorted and adds exactly that document |
| TaskOrder.Sort | back/controllers/taskController.js:35-37 | the result is sorted under the requested order and is a permutation of the input |
| QueryParams.IntParam | back/controllers/taskController.js:40-41 | never 0; a missing parameter, an unparseable one and a parsed 0 all give the default; otherwise the parsed integer |
| QueryParams.ParseIntDecimal | back/controllers/taskController.js:40-41 | `parseInt` reads every integer's decimal text back as that integer |
| QueryParams.IntParamDecimal | back/controllers/taskController.js:40-41 | a page or limit written as a decimal number is that number, except 0, which becomes the default |
| QueryParams.CeilDiv | back/controllers/taskController.js:52 | the page count is the least number of pages of `limit` rows that holds `total`, for either sign of `limit` |
| TaskController.BuildFilter | back/controllers/taskController.js:7-22 | the filter always restricts to the requester; a status, category or search clause is there exactly when that parameter is present and non-empty, and carries its value |
| TaskController.Select | back/controllers/taskController.js:24 | keeps exactly the documents that satisfy the filter |
| TaskController.Window | back/controllers/taskController.js:42-43 | the page is the run of `|limit|` rows starting at `skip`, shorter only at the end of the list |
| TaskController.GetAll | back/controllers/taskController.js:4-60 | a negative skip gives 500 "Failed To fetch tasks!"; otherwise 200 with the sorted matching window, the matching total, the page and the page count; the collection is never changed |
| TaskController.CreateTask | back/controllers/taskController.js:62-81 | 201 with a new task owned by the requester, whatever the body says; status "pending"; no creation time; the given fields kept; only the new id is added, and the id counter moves on by one |
| TaskController.Guard | back/controllers/taskController.js:89-91 | a missing id gives 404 "Task not found", another user's task 403 "Not authorized", neither changing state; otherwise the handler goes on |
| TaskController.UpdateTask | back/controllers/taskController.js:82-103 | 404 "Task not found" or 403 "Not authorized" with no change, exactly as the guard says; otherwise 201 and only that task changes: each of title, description, category, due date and status given in the update is stored, each one not given keeps its old value, and the owner and creation time stay |
| TaskController.UpdateTaskStatus | back/controllers/taskController.js:105-131 | 400 "No Status Provided" for a missing or unknown status, before any lookup; then 404 "Task not found", then 403 "Not authorized to update this task", none changing state; 200 changes only that task's status |
| TaskController.RemoveTask | back/controllers/taskController.js:132-145 | 404 "Task not found" or 403 "Not authorized" with no change; 204 with no body removes exactly that task and leaves the rest untouched |
| TaskProperties.ListingIsPinnedToRequester | back/controllers/taskController.js:7 | every listed task belongs to the requester and satisfies the query's filter |
| TaskProperties.RankedIsExactlyMatching | back/controllers/taskController.js:24-38 | the sorted result holds exactly the stored documents that match the filter |
| TaskProperties.PageIsSortedSlice | back/controllers/taskController.js:40-45 | with a positive page and limit, the listing is the slice `[skip, skip+limit)` of the sorted matching list, at most `limit` rows |
| TaskProperties.CreatedTaskIsListed | back/controllers/taskController.js:64-72 | a created task appears in its creator's unfiltered listing |
| TaskProperties.UpdateAgreesWithStatusChange | back/controllers/taskController.js:82-131 | an update that only sets a valid status stores the same as the status handler, and succeeds exactly when it does |
| TaskProperties.UpdatedTaskIsListed | back/controllers/taskController.js:94-101 | after a successful update that sets a status, the updated task is in its owner's listing filtered by that status |
| TaskProperties.RemovedTaskIsGone | back/controllers/taskController.js:139-140 | after a removal, no listing shows the task and removing it again gives 404 |
| Validators.StepErrors | back/Middlewares/validators.js:25 | a chain reports one error per failing check, in order, and none exactly when every check passes |
| Validators.RuleErrors | back/Middlewares/validators.js:25-28 | an optional chain reports nothing for an undefined field; every error names the chain's field |
| Validators.LengthCount | back/Middlewares/validators.js:14 | `isLength` counts characters but not the variation selectors U+FE0E and U+FE0F; never more than the string's length, and exactly it without selectors |
| Validators.Errors | back/Middlewares/validators.js:4-5 | the error list is empty exactly when every rule passes |
| Validators.ErrorsPerField | back/Middlewares/validators.js:3-8 | the errors naming a field are exactly the errors of the chains on that field, whatever order the chains finish in |
| Validators.Sanitize | back/Middlewares/validators.js:24-33 | after the sanitisers, every field some chain trims holds its trimmed value, an undefined field a required chain trims holds "", and nothing else changes |
| Validators.SanitizeIdempotent | back/Middlewares/validators.js:24-33 | sanitising a sanitised body changes nothing |
| Validators.Validate | back/Middlewares/validators.js:3-8 | `next()` with the sanitised body exactly when every rule passes; otherwise `next(errors)` with the non-empty list of all errors |
| Validators.BoundedText | back/Middlewares/validators.js:25 | the optional string-length chain passes exactly when the field is undefined or within the bound |
| Validators.RegisterAccepts | back/Middlewares/validators.js:11-15 | registration passes exactly with a name that is not blank after trimming, a valid e-mail and a password of six characters or more |
| Validators.RegisterErrors | back/Middlewares/validators.js:11-15 | the chains of registration report no error under the same condition |
| Validators.LoginAccepts | back/Middlewares/validators.js:16-19 | login passes exactly with a valid e-mail and a non-empty password |
| Validators.LoginErrors | back/Middlewares/validators.js:16-19 | the chains of login report no error under the same condition |
| Validators.TaskCreateAccepts | back/Middlewares/validators.js:23-29 | creation passes exactly with a title not blank after trimming, plus a description of at most 5000 characters, a valid due date and a valid user id, each when given |
| Validators.TaskCreateErrors | back/Middlewares/validators.js:23-29 | the chains of creation report no error under the same condition |
| Validators.TaskCreateSanitizes | back/Middlewares/validators.js:24-26 | an accepted creation carries a title that is not blank, and reaches the controller with its title and category trimmed and every other field as sent |
| Validators.SanitizeTaskBody | back/Middlewares/validators.js:24-26 | the create chains' write-back trims exactly the title and the category |
| Validators.TaskUpdateAccepts | back/Middlewares/validators.js:30-36 | every field is optional; a given title must not be blank, a given description at most 5000 characters, a given due date valid and a given status one of the three |
| Validators.TaskUpdateErrors | back/Middlewares/validators.js:30-36 | the chains of an update report no error under the same condition |
| Validators.StatusOnlyAccepts | back/Middlewares/validators.js:37-39 | passes exactly when `status` is given and one of the three values; a missing status fails both checks |
| Validators.ProfileUpdateAccepts | back/Middlewares/validators.js:43-46 | a given name must not be blank after trimming and a given e-mail must be valid |
| Validators.ProfileUpdateErrors | back/Middlewares/validators.js:43-46 | the chains of a profile update report no error under the same condition |
| Validators.PasswordChangeAccepts | back/Middlewares/validators.js:47-50 | passes exactly with a non-empty current password and a new one of six characters or more |
| Validators.PasswordChangeErrors | back/Middlewares/validators.js:47-50 | the chains of a password change report no error under the same condition |
| ErrorHandler.Entries | back/Middlewares/errorHandler.js:5 | one `{ field, msg }` entry per validation error, in the same order |
| ErrorHandler.Handle | back/Middlewares/errorHandler.js:1-15 | headers sent: delegate and never reply; a validation result: 400 with its entries, even when a status is set; else a non-zero status: that status with the message or "Error"; else 500 "Internal Server Error" |
| ErrorHandler.ErrorsNameRuleFields | back/Middlewares/errorHandler.js:5 | every reported error names the field of one of the rules |
| ErrorHandler.RejectedRequestIs400 | back/Middlewares/errorHandler.js:4-7 | were the handler installed, a request the validators reject would be answered 400 with one entry per error, each naming a checked field |
| Rounding.RoundDiv | front/src/pages/Home.jsx:98 | `Math.round` of an exact quotient: within a half of it, a half rounding up |
| Rounding.Percentage | front/src/pages/Analytics.jsx:45 | 0 for a non-positive whole, otherwise the nearest integer to `100 * part / whole` |
| Rounding.PercentageBounds | front/src/pages/Home.jsx:98 | a share of a whole lies in [0, 100]; none of it is 0 and all of it is 100 |
| Rounding.PercentageMonotone | front/src/pages/Analytics.jsx:45 | a larger share never shows a smaller percentage |
| Home.CountStatus | front/src/pages/Home.jsx:95-97 | the count is at most the total; it equals the total exactly when every task has the status, and is 0 exactly when none has |
| Home.CountIsMultiplicity | front/src/pages/Home.jsx:95-97 | the count equals the multiplicity of the status among the tasks' statuses |
| Home.CountsPartition | front/src/pages/Home.jsx:95-97 | the counts of three distinct statuses add up to at most the total, and to the total when every task has one of them |
| Home.ComputeStats | front/src/pages/Home.jsx:93-100 | `total` is the number of tasks, each count is the exact-match count, the rate is the completed percentage |
| Home.StatsBounds | front/src/pages/Home.jsx:94-98 | each count and their sum are at most the total; the rate lies in [0, 100], is 0 with no tasks and 100 when every task is completed |
| Home.RecentTasks | front/src/pages/Home.jsx:139 | the first `min(5, n)` tasks, in fetched order |
| Home.TierOf | front/src/pages/Home.jsx:267-312 | the card chosen is the only one whose band of rate and total holds |
| Home.AccentMatchesTier | front/src/pages/Home.jsx:235-259 | the card's colour and icon agree with its text; the two cards below 20% share one accent |
| Home.ReadyOnlyWhenEmpty | front/src/pages/Home.jsx:294-312 | on the page's own statistics, "Ready to Start?" shows exactly when there are no tasks |
| Home.TaskNoun | front/src/pages/Home.jsx:300 | the singular "task" exactly when the total is 1 |
| Analytics.ProgressWidth | front/src/pages/Analytics.jsx:44-45 | 0 when `max <= 0`; otherwise the nearest integer to `100 * value / max`, in [0, 100] for `0 <= value <= max` |
| Analytics.ChartBar | front/src/pages/Analytics.jsx:63-75 | height 0 for a non-positive maximum, otherwise the rounded percentage; drawn at least 5%; the count printed exactly when positive |
| Analytics.ChartMax | front/src/pages/Analytics.jsx:145-146 | at least 1, at least every count, and either 1 or one of the counts |
| Analytics.BarsFitChart | front/src/pages/Analytics.jsx:145-146 | every bar of a chart of non-negative counts has height in [0, 100] and is drawn between 5% and 100%; the highest day fills the chart |
| Analytics.CategoryCompletion | front/src/pages/Analytics.jsx:372 | 0 for a category without tasks; otherwise the rounded completed percentage, in [0, 100], 100 when all are completed |
| Text.Trim | back/Middlewares/validators.js:12 | the result is the infix of the value with only white space before and after it, and neither starts nor ends with white space; "" exactly for an all-white-space value |
| Text.TrimIdempotent | back/Middlewares/validators.js:12 | trimming a trimmed value changes nothing |
| Text.LowerOfTrimmed | back/models/User.js:13-14 | lower-casing a trimmed email leaves it trimmed |
| Text.LowerIdempotent | back/models/User.js:13 | lower-casing twice is lower-casing once |
| Text.JoinSplit | front/src/pages/Profile.jsx:23 | joining the pieces of `split(" ")` with single spaces gives back the string |
| Text.FirstCharsOfSplit | front/src/components/Navigation.jsx:67-70 | the first characters of the pieces of `split(" ")` are exactly the word starts of the string, in order |
| Navigation.Initials | front/src/components/Navigation.jsx:65-73 | "U" for an undefined or empty name; otherwise the first two upper-cased word starts; never more than two characters |
| Navigation.BlankNameHasNoInitials | front/src/components/Navigation.jsx:66-70 | a name of spaces only passes the "U" test but gives "" |
| Navigation.AtMostOneActive | front/src/components/Navigation.jsx:92-94 | at most one main link is highlighted, and one is exactly when the path is one of the three hrefs |
| Profile.AvatarInitials | front/src/pages/Profile.jsx:23 | the upper-cased word starts with no length cap, or "U" when there are none; never empty |
| Profile.OneInitialPerWord | front/src/pages/Profile.jsx:23 | a name made of `n` words joined by single spaces has exactly `n` initials |
| Profile.InitialTab | front/src/pages/Profile.jsx:68 | the `tab` parameter as given, unchecked, or "profile" |
| Profile.NextTab | front/src/pages/Profile.jsx:82-87 | a later URL switches to the named tab only if it is profile, security or preferences, and otherwise leaves the tab |
| Profile.KnownTabStaysKnown | front/src/pages/Profile.jsx:82-87 | once a known tab shows, no series of URL changes leaves the known tabs |
| Profile.UnknownTabPersists | front/src/pages/Profile.jsx:82-87 | an unknown first tab stays until a URL names a known one |
| Profile.SubmitPassword | front/src/pages/Profile.jsx:113-134 | a mismatch makes no call and keeps the form; otherwise only the current and new passwords are sent, and an accepted call clears all three fields |

## Left out

- Cryptography and time: JWT signing, verification and expiry, the HMAC digest and bcrypt are parameters (see above). Token expiry and `expiresIn` parsing are not modelled.
- Database I/O: the collections are in memory.
  - `findOne`, `findById`, `save` and `countDocuments` are lookups and updates on them.
  - The regular-expression search is the `textMatches` parameter.
  - A request that fails inside the database gives the handler's 500 reply. This is not modelled, except for the negative skip in `getAllDAta`, which the database refuses.
- Concurrency: two requests that read and write the same user's list can lose an update (last writer wins). The model is sequential.
- `front/src/api.js`, with its refresh interceptor and queue of waiting requests, is not part of this model: its point is coordinating concurrent requests.
- Rounding.RoundDiv: computes the rounding on the exact quotient. The source rounds a floating-point product, which can differ by one at exact halves that are not representable in binary.
- Routers, `back/server.js`, rate limiting and `back/controllers/profileController.js` are not part of this model. They are wiring and a thin store wrapper.
- The maintenance scripts and the presentation-only components are not part of this model. They are rendering, styling and network calls.
- Task schema: `back/models/Task.js` declares only title, description, status and owner. A strict schema would therefore drop `category` and `dueDate` on save, and there is no `createdAt`. The model keeps the fields the controller writes and sorts on.
- TaskController.UpdateTask: an undefined field in the update payload leaves the stored value. This is the model's reading of the database's handling of `undefined`, not something the controller decides.
- TaskController.CreateTask: `dueDate` arrives already parsed to a number, or absent. Date parsing and an empty-string due date are not modelled.
- Validators.RuleErrors: request bodies map field names to strings. Non-string JSON values (numbers, arrays, objects) are not modelled, so `isString()` fails only on an undefined field.
- ErrorHandler.Entries: takes an entry's field from the error's `param`, as the handler reads it. Newer validator releases name that property `path`, and then the field would be undefined.
- ErrorHandler.Handle: any non-zero status is replied with as is. An out-of-range status, which the framework itself would reject, is not modelled.
- Text.ToUpper: upper-cases ASCII letters only. JavaScript's `toUpperCase` also maps other letters, and can lengthen a string.
- Navigation.Initials: takes the first two characters, not the first two UTF-16 code units.
- QueryParams.IntParam: integers are exact. `parseInt` of very long digit strings loses precision in the source.
- TaskOrder.SortOrder: a `sort` value naming an inherited object property, such as `constructor`, is treated like any unknown value. The source would look it up on the `sortMap` object's prototype.
- AuthControllers.Login: the email is lower-cased for ASCII letters only. The schema's `lowercase` setter uses JavaScript's `toLowerCase`, which also maps other letters.
- Validators.Validate: the `toDate()` sanitiser of the due-date chains is not modelled. Values stay strings, so the sanitised body holds the due date as sent; the task controller takes the due date already parsed.
- Validators.Errors: lists the errors chain by chain in rule order. The source runs the chains with `Promise.all`, and the list follows the order in which the chains finish. Only the order of the errors on one field is fixed, and `Validators.ErrorsPerField` states it.
- TaskController.BuildFilter: every query parameter is undefined or a single string. A repeated or bracketed key, which the query parser turns into an array or an object, is not modelled. In the source a repeated `status` lists tasks of all the given statuses, a bracketed key becomes a database query operator, a repeated `search` makes the database fail with 500, and a repeated `page` or `limit` is read by `parseInt` from the comma-joined values.
- TaskController.GetAll: documents that tie under the sort keys are listed in id order. The database leaves the order of ties unspecified. With no `createdAt` stored, every document ties under the default and `created` orders, so successive pages of the source can repeat or skip tasks.
- ErrorHandler.Handle: `back/server.js` never installs this handler (it installs only `cors`, `express.json` and the task routes). So in the program as written a rejected request gets the framework's default error reply. `ErrorHandler.RejectedRequestIs400` states what the handler would answer once installed.
- Profile.AvatarInitials: takes the first character of each word, not its first UTF-16 code unit.
- Strings are sequences of Unicode characters. A JavaScript string holding a lone surrogate has no counterpart here.
- Home.ComputeStats: the dashboard's list is the reply to one listing request without `page` or `limit`, so it holds at most the first 20 of the user's tasks in the default order. The total and the completion rate are those of that page, not of all the user's tasks.
- The greeting by time of day, the loading and empty states, toasts and navigation after logout are not modelled: they are presentation and clock reads.
