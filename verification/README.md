# Strata Manager dashboard logic in Dafny

Strata Manager is a Next.js portal for a strata (owners' corporation). The
portal keeps four record lists in React state:

- the strata roll of owners;
- maintenance requests;
- levies and the annual budget;
- documents.

Each page changes its list through small event handlers. A protected page is
shown only when a browser cookie marks the visitor as logged in. The login
page writes that cookie.

This project models that logic as pure Dafny functions over immutable page
states and proves what the handlers promise. Each handler maps a page state,
and the event's inputs, to the next page state plus the notification
("toast") and navigation it raises.

Modules:

- `Common`: the `Option` type and toasts.
- `Text`: the JavaScript string operations the pages use. These are `trim`
  with the ECMAScript white-space set, ASCII `toLowerCase`/`toUpperCase`,
  `startsWith`, `includes`, `split`/`join` on one character, and decimal
  rendering of a natural number.
- `Seqs`: `filter` (an order-preserving subsequence that keeps each kept
  value's count), conditional `map` (pointwise, same length) and `find` (the
  first match).
- `Ids`: the fresh-id rule `Math.max(...ids) + 1`. It also contains the
  as-written JavaScript version over numbers that include `-Infinity`.
- `Session`: the cookie guard every dashboard page runs on mount, and the
  loading/authenticated render gate.
- `Login`: the login form, its success condition, and the session cookie
  it writes.
- `StrataRoll`, `Maintenance`, `Finances`, `Documents`: the four pages.

## Model

| member | source | states |
|---|---|---|
| Ids.IdsOf | app/dashboard/strata-roll/page.tsx:169 | `list.map((r) => r.id)`: one id per record, in list order |
| Ids.Max | app/dashboard/strata-roll/page.tsx:169 | the maximum of a non-empty id list is one of its ids and bounds all of them |
| Ids.NextId | app/dashboard/strata-roll/page.tsx:169 | the fresh id exceeds every id in use. On a non-empty list it is exactly max + 1. On an empty list it is 1 (see Findings) |
| Ids.NextIdKeepsUnique | app/dashboard/strata-roll/page.tsx:169 | prepending or appending the fresh id to a list of distinct ids keeps them distinct |
| Ids.NextIdAgreesWhenNonEmpty | app/dashboard/strata-roll/page.tsx:169 | on a non-empty list the corrected rule equals `Math.max(...ids) + 1` computed over JavaScript numbers |
| Ids.MaxAgrees | app/dashboard/strata-roll/page.tsx:169 | `Math.max` over finite numbers equals the integer maximum |
| Ids.JsMax | app/dashboard/strata-roll/page.tsx:169 | `Math.max(...xs)` over JavaScript numbers is `-Infinity` iff every element is `-Infinity` (in particular on an empty list); otherwise it is one of the elements and no finite element exceeds it |
| Ids.NextIdAsWritten | app/dashboard/strata-roll/page.tsx:169 | the as-written id `Math.max(...ids) + 1` is `-Infinity` iff no id is finite; otherwise it is one more than some existing id and greater than every finite id |
| Ids.AsWrittenIdsCollideOnEmptyList | app/dashboard/strata-roll/page.tsx:169 | as written, the id for an empty list is `-Infinity`, and the next id after that is `-Infinity` again |
| Seqs.Filter | app/dashboard/strata-roll/page.tsx:215 | the result holds exactly the elements passing the predicate, each as many times as in the input, as an order-preserving subsequence no longer than the input |
| Seqs.FilterAppend | app/dashboard/strata-roll/page.tsx:215 | filtering a concatenation concatenates the filtered parts |
| Seqs.FilterKeepsAll | app/dashboard/strata-roll/page.tsx:215 | a filter every element passes returns the whole list |
| Seqs.FilterIdempotent | app/dashboard/strata-roll/page.tsx:215 | filtering twice with one predicate equals filtering once |
| Seqs.Replace | app/dashboard/maintenance/page.tsx:164-166 | the conditional `map` keeps length and replaces exactly the matching elements. Every other element is untouched |
| Seqs.Find | app/dashboard/strata-roll/page.tsx:212 | `find` returns nothing iff no element matches. Otherwise it returns the element at the first matching index |
| Seqs.FirstMatch | app/dashboard/strata-roll/page.tsx:212 | the first index whose element matches, with no match before it, or the length when nothing matches |
| Text.Trim | app/dashboard/page.tsx:26 | the trimmed string is no longer than the input, and has no white space at either end |
| Text.TrimPadding | app/dashboard/page.tsx:26 | the input is the trimmed string surrounded by white space only |
| Text.TrimOfPadded | app/dashboard/page.tsx:26 | a string without outer white space, padded with white space, trims back to itself |
| Text.TrimIdempotent | app/dashboard/page.tsx:26 | trimming twice equals trimming once |
| Text.TrimIgnoresPadding | app/dashboard/page.tsx:26 | extra white space around a string does not change its trim |
| Text.ToLower | app/dashboard/strata-roll/page.tsx:134-136 | lower-casing keeps length and maps each character by itself |
| Text.ContainsEmpty | app/dashboard/strata-roll/page.tsx:134-136 | every string contains the empty string |
| Text.IndexOf | app/dashboard/page.tsx:25 | the first position of a character that occurs in the string |
| Text.Split | app/dashboard/page.tsx:25 | `split` on a character yields at least one part, and no part contains the separator |
| Text.JoinSplit | app/dashboard/page.tsx:25 | joining the parts of a split with the separator gives back the string |
| Text.SplitJoin | app/dashboard/page.tsx:25 | splitting a join of separator-free parts gives back the parts |
| Text.Decimal | app/login/page.tsx:39 | the decimal rendering of a number consists of digits with no leading zero |
| Text.DecimalRoundTrip | app/login/page.tsx:39 | the decimal rendering reads back as the number it renders |
| Session.IsLoggedIn | app/dashboard/page.tsx:25-26 | the guard passes iff some `;`-separated piece of the cookie string, trimmed, starts with `isLoggedIn=true` |
| Session.SomeSegmentAdmits | app/dashboard/page.tsx:26 | `some` over the segments holds iff some segment, trimmed, starts with `isLoggedIn=true` |
| Session.SegmentsDecide | app/dashboard/page.tsx:25-26 | a cookie made of separator-free segments passes the guard iff one of those segments passes after trimming |
| Session.SegmentOrderIrrelevant | app/dashboard/page.tsx:25-26 | reordering or repeating segments does not change the guard's verdict |
| Session.SegmentPaddingIrrelevant | app/dashboard/page.tsx:25-26 | white space around segments does not change the guard's verdict |
| Session.Spaced | app/dashboard/page.tsx:25 | prefixing every pair but the first with a space keeps the number of segments |
| Session.SpacedJoin | app/dashboard/page.tsx:25 | the browser's `"; "`-joined cookie string is the `";"`-join of the space-prefixed pairs |
| Session.DocumentCookieDecides | app/dashboard/page.tsx:25-26 | a browser cookie string passes the guard iff one of its name=value pairs starts with `isLoggedIn=true` |
| Session.LoneSegment | app/dashboard/page.tsx:26 | for one segment without separator or outer white space, the guard is a plain prefix test |
| Session.PrefixMatchAdmits | app/dashboard/page.tsx:26 | the match is a prefix match: `isLoggedIn=trueX` passes |
| Session.FalseFlagRefused | app/dashboard/page.tsx:26 | `isLoggedIn=false` is refused |
| Session.EmptyCookieRefused | app/dashboard/page.tsx:25-26 | an empty cookie string is refused |
| Session.FlagAdmits | app/dashboard/page.tsx:26 | the flag `isLoggedIn=true` contains no separator and passes the guard by itself |
| Session.FlagPairAdmits | app/dashboard/page.tsx:25-26 | whatever other cookies surround it, a stored `isLoggedIn=true` pair admits the visitor |
| Session.Render | app/dashboard/page.tsx:37-47 | the page shows the spinner iff it is loading, nothing iff loading is over and the visitor is not authenticated, and its content iff loading is over and the visitor is authenticated |
| Session.CheckSession | app/dashboard/page.tsx:23-35 | after the mount effect loading is over. The page redirects to `/login` iff the cookie fails the guard. It becomes authenticated iff it already was or the cookie passes |
| Session.ContentOnlyWhenLoggedIn | app/dashboard/page.tsx:37-47 | on mount a spinner shows. After the check the content renders iff the cookie passes, and nothing renders iff it fails |
| Login.HandleChange | app/login/page.tsx:22-25 | a text input changes only its own field |
| Login.HandleCheckboxChange | app/login/page.tsx:27-29 | the checkbox changes only `rememberMe` |
| Login.MaxAge | app/login/page.tsx:39 | the cookie lives 30 days with "remember me" and one day without |
| Login.BeginSubmit | app/login/page.tsx:33 | a submission starts loading and keeps the form |
| Login.Submit | app/login/page.tsx:31-53 | a submission ends with loading over and the form kept. The cookie is written iff email and password are both non-empty, with the max-age `rememberMe` selects. The page navigates to `/dashboard` iff the cookie is written, and the toast is destructive iff it is not |
| Login.FinishSubmit | app/login/page.tsx:37-52 | the decision uses the form as it was when submitted. The cookie is written iff its email and password are both non-empty, and then carries the chosen max-age. The page navigates to `/dashboard` iff the cookie is written. The toast reads "Login successful" or, destructive, "Login failed". Loading ends and the form on the page is kept |
| Login.EditsWhileWaitingIgnored | app/login/page.tsx:31-52 | typing during the delay changes the form shown but not the cookie written or the navigation |
| Login.NoSubmitWhileInFlight | app/login/page.tsx:129 | the submit button is disabled while a submission is in flight and enabled again once it ends |
| Login.SessionCookieText | app/login/page.tsx:39 | the cookie written is `isLoggedIn=true; path=/; max-age=` followed by 2592000 or 86400 |
| Login.SessionCookieStoresFlag | app/login/page.tsx:39 | the name=value pair the browser stores from that write is `isLoggedIn=true` |
| Login.LoginAdmitsVisitor | app/login/page.tsx:37-44 | after a login with both fields filled, the stored cookie passes the dashboard guard whatever other cookies are present |
| StrataRoll.FilteredOwners | app/dashboard/strata-roll/page.tsx:132-137 | an owner is listed iff the lower-cased term occurs in its lower-cased name, unit or email. Each is listed as many times as it occurs, in an order-preserving subsequence |
| StrataRoll.EmptySearchListsAll | app/dashboard/strata-roll/page.tsx:132-137 | an empty search term lists every owner |
| StrataRoll.UpdateOwner | app/dashboard/strata-roll/page.tsx:147-162 | editing keeps length and every id. It rewrites the fields of the records with the edited id from the form, and leaves all others unchanged |
| StrataRoll.AddOwner | app/dashboard/strata-roll/page.tsx:167-180 | a new owner is appended after the unchanged list, with the form's fields and id = max + 1 |
| StrataRoll.Submit | app/dashboard/strata-roll/page.tsx:144-196 | submit updates in edit mode and appends otherwise. Either way it resets the form, leaves edit mode, closes the dialog and raises an "Owner updated" or "Owner added" toast naming the owner |
| StrataRoll.Edit | app/dashboard/strata-roll/page.tsx:199-208 | editing copies the owner's fields into the form, rendering the entitlement as text, then enters edit mode and opens the dialog |
| StrataRoll.RemoveOwner | app/dashboard/strata-roll/page.tsx:215 | deletion keeps exactly the owners with another id, each as many times as before, in order |
| StrataRoll.Delete | app/dashboard/strata-roll/page.tsx:211-220 | a declined confirmation changes nothing. A confirmed one removes the id and raises an "Owner removed" toast naming the first owner with that id |
| StrataRoll.AddKeepsIdsUnique | app/dashboard/strata-roll/page.tsx:167-180 | adding keeps owner ids distinct |
| StrataRoll.UpdateKeepsIds | app/dashboard/strata-roll/page.tsx:147-162 | editing leaves the id list unchanged |
| StrataRoll.RemoveKeepsIdsUnique | app/dashboard/strata-roll/page.tsx:215 | deleting keeps owner ids distinct |
| StrataRoll.RemoveIdempotent | app/dashboard/strata-roll/page.tsx:215 | deleting an id twice equals deleting it once |
| StrataRoll.EditThenSaveChangesNothing | app/dashboard/strata-roll/page.tsx:144-208 | opening an owner for editing and saving without changes leaves the roll as it was. This needs ids to be distinct and the entitlement's text to read back as its number |
| Maintenance.NewRequest | app/dashboard/maintenance/page.tsx:130-142 | a new request takes id = max + 1 and is pending. It is submitted by "John Smith", dated today, and takes title, description, unit and priority from the form |
| Maintenance.Submit | app/dashboard/maintenance/page.tsx:127-157 | a new request is prepended to the unchanged list. The form resets with priority "medium" and the new-request dialog closes. The status dialog is untouched. The toast reads "Request submitted" |
| Maintenance.HandleSelectChange | app/dashboard/maintenance/page.tsx:119-121 | choosing a priority changes only the form's priority |
| Maintenance.HandleStatusChange | app/dashboard/maintenance/page.tsx:123-125 | choosing a status changes only the pending new status |
| Maintenance.OpenUpdateStatusDialog | app/dashboard/maintenance/page.tsx:179-183 | opening the dialog selects the request, pre-fills its current status and opens the dialog. The list and form are kept |
| Maintenance.SetStatus | app/dashboard/maintenance/page.tsx:164-166 | only the status of records with the selected id changes. Length and everything else are kept |
| Maintenance.UpdateStatus | app/dashboard/maintenance/page.tsx:159-177 | with no selection or an empty status nothing happens. Otherwise the selected id's status is set and the dialog closes. Selection and new status are cleared. The "Status updated" toast names the request's title and the new status |
| Maintenance.SubmitKeepsIdsUnique | app/dashboard/maintenance/page.tsx:130-144 | submitting keeps request ids distinct |
| Maintenance.OpenChooseUpdate | app/dashboard/maintenance/page.tsx:159-183 | open, choose a non-empty status, confirm: exactly the chosen request's status changes and the ids are kept |
| Maintenance.TabRequests | app/dashboard/maintenance/page.tsx:430-524 | each tab lists exactly the requests it admits, each as many times as it occurs, in order: pending, in-progress or scheduled, completed, or everything |
| Maintenance.UpdateOfferedIffNotCompleted | app/dashboard/maintenance/page.tsx:414-511 | in whichever tab a request is listed, an update is offered iff it is not completed |
| Maintenance.TabsPartition | app/dashboard/maintenance/page.tsx:430-524 | when every status is one the page offers, the three status tabs together list each request exactly once |
| Maintenance.ExactlyOneStatusTab | app/dashboard/maintenance/page.tsx:430-524 | a request with one of the four offered statuses is in exactly one of the pending, in-progress and completed tabs |
| Maintenance.SubmittedHeadsPendingTab | app/dashboard/maintenance/page.tsx:133-144 | a submitted request heads the pending tab, above the requests listed there before |
| Finances.NewLevy | app/dashboard/finances/page.tsx:133-142 | a new levy takes id = max + 1 and is pending. Its unit, parsed amount, due date and period come from the form |
| Finances.SubmitLevy | app/dashboard/finances/page.tsx:130-157 | a new levy is prepended to the unchanged list. The form clears, the dialog closes, the budget is kept, and the toast names the unit |
| Finances.SubmitLevyKeepsIdsUnique | app/dashboard/finances/page.tsx:133-144 | creating a levy keeps levy ids distinct |
| Finances.GenerateNotice | app/dashboard/finances/page.tsx:159-164 | generating a notice leaves the page unchanged, and the toast names the levy's unit |
| Finances.SendNotice | app/dashboard/finances/page.tsx:166-171 | sending a notice leaves the page unchanged, and the toast names the levy's unit |
| Finances.ReduceIsSum | app/dashboard/finances/page.tsx:173-179 | the left fold `reduce((t, i) => t + i.amount, acc)` equals acc plus the sum of the amounts |
| Finances.SumAppend | app/dashboard/finances/page.tsx:173-179 | the sum over two lists put together is the sum of their sums |
| Finances.TotalIncome | app/dashboard/finances/page.tsx:173-175 | total income is the sum of the income amounts, 0 for no items |
| Finances.TotalExpenses | app/dashboard/finances/page.tsx:177-179 | total expenses is the sum of the expense amounts, 0 for no items |
| Finances.Balance | app/dashboard/finances/page.tsx:411-414 | the balance is income minus expenses. It is green iff income covers expenses, and red otherwise |
| Finances.StatusColour | app/dashboard/finances/page.tsx:316-322 | the badge is green iff the status is "paid" and red iff it is "overdue". Any other status is yellow |
| Finances.StatusLabel | app/dashboard/finances/page.tsx:324 | the label has the status's length: the first character upper-cased, the rest unchanged |
| Finances.StatusLabelReversible | app/dashboard/finances/page.tsx:324 | a status starting with a lower-case letter gets a capital, and lowering it gives the status back |
| Documents.HandleTitleChange | app/dashboard/documents/page.tsx:95-98 | typing a title changes only the form's title |
| Documents.HandleFileChange | app/dashboard/documents/page.tsx:100-104 | the first chosen file becomes the form's file. An empty choice changes nothing |
| Documents.HandleSelectChange | app/dashboard/documents/page.tsx:106-108 | choosing a category changes only the form's category |
| Documents.NewDocument | app/dashboard/documents/page.tsx:123-134 | a new document takes id = max + 1 and the file's name, with URL "#", uploader "John Smith" and today's date. Title and category come from the form |
| Documents.Submit | app/dashboard/documents/page.tsx:110-148 | without a file the page is unchanged and an "Error" toast is raised. Otherwise the document is prepended to the unchanged list, the form resets to "General" with no file, and the dialog closes |
| Documents.SubmitKeepsIdsUnique | app/dashboard/documents/page.tsx:123-136 | uploading keeps document ids distinct |
| Documents.Download | app/dashboard/documents/page.tsx:150-156 | a download leaves the page unchanged, and the toast names the file |
| Documents.Filtered | app/dashboard/documents/page.tsx:158-161 | "all" lists every document. Any other category lists exactly the documents whose category matches it case-blind, each as many times as it occurs, in order |
| Documents.UploadListing | app/dashboard/documents/page.tsx:136-161 | an upload heads the current listing when it belongs to the active category, and does not change the listing otherwise |
| Documents.GeneralListedOnlyUnderAll | app/dashboard/documents/page.tsx:252-280 | a document in the default category "General" is listed under "All" and under none of the other filter buttons |

## Left out

- Markup, styling, dialogs as components, tabs as components, badges (`getPriorityBadge`, `getStatusBadge`) and the static mock data. Only the state they read or set is modelled.
- The by-name field setters of the maintenance, finances and strata-roll forms (`handleInputChange`, `setSearchTerm`). Each copies one input's text into the form field of the same name, the pattern `Login.HandleChange` and `Documents.HandleTitleChange` model.
- The mount effect and render gate on each list page are copies of the dashboard's; `Session` models them once.
- `Number.parseFloat`, `toString` and `toFixed`. Amounts and entitlements are integers, and parsing and rendering are function parameters.
- `Finances.Balance`, `Finances.TotalIncome`, `Finances.TotalExpenses`: sums are over integers, so floating-point rounding of the source's number sums is not modelled.
- `Text.ToLower`, `Finances.StatusLabel`: case mapping covers ASCII letters only; the full Unicode mapping of `toLowerCase`/`toUpperCase` is not modelled.
- Dates: `toISOString` and `toLocaleDateString` are replaced by a `today` string input.
- `window.confirm` is a boolean input to `StrataRoll.Delete`, and the browser's `File` is reduced to its name.
- The browser's cookie store. Writing a cookie is an output string, and `document.cookie` is given as the `"; "`-join of the stored name=value pairs (`Session.DocumentCookie`).
- The simulated 1.5-second delay in login. It is modelled as a split into the state before the delay (`BeginSubmit`) and after it (`FinishSubmit`). `FinishSubmit` receives the form captured at submission, because the handler closes over it.
- Toast wording is kept in full, but the contracts state only the title, the destructive flag and the names the description interpolates. They do not state the rest of the description text.
- `Finances.SubmitLevy`, `Maintenance.Submit`, `StrataRoll.Submit`, `Documents.Submit`, `Login.FinishSubmit`: the browser's form validation (`required`, `type="email"`, and `type="number"` with `min`/`max` on the inputs) runs before the handlers and is not modelled. So `Finances.SubmitLevy` creates a levy with an empty unit, due date or period, and its `parseFloat` parameter may yield a negative amount. `StrataRoll.Submit` accepts an entitlement outside 0 to 100, `Maintenance.Submit` accepts an empty title, and the no-file branch of `Documents.Submit` and the failure branch of `Login.FinishSubmit` are reachable only when that validation is bypassed.
- `Ids.NextId`: ids are unbounded integers. JavaScript numbers are doubles, so past 2^53 `Math.max(...ids) + 1` stops growing; freshness (`Ids.NextIdKeepsUnique`) holds only for the unbounded model.
- `lib/db.ts` (a wrapper over a foreign database client), the marketing pages, the presentational components and the logout cookie in the user menu are not part of this model.

## Findings

| source | as written | input that shows it | evidently intended | confidence | as-written member | corrected member |
|---|---|---|---|---|---|---|
| app/dashboard/strata-roll/page.tsx:169 | `Math.max(...owners.map((o) => o.id)) + 1` | delete every owner, then add two: both get id `-Infinity` | a fresh id on any list, e.g. 1 on an empty one | not executed; follows from `Math.max()` returning `-Infinity` | Ids.AsWrittenIdsCollideOnEmptyList | Ids.NextId |
| app/dashboard/maintenance/page.tsx:130 | `Math.max(...requests.map((r) => r.id)) + 1` | an empty request list: the new request's id is `-Infinity` | a fresh id on any list | not executed; the list cannot be emptied from this page, so only reachable with empty initial data | Ids.AsWrittenIdsCollideOnEmptyList | Ids.NextId |
| app/dashboard/finances/page.tsx:133 | `Math.max(...levies.map((l) => l.id)) + 1` | an empty levy list: the new levy's id is `-Infinity` | a fresh id on any list | not executed; only reachable with empty initial data | Ids.AsWrittenIdsCollideOnEmptyList | Ids.NextId |
| app/dashboard/documents/page.tsx:123 | `Math.max(...documents.map((d) => d.id)) + 1` | an empty document list: the new document's id is `-Infinity` | a fresh id on any list | not executed; only reachable with empty initial data | Ids.AsWrittenIdsCollideOnEmptyList | Ids.NextId |
