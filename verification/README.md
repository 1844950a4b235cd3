# Article report review workflow — a Dafny model

This project models the core of a Laravel application in which editors submit
cyber-threat article reports and administrators and executives review them.

A report moves through five approval statuses:

- Review: the state of a new submission.
- Revision: an administrator sent the report back.
- Updated: the editor revised the report.
- Evaluated: an administrator passed the report, or an executive sent it back.
- Approved: an executive approved the report.

The model covers the following:

- **The article record and its relations**: the five status constants, the ten
  report categories, an article's owner and its comments (`ArticleModel`).
- **Roles and permissions**: the three roles, the four permissions, the seeder
  that grants them, the `can:` and `role:` middleware (`Roles`,
  `RolesAndPermissionsSeeder`).
- **The routing layer**: which role group, permission and executive
  restriction guards each endpoint (`Routes`). It also includes the middleware
  that keeps executives off the three pre-evaluation status pages
  (`RestrictExecutives`).
- **The article controller** (`ArticleController`):
  - the status listings and the detail page;
  - report submission;
  - the approval decision;
  - the owner's revision and the edit form;
  - CSV export with its formula-injection escape.
- **The comment controller** (`CommentController`), **the user-management
  controller** (`UserController`) and **the dashboard chart endpoints**
  (`ChartController`):
  - reports per category;
  - the per-day line series;
  - the statistics cards read through the cache.
- **The news page**: its cache key, the query its filters build, and the
  cached page (`NewsController`).
- **The application cache** (`Cache`): `remember` and `forget`.
- **The database** (`Store`): a class whose three tables the state-changing
  actions update in place.

Each state-changing controller action is a module method that takes the
`Store.Database` and updates its tables. Its postcondition ties the new tables to a pure step function of the old ones
(`ApplyApproval`, `ApplyUpdate`, `ApplyUserUpdate`, `ApplyDestroy`), and the
workflow properties are lemmas about those functions.

Listings are specified as "each matching stored row exactly once" (a multiset
statement), "sorted by the ordering column" and "the requested page of that".
The database's order among equal keys is left open.

Laravel and PHP semantics made explicit:

- `required` means "non-blank after trimming" (`Common.Filled`).
- `empty()` and `?:` treat `""` and `"0"` as false (`Common.Empty`).
- `strtolower` and `ucfirst` touch ASCII letters only.
- `LIKE '%s%'` is an ASCII-case-insensitive substring test.
- Eloquent's `update` writes and touches `updated_at` only when a value
  changes.
- `round(x, 1)` rounds halves away from zero.
- A validation exception thrown inside a `try` that catches every exception
  becomes a 500.

Code and prose disagree in a few places. In each one the model follows the
code:

- The comment controller's rejection of a non-decider calls `Log::warning`,
  but the file never imports the `Log` facade. The branch therefore ends in a
  server error, not the redirect it was written to return
  (`CommentController.StoreOutcome`).
- `getLineData` validates inside its catch-all, so invalid input answers 500,
  not 422.
- The user controller's "prevent unauthorized role assignment" guards repeat
  the opening administrator check and can never fire.
- User `edit` and `update` resolve the bound user before the role check. A
  missing id therefore answers 404 to anyone (`Routes.Admit`,
  `UserController.EditOutcome`).
- User `update` reads the validated `password` key unconditionally. A request
  that leaves the field out passes `nullable|min:8` but has no such key, and
  ends in a server error (`UserController.ApplyUserUpdate`).

## Model

| member | source | states |
|---|---|---|
| `Common.Ucfirst` | app/Http/Middleware/RestrictExecutives.php:14 | the result has the input's length; its first character is the ASCII upper case of the input's first character, and the rest is the input's rest |
| `Common.ToLower` | app/Http/Controllers/Article/ArticleController.php:57 | the result has the input's length and holds, position by position, the ASCII lower case of each input character |
| `ArticleModel.DefaultStatus` | database/migrations/2025_02_11_061212_create_articles_table.php:24 | the column default is a valid status, the first of the controllers' whitelist (Review) |
| `ArticleModel.StatusConstantsDistinct` | app/Models/Article.php:12-16 | the five status constants are pairwise distinct and are exactly the whitelist the controllers check paths against |
| `ArticleModel.StatusCaseInsensitiveIsExact` | app/Http/Controllers/Article/ArticleController.php:57-59 | for two valid statuses, the `strtolower` comparison in `show` holds exactly when they are equal |
| `ArticleModel.Owner` | app/Models/Article.php:39-42 | `belongsTo` on `user_id`: the owner exists exactly when the article's `user_id` is a stored user, and is that user; the ownership rules are tied to it by `ArticleController.RevisableIsOwned` and `UserController.CascadeRemovesOwned` |
| `ArticleModel.CommentsOf` | app/Models/Article.php:34-37 | the related comments are exactly the stored comments whose `article_id` is the article's id |
| `Query.Where` | app/Http/Controllers/Article/ArticleController.php:69-71 | a `where` keeps exactly the rows satisfying the condition, none more often than in the table, and never more rows than it was given |
| `Query.SortDesc` | app/Http/Controllers/Article/ArticleController.php:32-33 | `orderBy(column, 'desc')` returns a permutation of the rows, sorted non-increasingly by the column |
| `Query.SortAsc` | app/Http/Controllers/NewsController.php:75-76 | `orderBy(column)` returns a permutation of the rows, sorted non-decreasingly by the column |
| `Query.CurrentPage` | app/Http/Controllers/Article/ArticleController.php:41 | the page number used is at least 1, and is the requested one whenever that is at least 1 |
| `Query.Paginate` | app/Http/Controllers/Article/ArticleController.php:41 | a page holds at most `perPage` rows, all taken from the listing; it is empty past the end; otherwise it is the rows starting at `(page - 1) * perPage`, the last page holding the remainder |
| `RolesAndPermissionsSeeder.FourPermissions` | database/seeders/RolesAndPermissionsSeeder.php:21-26 | the seeded permission list names four distinct permissions |
| `RolesAndPermissionsSeeder.Seeded` | database/seeders/RolesAndPermissionsSeeder.php:20-40 | the tables after seeding: the four permissions and three roles added, and the three roles' grants replaced (its properties are stated by `SeededGrants`, `SeedingIsIdempotent` and `SeededCan`) |
| `RolesAndPermissionsSeeder.SeededGrants` | database/seeders/RolesAndPermissionsSeeder.php:38-40 | after seeding, administrator holds all four permissions, executive only viewing, and editor create, view and update but not delete |
| `RolesAndPermissionsSeeder.SeedingIsIdempotent` | database/seeders/RolesAndPermissionsSeeder.php:28-40 | `firstOrCreate` and `syncPermissions` replace rather than append, so running the seeder twice equals running it once |
| `RolesAndPermissionsSeeder.SeededCan` | database/seeders/RolesAndPermissionsSeeder.php:38-40 | with the seeded tables: any role may view; create and update need administrator or editor; delete needs administrator |
| `RolesAndPermissionsSeeder.PermissionTables.FirstOrCreatePermission` | database/seeders/RolesAndPermissionsSeeder.php:29 | the permission is present afterwards, and nothing else changes |
| `RolesAndPermissionsSeeder.PermissionTables.FirstOrCreateRole` | database/seeders/RolesAndPermissionsSeeder.php:33-35 | the role is present afterwards, and nothing else changes |
| `RolesAndPermissionsSeeder.PermissionTables.SyncPermissions` | database/seeders/RolesAndPermissionsSeeder.php:38-40 | the role's grants become exactly the given list; other roles' grants are untouched |
| `RolesAndPermissionsSeeder.PermissionTables.Run` | database/seeders/RolesAndPermissionsSeeder.php:20-40 | the tables after the run's loop and calls are the seeded state of the tables before it |
| `RestrictExecutives.Handle` | app/Http/Middleware/RestrictExecutives.php:13-20 | the middleware either passes the request on unchanged or aborts with 403, and aborts only executives |
| `RestrictExecutives.UcfirstRestricted` | app/Http/Middleware/RestrictExecutives.php:13-14 | `ucfirst(s)` is a restricted status exactly when `s` is Review, Updated or Revision with its first letter in either case |
| `RestrictExecutives.HandleBlocksExactly` | app/Http/Middleware/RestrictExecutives.php:13-18 | the request is aborted (403) exactly when the user is an executive and the path status is one of those six spellings |
| `RestrictExecutives.HandlePasses` | app/Http/Middleware/RestrictExecutives.php:13-20 | Evaluated and Approved always pass; non-executives always pass; the all-capitals `REVIEW` is not normalised and passes |
| `Routes.StatusPagesGate` | routes/web.php:29-37 | the status pages answer 404 exactly for a status outside the five; they are reached exactly by staff who hold the view permission and are not executives asking for a pre-evaluation status |
| `Routes.DecisionRoutesGate` | routes/web.php:45-49 | approving and posting comments are reached exactly by administrators and executives; everyone else gets 403 |
| `Routes.EditorRoutesGate` | routes/web.php:51-62 | submitting a report needs the editor role and the create permission; the revision and the edit form need the editor role only |
| `Routes.ExportGate` | routes/web.php:42 | export is reached by any staff member for any status: the route has no status constraint and no executive restriction |
| `Routes.UserRoutesGate` | routes/web.php:64-74 | every user-management route, deletion included, is reached exactly by administrators; on the edit form and the update, whose `{user}` is bound, a missing user answers 404 to anyone, and otherwise a non-administrator gets 403 |
| `Routes.Admit` | routes/web.php:29-74 | the routing layer's answer before the controller: the status constraint's 404, then the bound `{user}`'s 404, then the group role check, the executive restriction and the permission check, in that order (stated per route group by the `…Gate` lemmas) |
| `Routes.LastMatch` | routes/web.php:77-79 | the route collection's choice for a method on one URI: none exactly when no registration answers the method, otherwise the handler of a registration that does and that no later registration for the method follows (the last one) |
| `Routes.FirstMatch` | routes/web.php:77-79 | the first-match choice: none exactly when no registration answers the method, otherwise the handler of a registration that does and that no earlier registration for the method precedes (the first one) |
| `Routes.Dispatch` | routes/web.php:76-85 | an unregistered method is refused before the group's middleware; the controller is reached exactly when the chosen handler is `uploadImages` and the user is an editor |
| `Routes.UploadEndpoint` | routes/web.php:76-85 | as registered, the upload endpoint never reaches the controller |
| `Routes.UploadPostShadowed` | routes/web.php:76-85 | as registered, the catch-all takes the POST slot: every editor request, POST included, is answered 405, while first-match resolution would send an editor's POST to `uploadImages` |
| `Routes.UploadEndpointFirstMatch` | routes/web.php:76-85 | the intended endpoint: POST goes to `uploadImages`, every other registered method to the 405 closure (its properties are stated by `Routes.UploadGate`) |
| `Routes.UploadGate` | routes/web.php:76-85 | with first-match resolution, the endpoint accepts exactly POST from editors, answers 405 to editors using any other method, and 405 to anyone using an unregistered method |
| `Routes.SeededAccess` | routes/web.php:29-62 | with the seeded permissions, executives reach the Evaluated and Approved pages but never the three earlier ones, may export any status, and a pure executive can never submit a report; editors (not executives) reach every status page and may submit |
| `Cache.RememberIsStable` | app/Http/Controllers/NewsController.php:38-80 | once a key is remembered, later `remember` calls return the first value and leave the cache as it is, whatever the closure would compute |
| `Cache.ForgetThenRemember` | app/Http/Controllers/Article/ArticleController.php:128-130 | after `forget`, the next `remember` of that key returns the freshly computed value |
| `Cache.ForgetKeepsOtherKeys` | app/Http/Controllers/Article/ArticleController.php:128-130 | forgetting some keys does not change what `remember` returns for any other key |
| `Cache.RememberIn` | app/Http/Controllers/ChartController.php:202-204 | after `remember` the key is cached and holds the value returned; every entry already present is kept as it was, and no other key is added |
| `Cache.Store.Remember` | app/Http/Controllers/ChartController.php:202-204 | the value returned and the new entries are those of `RememberIn` on the old entries |
| `Cache.Store.Forget` | app/Http/Controllers/Article/ArticleController.php:128 | the key is removed and every other entry is kept |
| `ArticleController.NewArticleFacts` | app/Http/Controllers/Article/ArticleController.php:110-126 | a submitted report starts in Review; it is owned by and signed with the submitter; its category is one of the ten when the input was valid; it has no image list exactly when none was sent |
| `ArticleController.StoreArticle` | app/Http/Controllers/Article/ArticleController.php:90-135 | invalid input answers 422 and changes nothing; valid input stores the new row under a fresh id, changes no other table, and evicts exactly the three statistics keys |
| `ArticleController.ApprovalNeedsDecider` | app/Http/Controllers/Article/ArticleController.php:143-145 | a user who is neither administrator nor executive gets 403 and the articles are unchanged |
| `ArticleController.ApplyApproval` | app/Http/Controllers/Article/ArticleController.php:137-173 | `setApprovalStatus` as a step on the article table: 404, 403, 422, then the role's target status written with Eloquent's dirty check (its properties are stated by the `Approval…` lemmas below) |
| `ArticleController.ApprovalTable` | app/Http/Controllers/Article/ArticleController.php:148-166 | for a decider: any decision other than approved or disapproved gets 422 and no change. Otherwise: approved by an executive gives Approved; approved by an administrator gives Evaluated; disapproved by an executive gives Evaluated; disapproved by an administrator gives Revision. The executive role wins when both are held |
| `ArticleController.ApprovalTargets` | app/Http/Controllers/Article/ArticleController.php:166-170 | the 400 branch is unreachable, and a successful decision always lands on Evaluated, Approved or Revision |
| `ArticleController.ApprovalFrame` | app/Http/Controllers/Article/ArticleController.php:173 | a decision keeps the set of articles; it changes no other article, and in the decided one only the status and the timestamp Eloquent touches |
| `ArticleController.ApprovalIgnoresCurrentStatus` | app/Http/Controllers/Article/ArticleController.php:137-173 | the outcome and the new status do not depend on the article's current status |
| `ArticleController.NoFromStateGuard` | app/Http/Controllers/Article/ArticleController.php:153-173 | an administrator's "approved" pulls an Approved article back to Evaluated, and an executive's "approved" takes a Review article straight to Approved |
| `ArticleController.SetApprovalStatus` | app/Http/Controllers/Article/ArticleController.php:137-185 | the outcome and the new article table are `ApplyApproval` of the old table (404, 403, 422, then the decision); the other tables and counters are unchanged |
| `ArticleController.UpdateOnlyOwnerInRevision` | app/Http/Controllers/Article/ArticleController.php:195-203 | a revision succeeds exactly for the owner of an article in Revision with valid input; anyone else gets 403 with no change; no failure changes anything |
| `ArticleController.ApplyUpdate` | app/Http/Controllers/Article/ArticleController.php:190-233 | `update` as a step on the article table: 403 unless the user's own article in Revision, 422 on invalid content, else the revised row (stated by `UpdateOnlyOwnerInRevision` and `UpdateResult`) |
| `ArticleController.RevisableIsOwned` | app/Http/Controllers/Article/ArticleController.php:195-198 | the row `update` and `edit` fetch has the requesting user as its `Article::user()` owner, and no other user owns it |
| `ArticleController.UpdateResult` | app/Http/Controllers/Article/ArticleController.php:206-233 | a successful revision moves Revision to Updated and replaces the seven content fields (four of them purified). It keeps owner, editor name, posting date and time, images and creation time, sets `updated_at`, and touches no other article |
| `ArticleController.UpdateArticle` | app/Http/Controllers/Article/ArticleController.php:190-239 | the outcome and the new article table are `ApplyUpdate` of the old table; the other tables and counters are unchanged |
| `ArticleController.StepsKeepStatusesValid` | app/Http/Controllers/Article/ArticleController.php:153-231 | neither the decision nor the revision can store a status outside the five |
| `ArticleController.ReviewWorkflow` | app/Http/Controllers/Article/ArticleController.php:118-231 | the intended life of a report is reachable: Review, sent to Revision by an administrator, Updated by its editor, Evaluated by an administrator, Approved by an executive |
| `ArticleController.SelectArticles` | app/Http/Controllers/Article/ArticleController.php:32-38 | the rows are each stored article with the status (and, when scoped, the owner) exactly once, and nothing else |
| `ArticleController.Index` | app/Http/Controllers/Article/ArticleController.php:20-44 | 404 for a status outside the five. Otherwise: the matching rows (an editor's own only), newest first by `created_at` for Review and `updated_at` otherwise, and the requested page of ten |
| `ArticleController.EscapePrefixesExactlyFormulas` | app/Http/Controllers/Article/ArticleController.php:336-342 | the escape prefixes a quote exactly when the value starts with `=`, `+`, `-` or `@`, and otherwise returns the value unchanged (the empty value included) |
| `ArticleController.EscapeNeutralises` | app/Http/Controllers/Article/ArticleController.php:336-342 | no escaped value starts a formula, and escaping twice equals escaping once |
| `ArticleController.EscapeCollides` | app/Http/Controllers/Article/ArticleController.php:336-342 | the escape is not injective: a formula and the same text already prefixed with a quote export alike |
| `ArticleController.EscapeCsvValue` | app/Http/Controllers/Article/ArticleController.php:336-342 | an escaped value never starts a formula, and a value that does not start one is exported unchanged |
| `ArticleController.CsvRowSafe` | app/Http/Controllers/Article/ArticleController.php:379-396 | a row has the header's twelve columns, and every escaped text column and the status column of a stored article is free of formula starts |
| `ArticleController.ExportFilename` | app/Http/Controllers/Article/ArticleController.php:366 | the file name is `articles_`, then the status lower-cased character by character, then `.csv` |
| `ArticleController.WriteCsv` | app/Http/Controllers/Article/ArticleController.php:379-396 | the file is the header followed by one escaped row per selected article, in order |
| `ArticleController.ExportCsv` | app/Http/Controllers/Article/ArticleController.php:344-403 | 404 for a status outside the five, then 403 for a user without a staff role. Otherwise: the file name, each stored article with the status (an editor's own only) exactly once, and the file of header and rows |
| `ArticleController.ShowOkExactly` | app/Http/Controllers/Article/ArticleController.php:46-63 | the detail page is shown exactly when the path status is valid and equals the stored article's status, and the user is staff or the owner |
| `ArticleController.ShowOutcome` | app/Http/Controllers/Article/ArticleController.php:46-63 | the guards of `show` in order: unknown status, missing id and status mismatch answer 404, a non-staff non-owner is redirected back (stated by `ShowOkExactly` and `EditorSeesAnyArticle`) |
| `ArticleController.EditorSeesAnyArticle` | app/Http/Controllers/Article/ArticleController.php:61-63 | an editor may open any article by id, not only their own, when the path carries its status |
| `ArticleController.VisibleComments` | app/Http/Controllers/Article/ArticleController.php:68-71 | the listed comments are the article's, restricted to the executive's own when the user is an executive |
| `ArticleController.Show` | app/Http/Controllers/Article/ArticleController.php:46-88 | the guards of `show` in order (404, 404, 404, redirect back); on success, the article, its visible comments newest first, and the requested page of five |
| `ArticleController.EditMatchesUpdate` | app/Http/Controllers/Article/ArticleController.php:241-256 | the edit form opens exactly for an editor who could submit the revision (owner, article in Revision) |
| `ArticleController.EditOutcome` | app/Http/Controllers/Article/ArticleController.php:241-256 | the guards of `edit`: 403 for a non-editor, 403 unless the user's own article in Revision (stated by `EditMatchesUpdate`) |
| `ArticleController.Edit` | app/Http/Controllers/Article/ArticleController.php:241-283 | 403 unless the user is an editor owning an article in Revision; on success, all of its comments newest first and the requested page of five |
| `CommentController.StoreComment` | app/Http/Controllers/CommentController.php:25-59 | a non-decider causes a server error, invalid input 422, and neither changes anything. Otherwise one comment is appended with the next id, the article, the author and the purified, tag-stripped text; the other tables are unchanged |
| `CommentController.StoreAcceptsExactly` | app/Http/Controllers/CommentController.php:30-39 | a comment is accepted exactly from an administrator or executive, on an existing article, with non-blank text of at most 1000 characters |
| `CommentController.StoreOutcome` | app/Http/Controllers/CommentController.php:25-39 | the guards of `store`: a non-decider ends in a server error, then validation's 422 (stated by `StoreAcceptsExactly`) |
| `CommentController.StoredCommentIsListed` | app/Http/Controllers/CommentController.php:48-52 | an appended comment appears among its article's comments, and among its author's comments on it |
| `CommentController.Index` | app/Http/Controllers/CommentController.php:14-23 | 404 for an unknown article; otherwise every comment on it, whoever wrote it, newest first |
| `UserController.ListedAgreesUnlessBoth` | app/Http/Controllers/UserController.php:25-34 | the written and the intended filters agree unless both search and role are given; the written one admits everything the intended one does |
| `UserController.ListedAsWrittenIgnoresRole` | app/Http/Controllers/UserController.php:26-33 | an editor named Ann is listed in a search for "ann" restricted to executives |
| `UserController.ListedAsWritten` | app/Http/Controllers/UserController.php:25-34 | the condition the query builds: with both search and role, a name match or an e-mail match holding the role (stated by `ListedAgreesUnlessBoth`) |
| `UserController.Listed` | app/Http/Controllers/UserController.php:25-34 | the intended condition: the search matches name or e-mail, and the role, when given, is held (stated by `ListedAgreesUnlessBoth` and `ListedAsWrittenIgnoresRole`) |
| `UserController.SelectUsers` | app/Http/Controllers/UserController.php:25-34 | the rows are each stored user passing the query's condition exactly once, and nothing else |
| `UserController.IndexSelectionAgainstIntended` | app/Http/Controllers/UserController.php:25-34 | the users the written query selects include every user the intended filter lists, and every name match when search and role are both given; without both, every selected user is one the intended filter lists |
| `UserController.Index` | app/Http/Controllers/UserController.php:16-38 | 403 for non-administrators; otherwise each stored user the written query selects exactly once (name matches whatever their roles when search and role are both given), newest first, and the requested page of ten |
| `UserController.CreateForm` | app/Http/Controllers/UserController.php:48-57 | the form opens exactly for administrators and offers exactly the three roles |
| `UserController.StoreOutcomes` | app/Http/Controllers/UserController.php:62-78 | registration succeeds exactly for an administrator sending valid data; the role-assignment redirect is unreachable |
| `UserController.StoreOutcome` | app/Http/Controllers/UserController.php:62-78 | the guards of `store`: 403, 422, then the role-assignment redirect (stated by `StoreOutcomes`) |
| `UserController.RegisterKeepsEmailsUnique` | app/Http/Controllers/UserController.php:70-86 | a registration keeps e-mail addresses unique and gives the user exactly one of the three roles |
| `UserController.StoreUser` | app/Http/Controllers/UserController.php:62-89 | the outcome is that of the guards; a failure changes nothing; a success adds exactly the new user with the hashed password and its one role under a fresh id |
| `UserController.EditGuards` | app/Http/Controllers/UserController.php:94-104 | the edit form opens exactly for an administrator on an existing user, and whether the answer is 404 does not depend on who asks |
| `UserController.EditOutcome` | app/Http/Controllers/UserController.php:94-104 | the guards of `edit`: the bound user's 404 before the administrator check's 403 (stated by `EditGuards`) |
| `UserController.UserUpdateResult` | app/Http/Controllers/UserController.php:109-136 | the update succeeds exactly for an administrator on an existing user with valid input, with the `password` field present, and a failure changes nothing; leaving the field out of an otherwise valid request is a server error. A success changes no other user, replaces the roles with the one chosen, keeps the stored hash when the password is sent blank, stores the hash of a given one, and keeps addresses unique |
| `UserController.ApplyUserUpdate` | app/Http/Controllers/UserController.php:109-136 | `update` as a step on the users table: 404, 403, 422, the dead redirect, the server error of an absent `password` key, then the edited row (stated by `UserUpdateResult`) |
| `UserController.UpdateUser` | app/Http/Controllers/UserController.php:109-136 | the outcome and the new users table are `ApplyUserUpdate` of the old one; articles and comments are unchanged |
| `UserController.WithoutOwner` | database/migrations/2025_02_11_061212_create_articles_table.php:16 | the cascade keeps exactly the articles not owned by the deleted user, each unchanged |
| `UserController.CascadeRemovesOwned` | database/migrations/2025_02_11_061212_create_articles_table.php:16 | the cascade removes exactly the articles whose `Article::user()` is the deleted user |
| `UserController.ApplyDestroy` | app/Http/Controllers/UserController.php:141-152 | `destroy` as a step on the users and articles tables: 404, the redirect for one's own account, then the deletion with its cascade (stated by `DestroyResult`) |
| `UserController.DestroyResult` | app/Http/Controllers/UserController.php:141-152 | deletion succeeds exactly for an existing user other than oneself, which gives a redirect back. A success removes exactly that user and every article they own and no other; a failure changes nothing |
| `UserController.Destroy` | app/Http/Controllers/UserController.php:141-152 | the outcome and the new users and articles tables are `ApplyDestroy` of the old ones |
| `ChartController.GroupCountsFacts` | app/Http/Controllers/ChartController.php:71-81 | the chart lists exactly the categories of the articles created in the window, each with a positive count; a category filter leaves at most that category |
| `ChartController.GetReportsGuards` | app/Http/Controllers/ChartController.php:35-79 | with both dates given: an inverted range or an unknown category is refused by validation (422); 400 is answered exactly for a valid span over 365 days; everything else is counted |
| `ChartController.GetReports` | app/Http/Controllers/ChartController.php:35-79 | the answer is 200, 422 or 400; a 200 needs a request that passes validation, and a failure carries no data |
| `ChartController.WindowPresets` | app/Http/Controllers/ChartController.php:116-153 | the presets' day windows (today, yesterday, the last 7 and 30 days, the default of the last 30); the custom range applies only when both dates are given |
| `ChartController.WindowOrdered` | app/Http/Controllers/ChartController.php:104-153 | for a valid request, every window runs forward |
| `ChartController.Window` | app/Http/Controllers/ChartController.php:104-153 | the first and last day of the series for each filter, the custom range only with both dates, the last 30 days otherwise (stated by `WindowPresets` and `WindowOrdered`) |
| `ChartController.DailyRows` | app/Http/Controllers/ChartController.php:157-162 | the grouped rows lie within the window and each has a positive count |
| `ChartController.FillSeries` | app/Http/Controllers/ChartController.php:164-176 | the labels are the days from start to end, each once, ascending; each day's value is that of its last query row, or 0 when there is none |
| `ChartController.LastCountOfDailyRows` | app/Http/Controllers/ChartController.php:157-176 | over the query's rows, the value filled in for a day of the window is that day's count of the category |
| `ChartController.SeriesIsDailyCount` | app/Http/Controllers/ChartController.php:164-181 | the filled series over the query's rows is the per-day count of the category |
| `ChartController.GetLineData` | app/Http/Controllers/ChartController.php:100-188 | an invalid request answers 500 with no data; otherwise the series holds one label per day of the window and that day's count |
| `ChartController.ReadCountersValues` | app/Http/Controllers/ChartController.php:202-220 | each counter is the cached value when its key is present and the freshly counted one otherwise; afterwards all five keys are cached, and earlier entries are kept |
| `ChartController.ReadCounters` | app/Http/Controllers/ChartController.php:202-220 | the five `Cache::remember` reads in order (stated by `ReadCountersValues` and `ReadCountersStable`) |
| `ChartController.ReadCountersStable` | app/Http/Controllers/ChartController.php:202-220 | a second reading returns the first reading's counters, whatever the tables hold by then |
| `ChartController.StoreLeavesPreviousCountsCached` | app/Http/Controllers/ChartController.php:202-220 | after report submission evicts its three keys, the total, week and month are recounted but the previous-week and previous-month counts are still the cached ones |
| `ChartController.ChangePercent` | app/Http/Controllers/ChartController.php:222-229 | with no previous count the change is 0 |
| `ChartController.ChangePercentSign` | app/Http/Controllers/ChartController.php:222-229 | for a positive previous count, the rounded change is non-negative when the count did not fall, and positive only when it rose |
| `ChartController.Trend` | app/Http/Controllers/ChartController.php:245 | the trend is "up" exactly when the count did not fall, and "down" otherwise |
| `ChartController.TrendAgreesMostly` | app/Http/Controllers/ChartController.php:245-252 | the written and the corrected trend agree, as "up", whenever the count did not fall |
| `ChartController.TrendAsWrittenMissesSmallFall` | app/Http/Controllers/ChartController.php:223-225 | a fall from 2001 to 2000 reports is shown with an upward trend |
| `ChartController.TrendAsWritten` | app/Http/Controllers/ChartController.php:223-252 | the trend as computed: "up" exactly when the rounded percentage is not negative, hence "up" whenever the count did not fall, "down" otherwise |
| `ChartController.Cards` | app/Http/Controllers/ChartController.php:231-256 | three cards: the total without comparison; the week and the month with their values, their absolute change, the rounded percentage (0 when there is nothing to compare with), and "up" exactly when that percentage is not negative, so always when the count did not fall |
| `ChartController.ShowStats` | app/Http/Controllers/ChartController.php:190-263 | the cache after the call and the cards are those of the five `remember` reads in order over the counts the tables give, with the trend taken from the rounded percentage as `Cards` states |
| `NewsController.DefaultKey` | app/Http/Controllers/NewsController.php:15-35 | a request with no parameters reads page 1, sort newest and range all, under the key `news_page_1_source_all_sort_newest_date_all_search_none` |
| `NewsController.CacheKey` | app/Http/Controllers/NewsController.php:33-35 | the key built from page, source or `all`, sort, date range and search or `none` (stated by `DefaultKey`, `CacheKeyIgnoresDates` and `CacheKeySourceAll`) |
| `NewsController.CacheKeyIgnoresDates` | app/Http/Controllers/NewsController.php:34-35 | two requests differing only in their explicit dates share a cache key |
| `NewsController.CacheKeySourceAll` | app/Http/Controllers/NewsController.php:34-45 | an absent, an empty and the literal source "all" share a key, although only the last filters by source |
| `NewsController.QueryPrecedence` | app/Http/Controllers/NewsController.php:43-77 | source and search filters apply exactly when non-empty. A named range applies exactly when given and overrides explicit dates, which apply only in pairs. Only newest and oldest order the rows, newest by default |
| `NewsController.QueryFor` | app/Http/Controllers/NewsController.php:43-77 | the query a request describes: non-empty filters, named range before explicit dates, and the sort (stated by `QueryPrecedence`) |
| `NewsController.BuildQuery` | app/Http/Controllers/NewsController.php:41-77 | the closure's condition-by-condition query building yields the query the request describes |
| `NewsController.Filter` | app/Http/Controllers/NewsController.php:43-70 | the kept rows are exactly the rows passing every condition, none more often than in the table |
| `NewsController.Ordered` | app/Http/Controllers/NewsController.php:72-77 | the ordered rows are a permutation, newest or oldest first as asked, and untouched otherwise |
| `NewsController.ListingFacts` | app/Http/Controllers/NewsController.php:43-79 | a page holds at most nine rows, each a stored row passing the request's source and search filters |
| `NewsController.Index` | app/Http/Controllers/NewsController.php:33-80 | the page returned and the new cache are `remember` under the request's key of the listing the request describes |
| `NewsController.DatesServedFromCache` | app/Http/Controllers/NewsController.php:34-80 | once a page is cached, a request differing only in its explicit dates is answered with that page, whatever its own dates would select |

## Left out

- HTTP and Inertia plumbing is not modelled: page rendering, JSON bodies,
  redirect targets, flash messages and response headers. Each action answers
  an `Outcome`.
- `Purifier::clean`, `strip_tags`, `Hash::make`/`bcrypt`, and the `date`,
  `url` and `email` validation rules are foreign code. They are function
  parameters.
- Image upload (`uploadImages`) and image serving (`getImage`) are not
  modelled: they are file-system I/O. Their routes' role gates are modelled.
  The `image_path` array rule is modelled as "an optional list".
- RSS aggregation into the news table and the `news_sources` cache entry are
  not modelled: the first is network I/O, and the second does not affect the
  page.
- Calendar and time-zone arithmetic (Carbon, Asia/Manila) is not modelled:
  - `getLineData` windows take "today" and the month bounds as a `Calendar`
    parameter.
  - `getReports` takes its fallback bounds as parameters. In the source,
    these bounds are computed by mutating one shared `now` instance.
  - The news date windows are an opaque `inWindow` predicate.
  - `showStats` takes its week and month bounds as `StatsWindows`.
- ChartController.GetReportsGuards: the span is the whole number of days
  between the two dates, refused when over 365. The source compares the start
  of `from`'s day with the end of `to`'s day. Where `diffInDays` returns a
  fractional count (Carbon 3), two dates exactly 365 days apart measure just
  under 366 days and are refused with 400; the model counts them.
- ChartController.GetReportsGuards: `after_or_equal:from` is modelled only
  when both dates are present.
- Cache expiry after the time-to-live is not modelled. An entry stays until it
  is forgotten.
- UserController.EmailTaken: the `unique:users,email` check compares
  addresses exactly. Under a case-insensitive database collation the source
  also refuses an address differing only in letter case; the model accepts it.
- `LIKE` is modelled as an ASCII-case-insensitive substring test. It does not
  model `%` and `_` inside the search text, or collations beyond ASCII.
- The `(int)` cast of the news `page` parameter is not modelled: the page
  arrives as an integer.
- Laravel's input-trimming middleware is not modelled. Inputs are taken as the
  controller receives them, and a blank optional password is `Blank` (null
  after the empty-string middleware).
- ChartController.ChangePercent: PHP's floating-point division and `round`
  are modelled over exact reals. Binary rounding error, which PHP's `round`
  pre-rounding is meant to absorb, is not modelled. A quotient landing
  exactly on a half (such as -0.05) is rounded away from zero as PHP
  documents it.
- The 401 branches behind `Auth::check()` are not modelled, because every
  route sits behind the `auth` middleware.
- Unauthenticated and unverified users, and the `throttle` middleware, are not
  modelled.
- `fputcsv` quoting is not modelled: a row is a sequence of cells. Date and
  time formatting of labels and timestamps is not modelled: days and times
  are integers.
- Routes.UploadEndpoint: route resolution follows the collection Laravel
  builds when routes are registered (one route per method and URI, a later
  registration replacing an earlier one). A compiled route cache is not
  modelled.
- Spatie's role and permission storage is not modelled beyond sets of names.
- The `forgetCachedPermissions` call in the seeder is not modelled.
- UserController.Destroy: the deletion of the user's comments is not
  modelled. The comments table's foreign keys are not part of this model.
  Comments are left as they were.
- Concurrency between requests is not modelled. Each action runs atomically on
  the tables.

## Findings

| source | as written | input that shows it | evidently intended | confidence | as-written member | corrected member |
|---|---|---|---|---|---|---|
| app/Http/Controllers/UserController.php:26-33 | the search adds `name like … or email like …` at the top level of the query, so the later role condition binds only to the e-mail alternative | search `ann`, role `executive`, and a user named `Ann` who holds only the editor role: the user is listed | list users matching the search in name or e-mail AND holding the role | high (not executed) | `UserController.ListedAsWrittenIgnoresRole` | `UserController.Listed` |
| app/Http/Controllers/ChartController.php:223-252 | the trend compares the percentage rounded to one decimal with 0, so a fall of under 0.05% rounds to 0 and reads as "up" | 2000 reports this week against 2001 the week before: a change of about -0.04998% rounds to 0.0, shown as "up" | "up" exactly when the count did not fall | medium (not executed) | `ChartController.TrendAsWrittenMissesSmallFall` | `ChartController.Trend` |
| routes/web.php:76-85 | `Route::any` on `/api/upload-images` is registered after `Route::post` on the same URI; Laravel's route collection keeps one route per method and URI, so the catch-all replaces the POST route | an editor POSTs an image: the request reaches the 405 closure, not `uploadImages` | POST reaches `uploadImages`, every other method gets the 405 message | medium (not executed) | `Routes.UploadPostShadowed` | `Routes.UploadEndpointFirstMatch` |
