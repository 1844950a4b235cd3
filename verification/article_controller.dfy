/** The article controller: status listings, the detail page, report
    submission, the approval decision, the owner's revision, the edit form,
    CSV export and its formula-injection escape. Each state-changing action
    is a method on the database whose new state is given by a pure step
    function; the workflow's properties are lemmas about those functions. */
module ArticleController {
  import opened Common
  import opened ArticleModel
  import opened Roles
  import opened Query
  import opened Store
  import Cache

  const ARTICLES_PER_PAGE: nat := 10
  const COMMENTS_PER_PAGE: nat := 5

  /** The two decisions the approval form may send. */
  const Decisions: set<string> := {"approved", "disapproved"}

  /** The statistics keys `store` evicts. */
  const StoreEvicts: set<string> := {"total_reports", "reports_this_week", "reports_this_month"}

  /** `now()`: the date and time texts stored on a new report, and the timestamp. */
  datatype Clock = Clock(date: string, time: string, timestamp: int)

  /** The foreign checks and filters the controller calls: Laravel's `date`
      and `url` validation rules and `Purifier::clean`. */
  datatype Services = Services(isDate: string -> bool, isUrl: string -> bool, clean: string -> string)

  /** The request fields of the report form. */
  datatype ArticleInput = ArticleInput(
    title: string,
    publicationDate: string,
    typeOfReport: string,
    url: string,
    detailedSummary: string,
    analysis: string,
    recommendation: string,
    imagePaths: Option<seq<string>>)

  /** The validation rules `store` and `update` share (`image_path` is an
      optional array and constrains nothing else). */
  predicate ValidContent(inp: ArticleInput, svc: Services) {
    && Filled(inp.title) && |inp.title| <= 255
    && Filled(inp.publicationDate) && svc.isDate(inp.publicationDate)
    && IsReportType(inp.typeOfReport)
    && Filled(inp.url) && svc.isUrl(inp.url) && |inp.url| <= 2083
    && Filled(inp.detailedSummary)
    && Filled(inp.analysis)
    && Filled(inp.recommendation)
  }

  // ---------------------------------------------------------------- store

  /** The row `store` saves. */
  function NewArticle(id: nat, u: User, inp: ArticleInput, svc: Services, clock: Clock): Article {
    Article(
      id := id,
      userId := u.id,
      title := svc.clean(inp.title),
      publicationDate := inp.publicationDate,
      typeOfReport := inp.typeOfReport,
      url := inp.url,
      editorName := u.name,
      postedDate := clock.date,
      timePosted := clock.time,
      detailedSummary := svc.clean(inp.detailedSummary),
      analysis := svc.clean(inp.analysis),
      recommendation := svc.clean(inp.recommendation),
      imagePath := inp.imagePaths,
      approvalStatus := STATUS_REVIEW,
      createdAt := clock.timestamp,
      updatedAt := clock.timestamp)
  }

  /** A submitted report starts in Review, is owned by and signed with the
      submitting user, has a listed category when the input was valid, and
      has no image list when none was sent. */
  lemma NewArticleFacts(id: nat, u: User, inp: ArticleInput, svc: Services, clock: Clock)
    ensures var a := NewArticle(id, u, inp, svc, clock);
      && a.approvalStatus == STATUS_REVIEW && IsStatus(a.approvalStatus)
      && a.userId == u.id && a.editorName == u.name
      && (ValidContent(inp, svc) ==> a.typeOfReport in ReportTypes)
      && (a.imagePath.None? <==> inp.imagePaths.None?)
      && a.createdAt == a.updatedAt == clock.timestamp
  {
  }

  /** `store`. The route has already checked the editor role and the create
      permission; the controller itself checks nothing about the user. */
  method StoreArticle(db: Database, cache: Cache.Store<int>, u: User, inp: ArticleInput, svc: Services, clock: Clock)
    returns (outcome: Outcome, id: nat)
    requires db.Valid()
    modifies db, cache
    ensures db.Valid()
    ensures outcome == (if ValidContent(inp, svc) then Ok else Invalid)
    ensures outcome == Invalid ==> unchanged(db) && unchanged(cache)
    ensures outcome == Ok ==>
      && id == old(db.nextArticleId) && id !in old(db.articles)
      && db.articles == old(db.articles)[id := NewArticle(id, u, inp, svc, clock)]
      && db.nextArticleId == id + 1
      && db.comments == old(db.comments) && db.users == old(db.users)
      && db.nextCommentId == old(db.nextCommentId) && db.nextUserId == old(db.nextUserId)
      && cache.entries == old(cache.entries) - StoreEvicts
  {
    id := 0;
    if !ValidContent(inp, svc) {
      return Invalid, id;
    }
    id := db.nextArticleId;
    db.articles := db.articles[id := NewArticle(id, u, inp, svc, clock)];
    db.nextArticleId := id + 1;
    cache.Forget("total_reports");
    cache.Forget("reports_this_week");
    cache.Forget("reports_this_month");
    assert cache.entries == old(cache.entries) - StoreEvicts;
    outcome := Ok;
  }

  // ---------------------------------------------------- setApprovalStatus

  /** The outcome of an action together with the article table it leaves. */
  datatype Step = Step(outcome: Outcome, articles: map<nat, Article>)

  /** The role a decider acts as: executive wins when the user holds both. */
  function ApprovalRole(u: User): string {
    if HasRole(u, EXECUTIVE) then EXECUTIVE else ADMINISTRATOR
  }

  /** The `$allowedStatuses[decision][role] ?? null` lookup. */
  function AllowedStatus(decision: string, role: string): Option<string> {
    if decision == "approved" then
      if role == ADMINISTRATOR then Some(STATUS_EVALUATED)
      else if role == EXECUTIVE then Some(STATUS_APPROVED)
      else None
    else if decision == "disapproved" then
      if role == ADMINISTRATOR then Some(STATUS_REVISION)
      else if role == EXECUTIVE then Some(STATUS_EVALUATED)
      else None
    else None
  }

  /** `$article->update(['approval_status' => ...])`: Eloquent writes (and
      touches `updated_at`) only when the value actually changes. */
  function WithStatus(a: Article, status: string, now: int): Article {
    if a.approvalStatus == status then a else a.(approvalStatus := status, updatedAt := now)
  }

  /** `setApprovalStatus`, as a step on the article table. The article's
      current status is never consulted. */
  function ApplyApproval(articles: map<nat, Article>, u: User, id: nat, decision: string, now: int): Step {
    if id !in articles then Step(NotFound, articles)
    else if !HasAnyRole(u, Deciders) then Step(Forbidden, articles)
    else if decision !in Decisions then Step(Invalid, articles)
    else
      match AllowedStatus(decision, ApprovalRole(u))
      case None => Step(BadRequest, articles)
      case Some(s) => Step(Ok, articles[id := WithStatus(articles[id], s, now)])
  }

  /** A user who is neither administrator nor executive changes nothing. */
  lemma ApprovalNeedsDecider(articles: map<nat, Article>, u: User, id: nat, decision: string, now: int)
    requires id in articles && !HasRole(u, ADMINISTRATOR) && !HasRole(u, EXECUTIVE)
    ensures ApplyApproval(articles, u, id, decision, now) == Step(Forbidden, articles)
  {
  }

  /** The decision table: (decision, acting role) to new status, executive
      taking precedence; any other decision text is rejected without change. */
  lemma ApprovalTable(articles: map<nat, Article>, u: User, id: nat, decision: string, now: int)
    requires id in articles && HasAnyRole(u, Deciders)
    ensures var st := ApplyApproval(articles, u, id, decision, now);
      && (decision !in Decisions ==> st == Step(Invalid, articles))
      && (decision in Decisions ==> st.outcome == Ok && id in st.articles)
      && (decision == "approved" && HasRole(u, EXECUTIVE) ==> st.articles[id].approvalStatus == STATUS_APPROVED)
      && (decision == "approved" && !HasRole(u, EXECUTIVE) ==> st.articles[id].approvalStatus == STATUS_EVALUATED)
      && (decision == "disapproved" && HasRole(u, EXECUTIVE) ==> st.articles[id].approvalStatus == STATUS_EVALUATED)
      && (decision == "disapproved" && !HasRole(u, EXECUTIVE) ==> st.articles[id].approvalStatus == STATUS_REVISION)
  {
  }

  /** The 400 branch cannot be reached, and a successful decision always
      lands on Evaluated, Approved or Revision. */
  lemma {:induction false} ApprovalTargets(articles: map<nat, Article>, u: User, id: nat, decision: string, now: int)
    ensures ApplyApproval(articles, u, id, decision, now).outcome != BadRequest
    ensures var st := ApplyApproval(articles, u, id, decision, now);
      st.outcome == Ok ==>
        (id in st.articles && st.articles[id].approvalStatus in {STATUS_EVALUATED, STATUS_APPROVED, STATUS_REVISION})
  {
    if id in articles && HasAnyRole(u, Deciders) && decision in Decisions {
      assert AllowedStatus(decision, ApprovalRole(u)).Some?;
    }
  }

  /** A decision writes only the approval status (and the timestamp Eloquent
      touches); every other article and every other field stay as they were. */
  lemma ApprovalFrame(articles: map<nat, Article>, u: User, id: nat, decision: string, now: int)
    ensures var st := ApplyApproval(articles, u, id, decision, now);
      && st.articles.Keys == articles.Keys
      && (forall k | k in articles && k != id :: st.articles[k] == articles[k])
      && (id in articles ==>
            (st.articles[id] == articles[id] ||
             st.articles[id] == articles[id].(approvalStatus := st.articles[id].approvalStatus, updatedAt := now)))
  {
  }

  /** The new status does not depend on the current one: two articles that
      differ only in status receive the same status from the same decision. */
  lemma ApprovalIgnoresCurrentStatus(articles: map<nat, Article>, u: User, id: nat, decision: string, now: int, other: string)
    requires id in articles
    ensures var a := articles[id];
      var st1 := ApplyApproval(articles, u, id, decision, now);
      var st2 := ApplyApproval(articles[id := a.(approvalStatus := other)], u, id, decision, now);
      && st1.outcome == st2.outcome
      && (st1.outcome == Ok ==> st1.articles[id].approvalStatus == st2.articles[id].approvalStatus)
  {
  }

  /** With no from-state guard, an administrator's "approved" pulls an already
      Approved article back to Evaluated, and an executive's "approved" takes
      an article straight from Review to Approved. */
  lemma NoFromStateGuard(articles: map<nat, Article>, admin: User, exec: User, id: nat, now: int)
    requires id in articles
    requires admin.roles == {ADMINISTRATOR} && exec.roles == {EXECUTIVE}
    ensures articles[id].approvalStatus == STATUS_APPROVED ==>
      ApplyApproval(articles, admin, id, "approved", now).articles[id].approvalStatus == STATUS_EVALUATED
    ensures articles[id].approvalStatus == STATUS_REVIEW ==>
      ApplyApproval(articles, exec, id, "approved", now).articles[id].approvalStatus == STATUS_APPROVED
  {
    assert HasAnyRole(admin, Deciders) && !HasRole(admin, EXECUTIVE);
    assert HasAnyRole(exec, Deciders) && HasRole(exec, EXECUTIVE);
  }

  /** `setApprovalStatus`. */
  method SetApprovalStatus(db: Database, u: User, id: nat, decision: string, now: int) returns (outcome: Outcome)
    requires db.Valid()
    modifies db
    ensures db.Valid()
    ensures Step(outcome, db.articles) == ApplyApproval(old(db.articles), u, id, decision, now)
    ensures db.comments == old(db.comments) && db.users == old(db.users)
    ensures db.nextArticleId == old(db.nextArticleId) && db.nextCommentId == old(db.nextCommentId)
    ensures db.nextUserId == old(db.nextUserId)
  {
    if id !in db.articles {
      return NotFound;
    }
    if !HasAnyRole(u, Deciders) {
      return Forbidden;
    }
    if decision !in Decisions {
      return Invalid;
    }
    var newStatus := AllowedStatus(decision, ApprovalRole(u));
    if newStatus.None? {
      return BadRequest;
    }
    db.articles := db.articles[id := WithStatus(db.articles[id], newStatus.value, now)];
    outcome := Ok;
  }

  // --------------------------------------------------------------- update

  /** The row `update` and `edit` fetch: the id, owned by the user, in Revision. */
  predicate Revisable(articles: map<nat, Article>, u: User, id: nat) {
    id in articles && articles[id].userId == u.id && articles[id].approvalStatus == STATUS_REVISION
  }

  /** The row `update` and `edit` fetch is owned, through `Article::user()`,
      by the requesting user, and by nobody else when the stored users carry
      their own ids. */
  lemma {:induction false} RevisableIsOwned(articles: map<nat, Article>, users: map<nat, User>, u: User, id: nat)
    requires Revisable(articles, u, id)
    requires forall k | k in users :: users[k].id == k
    ensures u.id in users && users[u.id] == u ==> Owner(articles[id], users) == Some(u)
    ensures forall v | Owner(articles[id], users) == Some(v) :: v.id == u.id
  {
    forall v | Owner(articles[id], users) == Some(v)
      ensures v.id == u.id
    {
      assert v == users[articles[id].userId];
    }
  }

  /** The row after a successful revision. */
  function Revised(a: Article, inp: ArticleInput, svc: Services, now: int): Article {
    a.(title := svc.clean(inp.title),
       typeOfReport := inp.typeOfReport,
       publicationDate := inp.publicationDate,
       url := inp.url,
       detailedSummary := svc.clean(inp.detailedSummary),
       analysis := svc.clean(inp.analysis),
       recommendation := svc.clean(inp.recommendation),
       approvalStatus := STATUS_UPDATED,
       updatedAt := now)
  }

  /** `update`, as a step on the article table. */
  function ApplyUpdate(articles: map<nat, Article>, u: User, id: nat, inp: ArticleInput, svc: Services, now: int): Step {
    if !Revisable(articles, u, id) then Step(Forbidden, articles)
    else if !ValidContent(inp, svc) then Step(Invalid, articles)
    else Step(Ok, articles[id := Revised(articles[id], inp, svc, now)])
  }

  /** Only the owner of an article in Revision can change it; anyone else, or
      any other status, gets 403 and nothing changes. */
  lemma UpdateOnlyOwnerInRevision(articles: map<nat, Article>, u: User, id: nat, inp: ArticleInput, svc: Services, now: int)
    ensures var st := ApplyUpdate(articles, u, id, inp, svc, now);
      && (st.outcome == Ok <==> Revisable(articles, u, id) && ValidContent(inp, svc))
      && (!Revisable(articles, u, id) ==> st == Step(Forbidden, articles))
      && (st.outcome != Ok ==> st.articles == articles)
  {
  }

  /** A successful revision moves the article to Updated, replaces the seven
      content fields, and keeps owner, editor name, posting date and time,
      images and creation time. No other article changes. */
  lemma UpdateResult(articles: map<nat, Article>, u: User, id: nat, inp: ArticleInput, svc: Services, now: int)
    requires ApplyUpdate(articles, u, id, inp, svc, now).outcome == Ok
    ensures var st := ApplyUpdate(articles, u, id, inp, svc, now);
      var a, b := articles[id], st.articles[id];
      && st.articles.Keys == articles.Keys
      && (forall k | k in articles && k != id :: st.articles[k] == articles[k])
      && a.approvalStatus == STATUS_REVISION && b.approvalStatus == STATUS_UPDATED
      && b.id == a.id && b.userId == a.userId == u.id && b.editorName == a.editorName
      && b.postedDate == a.postedDate && b.timePosted == a.timePosted
      && b.imagePath == a.imagePath && b.createdAt == a.createdAt && b.updatedAt == now
      && b.title == svc.clean(inp.title) && b.typeOfReport == inp.typeOfReport
      && b.publicationDate == inp.publicationDate && b.url == inp.url
      && b.detailedSummary == svc.clean(inp.detailedSummary)
      && b.analysis == svc.clean(inp.analysis) && b.recommendation == svc.clean(inp.recommendation)
  {
  }

  /** `update`. Unlike `store`, it evicts no statistics. */
  method UpdateArticle(db: Database, u: User, id: nat, inp: ArticleInput, svc: Services, now: int) returns (outcome: Outcome)
    requires db.Valid()
    modifies db
    ensures db.Valid()
    ensures Step(outcome, db.articles) == ApplyUpdate(old(db.articles), u, id, inp, svc, now)
    ensures db.comments == old(db.comments) && db.users == old(db.users)
    ensures db.nextArticleId == old(db.nextArticleId) && db.nextCommentId == old(db.nextCommentId)
    ensures db.nextUserId == old(db.nextUserId)
  {
    if !(id in db.articles && db.articles[id].userId == u.id && db.articles[id].approvalStatus == STATUS_REVISION) {
      return Forbidden;
    }
    if !ValidContent(inp, svc) {
      return Invalid;
    }
    db.articles := db.articles[id := Revised(db.articles[id], inp, svc, now)];
    outcome := Ok;
  }

  /** Both writes keep every stored status among the five. */
  lemma {:induction false} StepsKeepStatusesValid(articles: map<nat, Article>, u: User, id: nat, decision: string,
                                                  inp: ArticleInput, svc: Services, now: int)
    requires StatusesValid(articles)
    ensures StatusesValid(ApplyApproval(articles, u, id, decision, now).articles)
    ensures StatusesValid(ApplyUpdate(articles, u, id, inp, svc, now).articles)
  {
    ApprovalTargets(articles, u, id, decision, now);
    var m := ApplyApproval(articles, u, id, decision, now).articles;
    forall k | k in m ensures IsStatus(m[k].approvalStatus) {
      if k != id { assert m[k] == articles[k]; }
    }
    var n := ApplyUpdate(articles, u, id, inp, svc, now).articles;
    forall k | k in n ensures IsStatus(n[k].approvalStatus) {
      if k != id || !Revisable(articles, u, id) || !ValidContent(inp, svc) { assert n[k] == articles[k]; }
    }
  }

  /** The intended life of a report: submitted in Review, sent back for
      revision by an administrator, revised by its editor (Updated), evaluated
      by an administrator, approved by an executive. */
  lemma {:induction false} ReviewWorkflow(articles: map<nat, Article>, id: nat, editor: User, admin: User, exec: User,
                                          inp: ArticleInput, revision: ArticleInput, svc: Services, clock: Clock, t: int)
    requires id !in articles
    requires ValidContent(revision, svc)
    requires admin.roles == {ADMINISTRATOR} && exec.roles == {EXECUTIVE}
    ensures var m0 := articles[id := NewArticle(id, editor, inp, svc, clock)];
      var s1 := ApplyApproval(m0, admin, id, "disapproved", t);
      var s2 := ApplyUpdate(s1.articles, editor, id, revision, svc, t + 1);
      var s3 := ApplyApproval(s2.articles, admin, id, "approved", t + 2);
      var s4 := ApplyApproval(s3.articles, exec, id, "approved", t + 3);
      && m0[id].approvalStatus == STATUS_REVIEW
      && s1.outcome == Ok && s1.articles[id].approvalStatus == STATUS_REVISION
      && s2.outcome == Ok && s2.articles[id].approvalStatus == STATUS_UPDATED
      && s3.outcome == Ok && s3.articles[id].approvalStatus == STATUS_EVALUATED
      && s4.outcome == Ok && s4.articles[id].approvalStatus == STATUS_APPROVED
  {
    var m0 := articles[id := NewArticle(id, editor, inp, svc, clock)];
    assert HasAnyRole(admin, Deciders) && !HasRole(admin, EXECUTIVE);
    assert HasAnyRole(exec, Deciders) && HasRole(exec, EXECUTIVE);
    var s1 := ApplyApproval(m0, admin, id, "disapproved", t);
    assert s1.articles[id].userId == editor.id;
    assert Revisable(s1.articles, editor, id);
  }

  // ------------------------------------------------------ index and export

  /** The rows a listing or export selects: the status, and for editors only
      their own rows. */
  predicate Matches(a: Article, status: string, owner: Option<nat>) {
    a.approvalStatus == status && (owner.Some? ==> a.userId == owner.value)
  }

  /** Editors are scoped to their own rows. */
  function OwnerScope(u: User): Option<nat> {
    if HasRole(u, EDITOR) then Some(u.id) else None
  }

  /** `rows` holds each stored matching article once and nothing else. */
  ghost predicate IsSelection(rows: seq<Article>, articles: map<nat, Article>, status: string, owner: Option<nat>) {
    forall a :: multiset(rows)[a] == (if InTable(articles, a) && Matches(a, status, owner) then 1 else 0)
  }

  /** `where approval_status = ? [and user_id = ?]` over the table, in no particular order. */
  method SelectArticles(db: Database, status: string, owner: Option<nat>) returns (rows: seq<Article>)
    requires db.Valid()
    ensures IsSelection(rows, db.articles, status, owner)
  {
    rows := [];
    var remaining := db.articles.Keys;
    while remaining != {}
      invariant remaining <= db.articles.Keys
      invariant forall a ::
        multiset(rows)[a] == (if InTable(db.articles, a) && a.id !in remaining && Matches(a, status, owner) then 1 else 0)
      decreases remaining
    {
      var k :| k in remaining;
      var a := db.articles[k];
      assert a.id == k;
      if Matches(a, status, owner) {
        rows := rows + [a];
      }
      remaining := remaining - {k};
    }
  }

  /** The column a listing is ordered by: creation for Review, last update otherwise. */
  function SortKey(status: string): Article -> int {
    if status == STATUS_REVIEW then (a: Article) => a.createdAt else (a: Article) => a.updatedAt
  }

  /** `index`: 404 for an unknown status; otherwise the matching rows (an
      editor's own only), newest first by the status's column, and the
      requested page of ten. */
  method Index(db: Database, u: User, status: string, page: int) returns (outcome: Outcome, rows: seq<Article>, items: seq<Article>)
    requires db.Valid()
    ensures outcome == (if IsStatus(status) then Ok else NotFound)
    ensures outcome == NotFound ==> rows == [] && items == []
    ensures outcome == Ok ==>
      && IsSelection(rows, db.articles, status, OwnerScope(u))
      && SortedDesc(rows, SortKey(status))
      && items == Paginate(rows, page, ARTICLES_PER_PAGE)
  {
    if !IsStatus(status) {
      return NotFound, [], [];
    }
    var selected := SelectArticles(db, status, OwnerScope(u));
    rows := SortDesc(selected, SortKey(status));
    items := Paginate(rows, page, ARTICLES_PER_PAGE);
    outcome := Ok;
  }

  /** A cell handed to `fputcsv`; the CSV quoting itself is not modelled. */
  datatype Cell = Text(text: string) | Number(n: int) | Timestamp(t: int)

  const CsvHeader: seq<Cell> := [
    Text("ID"), Text("Title"), Text("Publication Date"), Text("Type of Report"), Text("URL"),
    Text("Editor Name"), Text("Detailed Summary"), Text("Analysis"), Text("Recommendation"),
    Text("Approval Status"), Text("Created At"), Text("Updated At")
  ]

  /** A value a spreadsheet would read as a formula. */
  predicate StartsFormula(v: string) {
    |v| > 0 && (v[0] == '=' || v[0] == '+' || v[0] == '-' || v[0] == '@')
  }

  /** `escapeCsvValue`. */
  function EscapeCsvValue(v: string): (r: string)
    ensures !StartsFormula(r)
    ensures !StartsFormula(v) ==> r == v
  {
    if StartsFormula(v) then "'" + v else v
  }

  /** The escape prefixes a quote exactly when the value starts with one of
      `= + - @`, and otherwise (the empty value included) returns it unchanged. */
  lemma EscapePrefixesExactlyFormulas(v: string)
    ensures EscapeCsvValue(v) == "'" + v <==> StartsFormula(v)
    ensures !StartsFormula(v) ==> EscapeCsvValue(v) == v
    ensures EscapeCsvValue("") == ""
  {
  }

  /** No escaped value starts a formula, and escaping twice is escaping once. */
  lemma EscapeNeutralises(v: string)
    ensures !StartsFormula(EscapeCsvValue(v))
    ensures EscapeCsvValue(EscapeCsvValue(v)) == EscapeCsvValue(v)
  {
  }

  /** The escape is not injective: a value that already begins with the quote
      exports like the formula it would neutralise. */
  lemma EscapeCollides()
    ensures EscapeCsvValue("=SUM(A1:A9)") == "'=SUM(A1:A9)"
    ensures EscapeCsvValue("'=SUM(A1:A9)") == "'=SUM(A1:A9)"
  {
  }

  /** One exported row, in header order. */
  function CsvRow(a: Article): seq<Cell> {
    [ Number(a.id), Text(EscapeCsvValue(a.title)), Text(a.publicationDate),
      Text(EscapeCsvValue(a.typeOfReport)), Text(EscapeCsvValue(a.url)),
      Text(EscapeCsvValue(a.editorName)), Text(EscapeCsvValue(a.detailedSummary)),
      Text(EscapeCsvValue(a.analysis)), Text(EscapeCsvValue(a.recommendation)),
      Text(a.approvalStatus), Timestamp(a.createdAt), Timestamp(a.updatedAt) ]
  }

  /** A row has the header's twelve columns, and every free-text column and
      the status column of a stored article is safe from formula injection. */
  lemma CsvRowSafe(a: Article)
    requires IsStatus(a.approvalStatus)
    ensures |CsvRow(a)| == |CsvHeader| == 12
    ensures forall i | i in {1, 3, 4, 5, 6, 7, 8, 9} :: CsvRow(a)[i].Text? && !StartsFormula(CsvRow(a)[i].text)
  {
    var row := CsvRow(a);
    assert row[9] == Text(a.approvalStatus);
  }

  /** The download's file name: the status in lower case. */
  function ExportFilename(status: string): (r: string)
    ensures |r| == |status| + 13
    ensures r[..9] == "articles_" && r[|r| - 4..] == ".csv"
    ensures forall i | 0 <= i < |status| :: r[9 + i] == LowerChar(status[i])
  {
    "articles_" + ToLower(status) + ".csv"
  }

  /** The file `fputcsv` writes: the header, then one line per row. */
  method WriteCsv(rows: seq<Article>) returns (csv: seq<seq<Cell>>)
    ensures |csv| == |rows| + 1 && csv[0] == CsvHeader
    ensures forall i | 0 <= i < |rows| :: csv[i + 1] == CsvRow(rows[i])
  {
    csv := [CsvHeader];
    var i := 0;
    while i < |rows|
      invariant 0 <= i <= |rows|
      invariant |csv| == i + 1 && csv[0] == CsvHeader
      invariant forall j | 0 <= j < i :: csv[j + 1] == CsvRow(rows[j])
    {
      csv := csv + [CsvRow(rows[i])];
      i := i + 1;
    }
  }

  /** `exportCsv`: 404 for an unknown status, 403 for a user without a staff
      role, otherwise the header and one row per selected article (an
      editor's own only). No executive restriction applies here. */
  method ExportCsv(db: Database, u: User, status: string)
    returns (outcome: Outcome, filename: string, rows: seq<Article>, csv: seq<seq<Cell>>)
    requires db.Valid()
    ensures outcome == (if !IsStatus(status) then NotFound
                        else if !HasAnyRole(u, KnownRoles) then Forbidden
                        else Ok)
    ensures outcome != Ok ==> csv == []
    ensures outcome == Ok ==> filename == ExportFilename(status)
    ensures outcome == Ok ==> IsSelection(rows, db.articles, status, OwnerScope(u))
    ensures outcome == Ok ==> |csv| == |rows| + 1 && csv[0] == CsvHeader
    ensures outcome == Ok ==> forall i | 0 <= i < |rows| :: csv[i + 1] == CsvRow(rows[i])
  {
    filename, rows, csv := "", [], [];
    if !IsStatus(status) {
      return NotFound, filename, rows, csv;
    }
    if !HasAnyRole(u, KnownRoles) {
      return Forbidden, filename, rows, csv;
    }
    rows := SelectArticles(db, status, OwnerScope(u));
    filename := ExportFilename(status);
    csv := WriteCsv(rows);
    outcome := Ok;
  }

  // ---------------------------------------------------------- show and edit

  /** The detail page's data: the article, its visible comments newest first,
      and the requested page of five. */
  datatype Detail = Detail(article: Article, comments: seq<Comment>, page: seq<Comment>)

  /** The guards of `show`, in order. */
  function ShowOutcome(articles: map<nat, Article>, u: User, status: string, id: nat): Outcome {
    if !IsStatus(status) then NotFound
    else if id !in articles then NotFound
    else if ToLower(articles[id].approvalStatus) != ToLower(status) then NotFound
    else if !HasAnyRole(u, KnownRoles) && articles[id].userId != u.id then RedirectBack
    else Ok
  }

  /** With every stored status among the five, the page shows an article
      exactly when the path names its status exactly and the user is staff or
      its owner. */
  lemma {:induction false} ShowOkExactly(articles: map<nat, Article>, u: User, status: string, id: nat)
    requires StatusesValid(articles)
    ensures ShowOutcome(articles, u, status, id) == Ok <==>
      && IsStatus(status) && id in articles && articles[id].approvalStatus == status
      && (HasAnyRole(u, KnownRoles) || articles[id].userId == u.id)
  {
    if IsStatus(status) && id in articles {
      StatusCaseInsensitiveIsExact(articles[id].approvalStatus, status);
    }
  }

  /** An editor may open any article by id, not only their own, provided the
      path carries the article's status. */
  lemma EditorSeesAnyArticle(articles: map<nat, Article>, u: User, id: nat)
    requires StatusesValid(articles) && id in articles && HasRole(u, EDITOR)
    ensures ShowOutcome(articles, u, articles[id].approvalStatus, id) == Ok
  {
    ShowOkExactly(articles, u, articles[id].approvalStatus, id);
    assert HasAnyRole(u, KnownRoles);
  }

  /** The comments `show` lists: the article's, and an executive's own only. */
  function VisibleComments(all: seq<Comment>, id: nat, u: User): (r: seq<Comment>)
    ensures forall c :: c in r <==> c in all && c.articleId == id && (HasRole(u, EXECUTIVE) ==> c.userId == u.id)
  {
    if HasRole(u, EXECUTIVE) then Where(CommentsOf(id, all), (c: Comment) => c.userId == u.id)
    else CommentsOf(id, all)
  }

  /** `show`. */
  method Show(db: Database, u: User, status: string, id: nat, page: int) returns (outcome: Outcome, detail: Option<Detail>)
    requires db.Valid()
    ensures outcome == ShowOutcome(db.articles, u, status, id)
    ensures detail.Some? <==> outcome == Ok
    ensures outcome == Ok ==>
      && detail.value.article == db.articles[id]
      && multiset(detail.value.comments) == multiset(VisibleComments(db.comments, id, u))
      && SortedDesc(detail.value.comments, CommentTime)
      && detail.value.page == Paginate(detail.value.comments, page, COMMENTS_PER_PAGE)
  {
    outcome := ShowOutcome(db.articles, u, status, id);
    if outcome != Ok {
      return outcome, None;
    }
    var comments := SortDesc(VisibleComments(db.comments, id, u), CommentTime);
    detail := Some(Detail(db.articles[id], comments, Paginate(comments, page, COMMENTS_PER_PAGE)));
  }

  /** The guards of `edit`: the editor role, then the same row `update` fetches. */
  function EditOutcome(articles: map<nat, Article>, u: User, id: nat): Outcome {
    if !HasRole(u, EDITOR) then Forbidden
    else if !Revisable(articles, u, id) then Forbidden
    else Ok
  }

  /** The edit form opens exactly for an editor who could also submit the revision. */
  lemma EditMatchesUpdate(articles: map<nat, Article>, u: User, id: nat, inp: ArticleInput, svc: Services, now: int)
    ensures EditOutcome(articles, u, id) == Ok <==>
      HasRole(u, EDITOR) && ApplyUpdate(articles, u, id, inp, svc, now).outcome != Forbidden
  {
  }

  /** `edit`: the form with every comment on the article, newest first, five per page. */
  method Edit(db: Database, u: User, id: nat, page: int) returns (outcome: Outcome, detail: Option<Detail>)
    requires db.Valid()
    ensures outcome == EditOutcome(db.articles, u, id)
    ensures detail.Some? <==> outcome == Ok
    ensures outcome == Ok ==>
      && detail.value.article == db.articles[id]
      && multiset(detail.value.comments) == multiset(CommentsOf(id, db.comments))
      && SortedDesc(detail.value.comments, CommentTime)
      && detail.value.page == Paginate(detail.value.comments, page, COMMENTS_PER_PAGE)
  {
    outcome := EditOutcome(db.articles, u, id);
    if outcome != Ok {
      return outcome, None;
    }
    var comments := SortDesc(CommentsOf(id, db.comments), CommentTime);
    detail := Some(Detail(db.articles[id], comments, Paginate(comments, page, COMMENTS_PER_PAGE)));
  }
}
