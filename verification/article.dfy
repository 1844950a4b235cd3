/** The Article record, its five approval-status constants, the ten report
    categories, and the two relations of the Article model (owner and comments). */
module ArticleModel {
  import opened Common
  import opened Query

  const STATUS_REVIEW: string := "Review"
  const STATUS_EVALUATED: string := "Evaluated"
  const STATUS_APPROVED: string := "Approved"
  const STATUS_REVISION: string := "Revision"
  const STATUS_UPDATED: string := "Updated"

  /** The whitelist the controllers check a path status against, in their order. */
  const ValidStatuses: seq<string> := ["Review", "Updated", "Revision", "Evaluated", "Approved"]

  predicate IsStatus(s: string) {
    s in ValidStatuses
  }

  /** The `in:` list of the `type_of_report` validation rule. */
  const ReportTypes: seq<string> := [
    "Breach", "Data Leak", "Malware Information", "Threat Actors Updates", "Cyber Awareness",
    "Vulnerability Exploitation", "Phishing", "Ransomware", "Social Engineering", "Illegal Access"
  ]

  predicate IsReportType(s: string) {
    s in ReportTypes
  }

  /** A row of the `articles` table. Timestamps are whole seconds; the date
      columns keep the text the request supplied. */
  datatype Article = Article(
    id: nat,
    userId: nat,
    title: string,
    publicationDate: string,
    typeOfReport: string,
    url: string,
    editorName: string,
    postedDate: string,
    timePosted: string,
    detailedSummary: string,
    analysis: string,
    recommendation: string,
    imagePath: Option<seq<string>>,
    approvalStatus: string,
    createdAt: int,
    updatedAt: int)

  /** A row of the `comments` table. */
  datatype Comment = Comment(id: nat, articleId: nat, userId: nat, text: string, createdAt: int)

  /** The status a new row gets when none is given (the column default). */
  function DefaultStatus(): (s: string)
    ensures IsStatus(s) && s == ValidStatuses[0]
  {
    STATUS_REVIEW
  }

  lemma StatusConstantsDistinct()
    ensures |{STATUS_REVIEW, STATUS_EVALUATED, STATUS_APPROVED, STATUS_REVISION, STATUS_UPDATED}| == 5
    ensures {STATUS_REVIEW, STATUS_EVALUATED, STATUS_APPROVED, STATUS_REVISION, STATUS_UPDATED}
         == set s | s in ValidStatuses
    ensures forall i, j :: 0 <= i < j < |ValidStatuses| ==> ValidStatuses[i] != ValidStatuses[j]
  {
    assert STATUS_REVIEW[0] != STATUS_EVALUATED[0] && STATUS_REVIEW[0] != STATUS_APPROVED[0];
    assert STATUS_REVIEW[0] != STATUS_UPDATED[0] && STATUS_EVALUATED[0] != STATUS_APPROVED[0];
    assert STATUS_EVALUATED[0] != STATUS_UPDATED[0] && STATUS_APPROVED[0] != STATUS_UPDATED[0];
    assert STATUS_REVISION[0] != STATUS_EVALUATED[0] && STATUS_REVISION[0] != STATUS_APPROVED[0];
    assert STATUS_REVISION[0] != STATUS_UPDATED[0];
    assert |STATUS_REVIEW| != |STATUS_REVISION|;
  }

  /** Two statuses compared the way `show` compares them (`strtolower` on both
      sides) are equal exactly when they are the same status: on the five names
      the case-insensitive test is the exact one. */
  lemma {:induction false} StatusCaseInsensitiveIsExact(a: string, b: string)
    requires IsStatus(a) && IsStatus(b)
    ensures ToLower(a) == ToLower(b) <==> a == b
  {
    if a != b && |a| == |b| {
      // only Revision and Approved share a length; their initials differ
      assert {a, b} == {STATUS_REVISION, STATUS_APPROVED};
      assert LowerChar(a[0]) != LowerChar(b[0]);
      assert ToLower(a)[0] != ToLower(b)[0];
    }
  }

  /** `Article::user()`: the owner is the user whose id is the article's `user_id`. */
  function Owner<U>(a: Article, users: map<nat, U>): (r: Option<U>)
    ensures r.Some? <==> a.userId in users
    ensures r.Some? ==> r.value == users[a.userId]
  {
    if a.userId in users then Some(users[a.userId]) else None
  }

  /** `Article::comments()`: the comments whose `article_id` is the article's id,
      in table order. */
  function CommentsOf(articleId: nat, comments: seq<Comment>): (r: seq<Comment>)
    ensures forall c :: c in r <==> c in comments && c.articleId == articleId
    ensures |r| <= |comments|
  {
    Where(comments, (c: Comment) => c.articleId == articleId)
  }

  /** The column `latest()` orders comments by. */
  function CommentTime(c: Comment): int { c.createdAt }
}
