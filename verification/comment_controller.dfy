/** The comment controller: the comment list of one article, and posting a
    comment as an administrator or executive. */
module CommentController {
  import opened Common
  import opened ArticleModel
  import opened Roles
  import opened Query
  import opened Store

  const MAX_COMMENT_LENGTH: nat := 1000

  /** The form fields: `article_id` may be missing from the request. */
  datatype CommentInput = CommentInput(articleId: Option<nat>, text: string)

  /** `required|exists:articles,id` and `required|string|max:1000`. */
  predicate ValidComment(articles: map<nat, Article>, inp: CommentInput) {
    && inp.articleId.Some? && inp.articleId.value in articles
    && Filled(inp.text) && |inp.text| <= MAX_COMMENT_LENGTH
  }

  /** The outcome of `store`. A user without a deciding role reaches the
      logging call, which names a facade the file never imports, so the
      request fails with a server error before anything is written. */
  function StoreOutcome(articles: map<nat, Article>, u: User, inp: CommentInput): Outcome {
    if !HasAnyRole(u, Deciders) then ServerError
    else if !ValidComment(articles, inp) then Invalid
    else Ok
  }

  /** `store`. `stripTags` and `clean` stand for `strip_tags` and `Purifier::clean`. */
  method StoreComment(db: Database, u: User, inp: CommentInput, stripTags: string -> string,
                      clean: string -> string, now: int) returns (outcome: Outcome)
    requires db.Valid()
    modifies db
    ensures db.Valid()
    ensures outcome == StoreOutcome(old(db.articles), u, inp)
    ensures outcome != Ok ==> unchanged(db)
    ensures outcome == Ok ==>
      && db.comments == old(db.comments) + [Comment(old(db.nextCommentId), inp.articleId.value, u.id,
                                                    clean(stripTags(inp.text)), now)]
      && db.nextCommentId == old(db.nextCommentId) + 1
      && db.articles == old(db.articles) && db.users == old(db.users)
      && db.nextArticleId == old(db.nextArticleId) && db.nextUserId == old(db.nextUserId)
  {
    outcome := StoreOutcome(db.articles, u, inp);
    if outcome != Ok {
      return;
    }
    var c := Comment(db.nextCommentId, inp.articleId.value, u.id, clean(stripTags(inp.text)), now);
    db.comments := db.comments + [c];
    db.nextCommentId := db.nextCommentId + 1;
  }

  /** A comment is accepted exactly from a decider, on an existing article,
      with non-blank text of at most 1000 characters. */
  lemma StoreAcceptsExactly(articles: map<nat, Article>, u: User, inp: CommentInput)
    ensures StoreOutcome(articles, u, inp) == Ok <==>
      && (HasRole(u, ADMINISTRATOR) || HasRole(u, EXECUTIVE))
      && inp.articleId.Some? && inp.articleId.value in articles
      && Filled(inp.text) && |inp.text| <= MAX_COMMENT_LENGTH
    ensures inp.text == "" || |inp.text| > MAX_COMMENT_LENGTH ==> StoreOutcome(articles, u, inp) != Ok
  {
  }

  /** A comment that is stored shows up in the article's comment list and,
      for its author, among their own comments on it. */
  lemma {:induction false} StoredCommentIsListed(comments: seq<Comment>, c: Comment)
    ensures c in CommentsOf(c.articleId, comments + [c])
    ensures c in Where(CommentsOf(c.articleId, comments + [c]), (x: Comment) => x.userId == c.userId)
  {
    assert c in comments + [c];
  }

  /** `index`: 404 for an unknown article, otherwise every comment on it,
      whoever wrote it, newest first. Unlike the detail page, executives are
      not limited to their own comments here. */
  method Index(db: Database, articleId: nat) returns (outcome: Outcome, comments: seq<Comment>)
    requires db.Valid()
    ensures outcome == (if articleId in db.articles then Ok else NotFound)
    ensures outcome == NotFound ==> comments == []
    ensures outcome == Ok ==>
      && (forall c :: c in comments <==> c in db.comments && c.articleId == articleId)
      && multiset(comments) == multiset(CommentsOf(articleId, db.comments))
      && SortedDesc(comments, CommentTime)
  {
    if articleId !in db.articles {
      return NotFound, [];
    }
    comments := SortDesc(CommentsOf(articleId, db.comments), CommentTime);
    assert forall c :: c in comments <==> c in multiset(comments);
    assert forall c :: c in CommentsOf(articleId, db.comments) <==> c in multiset(CommentsOf(articleId, db.comments));
    outcome := Ok;
  }
}
