/** The application database as the controllers see it: the `articles`,
    `comments` and `users` tables, keyed by auto-increment ids. */
module Store {
  import opened ArticleModel
  import opened Roles

  /** `a` is the row stored under its own id. */
  predicate InTable(m: map<nat, Article>, a: Article) {
    a.id in m && m[a.id] == a
  }

  /** Every stored article carries one of the five statuses. */
  predicate StatusesValid(m: map<nat, Article>) {
    forall id | id in m :: IsStatus(m[id].approvalStatus)
  }

  class Database {
    var articles: map<nat, Article>
    var comments: seq<Comment>
    var users: map<nat, User>
    var nextArticleId: nat
    var nextCommentId: nat
    var nextUserId: nat

    /** Keys are the rows' own ids and lie below the next id to hand out;
        every article's status is one of the five. */
    ghost predicate Valid()
      reads this
    {
      && (forall id | id in articles :: articles[id].id == id && id < nextArticleId)
      && StatusesValid(articles)
      && (forall id | id in users :: users[id].id == id && id < nextUserId)
      && (forall i | 0 <= i < |comments| :: comments[i].id < nextCommentId)
    }

    constructor ()
      ensures Valid()
      ensures articles == map[] && comments == [] && users == map[]
    {
      articles, comments, users := map[], [], map[];
      nextArticleId, nextCommentId, nextUserId := 1, 1, 1;
    }
  }
}
