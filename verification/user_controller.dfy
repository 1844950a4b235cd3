/** The user-management controller: the filtered user list, the create and
    edit forms, registering, updating and deleting a user. */
module UserController {
  import opened Common
  import opened ArticleModel
  import opened Roles
  import opened Query
  import opened Store

  const USERS_PER_PAGE: nat := 10
  const MIN_PASSWORD_LENGTH: nat := 8

  /** The role choices both forms offer, in their order. */
  const RoleChoices: seq<string> := [ADMINISTRATOR, EDITOR, EXECUTIVE]

  /** PHP truthiness of an optional query parameter: absent, "" and "0" are false. */
  predicate Truthy(p: Option<string>) {
    p.Some? && !Empty(p.value)
  }

  /** The user-list filter as the query builds it: `orWhere` is added to the
      top level of the query, so the role condition binds to the e-mail
      alternative only. */
  predicate ListedAsWritten(u: User, search: Option<string>, role: Option<string>) {
    if Truthy(search) && Truthy(role) then
      Like(u.name, search.value) || (Like(u.email, search.value) && role.value in u.roles)
    else if Truthy(search) then
      Like(u.name, search.value) || Like(u.email, search.value)
    else if Truthy(role) then
      role.value in u.roles
    else true
  }

  /** The filter the page means: the search matches name or e-mail, and the
      role (when given) is held. */
  predicate Listed(u: User, search: Option<string>, role: Option<string>) {
    && (Truthy(search) ==> Like(u.name, search.value) || Like(u.email, search.value))
    && (Truthy(role) ==> role.value in u.roles)
  }

  /** The two filters agree whenever search and role are not both given; with
      both, the written one lets through every name match, whatever its roles. */
  lemma ListedAgreesUnlessBoth(u: User, search: Option<string>, role: Option<string>)
    ensures !(Truthy(search) && Truthy(role)) ==> (ListedAsWritten(u, search, role) <==> Listed(u, search, role))
    ensures Listed(u, search, role) ==> ListedAsWritten(u, search, role)
    ensures Truthy(search) && Truthy(role) && Like(u.name, search.value) ==> ListedAsWritten(u, search, role)
  {
  }

  /** An editor called Ann shows up in a search for "ann" restricted to executives. */
  lemma {:induction false} ListedAsWrittenIgnoresRole()
    ensures var ann := User(2, "Ann", "a@example.org", "h", {EDITOR}, 0);
      ListedAsWritten(ann, Some("ann"), Some(EXECUTIVE)) && !Listed(ann, Some("ann"), Some(EXECUTIVE))
  {
    var ann := User(2, "Ann", "a@example.org", "h", {EDITOR}, 0);
    assert ToLower("Ann") == "ann" by {
      assert LowerChar('A') == 'a';
    }
    assert ToLower("ann") == "ann";
    assert OccursAt("ann", "ann", 0);
    assert EXECUTIVE !in ann.roles;
  }

  // ------------------------------------------------------------------ index

  /** `rows` holds each stored user passing `keep` once and nothing else. */
  ghost predicate IsUserSelection(rows: seq<User>, users: map<nat, User>, keep: User -> bool) {
    forall v :: multiset(rows)[v] == (if v.id in users && users[v.id] == v && keep(v) then 1 else 0)
  }

  /** A query over the users table with the condition `keep`, in no particular order. */
  method SelectUsers(db: Database, keep: User -> bool) returns (rows: seq<User>)
    requires db.Valid()
    ensures IsUserSelection(rows, db.users, keep)
  {
    rows := [];
    var remaining := db.users.Keys;
    while remaining != {}
      invariant remaining <= db.users.Keys
      invariant forall v ::
        multiset(rows)[v] == (if v.id in db.users && db.users[v.id] == v && v.id !in remaining && keep(v) then 1 else 0)
      decreases remaining
    {
      var k :| k in remaining;
      var v := db.users[k];
      assert v.id == k;
      if keep(v) {
        rows := rows + [v];
      }
      remaining := remaining - {k};
    }
  }

  /** The condition `index` puts on the query, as written. */
  function IndexFilter(search: Option<string>, role: Option<string>): User -> bool {
    (v: User) => ListedAsWritten(v, search, role)
  }

  /** A user selected by the written query is listed by the intended filter
      too, unless both search and role are given; with both, a name match is
      selected whatever its roles. */
  lemma {:induction false} IndexSelectionAgainstIntended(rows: seq<User>, users: map<nat, User>,
                                                         search: Option<string>, role: Option<string>)
    requires IsUserSelection(rows, users, IndexFilter(search, role))
    ensures !(Truthy(search) && Truthy(role)) ==>
      forall v | v in rows :: Listed(v, search, role)
    ensures forall k | k in users && users[k].id == k && Listed(users[k], search, role) :: users[k] in rows
    ensures Truthy(search) && Truthy(role) ==>
      forall k | k in users && users[k].id == k && Like(users[k].name, search.value) :: users[k] in rows
  {
    forall v | v in rows
      ensures ListedAsWritten(v, search, role)
    {
      assert multiset(rows)[v] > 0;
    }
    forall k | k in users && users[k].id == k && ListedAsWritten(users[k], search, role)
      ensures users[k] in rows
    {
      assert multiset(rows)[users[k]] == 1;
    }
    forall v: User {
      ListedAgreesUnlessBoth(v, search, role);
    }
  }

  function UserCreatedAt(u: User): int { u.createdAt }

  /** `index`: administrators only; the users the written query selects,
      newest first, ten per page. */
  method Index(db: Database, actor: User, search: Option<string>, role: Option<string>, page: int)
    returns (outcome: Outcome, rows: seq<User>, items: seq<User>)
    requires db.Valid()
    ensures outcome == (if HasRole(actor, ADMINISTRATOR) then Ok else Forbidden)
    ensures outcome == Forbidden ==> rows == [] && items == []
    ensures outcome == Ok ==>
      && IsUserSelection(rows, db.users, IndexFilter(search, role))
      && SortedDesc(rows, UserCreatedAt)
      && items == Paginate(rows, page, USERS_PER_PAGE)
  {
    if !HasRole(actor, ADMINISTRATOR) {
      return Forbidden, [], [];
    }
    var selected := SelectUsers(db, IndexFilter(search, role));
    rows := SortDesc(selected, UserCreatedAt);
    items := Paginate(rows, page, USERS_PER_PAGE);
    outcome := Ok;
  }

  /** `create`: the form with the three role choices, administrators only. */
  function CreateForm(actor: User): (r: (Outcome, seq<string>))
    ensures r.0 == Ok <==> HasRole(actor, ADMINISTRATOR)
    ensures r.0 == Ok ==> (forall x :: x in r.1 <==> x in KnownRoles) && |r.1| == 3
    ensures r.0 != Ok ==> r.1 == []
  {
    if HasRole(actor, ADMINISTRATOR) then (Ok, RoleChoices) else (Forbidden, [])
  }

  // ------------------------------------------------------------------ store

  /** Whether a user other than `except` already has the address. */
  predicate EmailTaken(users: map<nat, User>, email: string, except: Option<nat>) {
    exists k | k in users :: users[k].email == email && (except.None? || k != except.value)
  }

  /** No two stored users share an address. */
  predicate EmailsUnique(users: map<nat, User>) {
    forall i, j | i in users && j in users && users[i].email == users[j].email :: i == j
  }

  /** The registration form. `isEmail` stands for the `email` rule. */
  datatype NewUserInput = NewUserInput(name: string, email: string, password: string, confirmation: string, role: string)

  /** The rules of `store`. */
  predicate ValidNewUser(users: map<nat, User>, inp: NewUserInput, isEmail: string -> bool) {
    && Filled(inp.name) && |inp.name| <= 255
    && Filled(inp.email) && isEmail(inp.email) && |inp.email| <= 255 && !EmailTaken(users, inp.email, None)
    && Filled(inp.password) && |inp.password| >= MIN_PASSWORD_LENGTH && inp.confirmation == inp.password
    && inp.role in KnownRoles
  }

  /** The outcome of `store`, its guards in order. The role-assignment guard
      repeats the opening administrator check and so never fires. */
  function StoreOutcome(users: map<nat, User>, actor: User, inp: NewUserInput, isEmail: string -> bool): Outcome {
    if !HasRole(actor, ADMINISTRATOR) then Forbidden
    else if !ValidNewUser(users, inp, isEmail) then Invalid
    else if !HasRole(actor, ADMINISTRATOR) && inp.role == ADMINISTRATOR then RedirectBack
    else Ok
  }

  /** The row `store` creates, with the hashed password and the one role. */
  function Registered(id: nat, inp: NewUserInput, hash: string -> string, now: int): User {
    User(id, inp.name, inp.email, hash(inp.password), {inp.role}, now)
  }

  /** Registration succeeds exactly for an administrator sending valid data,
      so the second role guard is dead code. */
  lemma StoreOutcomes(users: map<nat, User>, actor: User, inp: NewUserInput, isEmail: string -> bool)
    ensures StoreOutcome(users, actor, inp, isEmail) != RedirectBack
    ensures StoreOutcome(users, actor, inp, isEmail) == Ok <==>
      HasRole(actor, ADMINISTRATOR) && ValidNewUser(users, inp, isEmail)
  {
  }

  /** A registration keeps addresses unique and gives the user exactly one
      of the three roles. */
  lemma {:induction false} RegisterKeepsEmailsUnique(users: map<nat, User>, id: nat, inp: NewUserInput,
                                                     isEmail: string -> bool, hash: string -> string, now: int)
    requires EmailsUnique(users) && id !in users && ValidNewUser(users, inp, isEmail)
    ensures EmailsUnique(users[id := Registered(id, inp, hash, now)])
    ensures |Registered(id, inp, hash, now).roles| == 1 && Registered(id, inp, hash, now).roles <= KnownRoles
  {
    assert forall k | k in users :: users[k].email != inp.email;
  }

  /** `store`. `hash` stands for `Hash::make`. */
  method StoreUser(db: Database, actor: User, inp: NewUserInput, isEmail: string -> bool, hash: string -> string, now: int)
    returns (outcome: Outcome, id: nat)
    requires db.Valid()
    modifies db
    ensures db.Valid()
    ensures outcome == StoreOutcome(old(db.users), actor, inp, isEmail)
    ensures outcome != Ok ==> unchanged(db)
    ensures outcome == Ok ==>
      && id == old(db.nextUserId) && id !in old(db.users)
      && db.users == old(db.users)[id := Registered(id, inp, hash, now)]
      && db.nextUserId == id + 1
      && db.articles == old(db.articles) && db.comments == old(db.comments)
      && db.nextArticleId == old(db.nextArticleId) && db.nextCommentId == old(db.nextCommentId)
  {
    id := 0;
    outcome := StoreOutcome(db.users, actor, inp, isEmail);
    if outcome != Ok {
      return;
    }
    id := db.nextUserId;
    db.users := db.users[id := Registered(id, inp, hash, now)];
    db.nextUserId := id + 1;
  }

  // ------------------------------------------------------------- edit, update

  /** `edit`: the bound user is looked up before the role check, so a missing
      id answers 404 to anyone. */
  function EditOutcome(users: map<nat, User>, actor: User, id: nat): (o: Outcome)
  {
    if id !in users then NotFound
    else if !HasRole(actor, ADMINISTRATOR) then Forbidden
    else Ok
  }

  /** The form opens exactly for an administrator on an existing user, and
      the 404 answer does not depend on who asks. */
  lemma EditGuards(users: map<nat, User>, actor: User, other: User, id: nat)
    ensures EditOutcome(users, actor, id) == Ok <==> id in users && HasRole(actor, ADMINISTRATOR)
    ensures EditOutcome(users, actor, id) == NotFound <==> EditOutcome(users, other, id) == NotFound
  {
  }

  /** The `password` field of the edit request: left out of the request,
      sent blank (which reaches the controller as null), or given. */
  datatype PasswordField = Absent | Blank | Given(value: string)

  /** The edit form's fields. */
  datatype UserUpdateInput = UserUpdateInput(name: string, email: string, password: PasswordField, role: string)

  /** The rules of `update`: the address may be the user's own. */
  predicate ValidUserUpdate(users: map<nat, User>, id: nat, inp: UserUpdateInput, isEmail: string -> bool) {
    && Filled(inp.name) && |inp.name| <= 255
    && Filled(inp.email) && isEmail(inp.email) && |inp.email| <= 255 && !EmailTaken(users, inp.email, Some(id))
    && (inp.password.Given? ==> |inp.password.value| >= MIN_PASSWORD_LENGTH)
    && inp.role in KnownRoles
  }

  /** The outcome of an action together with the users table it leaves. */
  datatype UserStep = UserStep(outcome: Outcome, users: map<nat, User>)

  /** The row after `update`: new name and address, a new hash only when a
      password was sent, and the role set replaced by the one chosen. */
  function Edited(v: User, inp: UserUpdateInput, hash: string -> string): User {
    v.(name := inp.name, email := inp.email,
       passwordHash := if inp.password.Given? then hash(inp.password.value) else v.passwordHash,
       roles := {inp.role})
  }

  /** `update`, as a step on the users table. A request without a
      `password` field passes `nullable|min:8`, but the validated data then
      has no such key, and reading it raises an error: a server error before
      anything is written. */
  function ApplyUserUpdate(users: map<nat, User>, actor: User, id: nat, inp: UserUpdateInput,
                           isEmail: string -> bool, hash: string -> string): UserStep {
    if id !in users then UserStep(NotFound, users)
    else if !HasRole(actor, ADMINISTRATOR) then UserStep(Forbidden, users)
    else if !ValidUserUpdate(users, id, inp, isEmail) then UserStep(Invalid, users)
    else if !HasRole(actor, ADMINISTRATOR) && inp.role == ADMINISTRATOR then UserStep(RedirectBack, users)
    else if inp.password.Absent? then UserStep(ServerError, users)
    else UserStep(Ok, users[id := Edited(users[id], inp, hash)])
  }

  /** An update leaves every other user alone, keeps the stored hash when the
      password is sent blank, hashes it when given, replaces (not extends) the
      roles, and keeps addresses unique; leaving the field out fails with a
      server error however valid the rest is. */
  lemma {:induction false} UserUpdateResult(users: map<nat, User>, actor: User, id: nat, inp: UserUpdateInput,
                                            isEmail: string -> bool, hash: string -> string)
    requires EmailsUnique(users)
    ensures var st := ApplyUserUpdate(users, actor, id, inp, isEmail, hash);
      && st.outcome != RedirectBack
      && (st.outcome == Ok <==> id in users && HasRole(actor, ADMINISTRATOR) && ValidUserUpdate(users, id, inp, isEmail)
                                && !inp.password.Absent?)
      && (id in users && HasRole(actor, ADMINISTRATOR) && ValidUserUpdate(users, id, inp, isEmail) && inp.password.Absent? ==>
            st.outcome == ServerError)
      && (st.outcome != Ok ==> st.users == users)
      && st.users.Keys == users.Keys
      && (forall k | k in users && k != id :: st.users[k] == users[k])
      && (st.outcome == Ok ==>
            && st.users[id].roles == {inp.role}
            && st.users[id].id == users[id].id && st.users[id].createdAt == users[id].createdAt
            && (inp.password.Blank? ==> st.users[id].passwordHash == users[id].passwordHash)
            && (inp.password.Given? ==> st.users[id].passwordHash == hash(inp.password.value)))
      && EmailsUnique(st.users)
  {
    var st := ApplyUserUpdate(users, actor, id, inp, isEmail, hash);
    if st.outcome == Ok {
      assert forall k | k in users && k != id :: users[k].email != inp.email;
    }
  }

  /** `update`. `hash` stands for `bcrypt`. */
  method UpdateUser(db: Database, actor: User, id: nat, inp: UserUpdateInput, isEmail: string -> bool, hash: string -> string)
    returns (outcome: Outcome)
    requires db.Valid()
    modifies db
    ensures db.Valid()
    ensures UserStep(outcome, db.users) == ApplyUserUpdate(old(db.users), actor, id, inp, isEmail, hash)
    ensures db.articles == old(db.articles) && db.comments == old(db.comments)
    ensures db.nextArticleId == old(db.nextArticleId) && db.nextCommentId == old(db.nextCommentId)
    ensures db.nextUserId == old(db.nextUserId)
  {
    if id !in db.users {
      return NotFound;
    }
    if !HasRole(actor, ADMINISTRATOR) {
      return Forbidden;
    }
    if !ValidUserUpdate(db.users, id, inp, isEmail) {
      return Invalid;
    }
    if inp.password.Absent? {
      return ServerError;
    }
    db.users := db.users[id := Edited(db.users[id], inp, hash)];
    outcome := Ok;
  }

  // ---------------------------------------------------------------- destroy

  /** The users and articles tables after an action. */
  datatype Tables = Tables(outcome: Outcome, users: map<nat, User>, articles: map<nat, Article>)

  /** The articles left once a user's rows cascade away. */
  function WithoutOwner(articles: map<nat, Article>, id: nat): (r: map<nat, Article>)
    ensures forall k :: k in r <==> k in articles && articles[k].userId != id
    ensures forall k | k in r :: r[k] == articles[k]
  {
    map k | k in articles && articles[k].userId != id :: articles[k]
  }

  /** The cascade removes exactly the articles whose `Article::user()` is the
      deleted user, when the stored users carry their own ids. */
  lemma {:induction false} CascadeRemovesOwned(users: map<nat, User>, articles: map<nat, Article>, id: nat)
    requires id in users
    requires forall k | k in users :: users[k].id == k
    ensures forall k | k in articles :: k !in WithoutOwner(articles, id) <==> Owner(articles[k], users) == Some(users[id])
  {
    forall k | k in articles && Owner(articles[k], users) == Some(users[id])
      ensures articles[k].userId == id
    {
      assert users[articles[k].userId] == users[id];
      assert users[articles[k].userId].id == articles[k].userId;
    }
  }

  /** `destroy`: 404 for an unknown id, a redirect back for one's own
      account, otherwise the user is deleted together with their articles.
      The controller itself does not check the actor's role. */
  function ApplyDestroy(users: map<nat, User>, articles: map<nat, Article>, actor: User, id: nat): Tables {
    if id !in users then Tables(NotFound, users, articles)
    else if id == actor.id then Tables(RedirectBack, users, articles)
    else Tables(Ok, users - {id}, WithoutOwner(articles, id))
  }

  /** Deleting removes exactly that user, takes every article they own with
      it and no other, and is refused for one's own account. */
  lemma DestroyResult(users: map<nat, User>, articles: map<nat, Article>, actor: User, id: nat)
    ensures var t := ApplyDestroy(users, articles, actor, id);
      && (t.outcome == Ok <==> id in users && id != actor.id)
      && (id == actor.id && id in users ==> t.outcome == RedirectBack)
      && (t.outcome != Ok ==> t.users == users && t.articles == articles)
      && (t.outcome == Ok ==>
            && t.users.Keys == users.Keys - {id}
            && (forall k | k in t.articles :: t.articles[k].userId != id && t.articles[k] == articles[k])
            && (forall k | k in articles && articles[k].userId != id :: k in t.articles))
  {
  }

  /** `destroy`. Comments are not cascaded: the comments table is not part of this model. */
  method Destroy(db: Database, actor: User, id: nat) returns (outcome: Outcome)
    requires db.Valid()
    modifies db
    ensures db.Valid()
    ensures Tables(outcome, db.users, db.articles) == ApplyDestroy(old(db.users), old(db.articles), actor, id)
    ensures db.comments == old(db.comments)
    ensures db.nextArticleId == old(db.nextArticleId) && db.nextCommentId == old(db.nextCommentId)
    ensures db.nextUserId == old(db.nextUserId)
  {
    if id !in db.users {
      return NotFound;
    }
    if id == actor.id {
      return RedirectBack;
    }
    db.users := db.users - {id};
    db.articles := WithoutOwner(db.articles, id);
    outcome := Ok;
  }
}
