/** The route table: for each endpoint, the role middleware it sits behind,
    the permission (`can:`) it needs, whether the executive restriction runs,
    and whether its `{status}` segment is constrained to the five names. */
module Routes {
  import opened Common
  import opened ArticleModel
  import opened Roles
  import RestrictExecutives
  import RolesAndPermissionsSeeder

  datatype Route =
    | StatusIndex | StatusView | CommentIndex | Reports | LineData | Stats | ExportArticles
    | Approve | CommentStore
    | CreateForm | CreateReport | UpdateArticle | EditArticle
    | UsersIndex | UsersCreate | UsersStore | UsersEdit | UsersUpdate | UsersDestroy
    | UploadImages | ImageShow
    | Dashboard | News

  /** The `role:` middleware of the route's group; None when the group has none. */
  function RoleGate(r: Route): Option<set<string>> {
    match r
    case StatusIndex | StatusView | CommentIndex | Reports | LineData | Stats | ExportArticles => Some(KnownRoles)
    case Approve | CommentStore => Some(Deciders)
    case CreateForm | CreateReport | UpdateArticle | EditArticle => Some({EDITOR})
    case UsersIndex | UsersCreate | UsersStore | UsersEdit | UsersUpdate | UsersDestroy => Some({ADMINISTRATOR})
    case UploadImages => Some({EDITOR})
    case ImageShow => Some(KnownRoles)
    case Dashboard | News => None
  }

  /** The route's `can:` middleware. */
  function PermissionGate(r: Route): Option<string> {
    match r
    case StatusIndex | StatusView => Some(VIEW_REPORT)
    case CreateForm | CreateReport => Some(CREATE_REPORT)
    case _ => None
  }

  /** Whether the route carries the executive-restriction middleware. */
  predicate RestrictsExecutives(r: Route) {
    r == StatusIndex || r == StatusView
  }

  /** Whether the route's `{status}` segment has the `where` constraint. */
  predicate ConstrainsStatus(r: Route) {
    r == StatusIndex || r == StatusView
  }

  /** Whether the route's `{user}` segment is bound to a `User` model (the
      controller type-hints it), so a missing id answers 404 during binding. */
  predicate BindsUser(r: Route) {
    r == UsersEdit || r == UsersUpdate
  }

  /** What the routing layer does with an authenticated request before the
      controller runs: Ok means the controller is reached. `userFound` says
      whether the `{user}` segment names a stored user; it matters only on
      routes that bind one. The status constraint is checked when the route
      is matched; route-model binding (the `web` group's binding middleware,
      which Laravel's middleware priority puts ahead of the role check) comes
      next; then the group role check, then the route middleware (executive
      restriction before the permission check). */
  function Admit(u: User, reg: Registry, r: Route, status: string, userFound: bool): Outcome {
    if ConstrainsStatus(r) && !IsStatus(status) then NotFound
    else if BindsUser(r) && !userFound then NotFound
    else if RoleGate(r).Some? && !HasAnyRole(u, RoleGate(r).value) then Forbidden
    else if RestrictsExecutives(r) && RestrictExecutives.Handle(u, status).Abort? then Forbidden
    else if PermissionGate(r).Some? && !Can(u, reg, PermissionGate(r).value) then Forbidden
    else Ok
  }

  /** What a registration on `/api/upload-images` dispatches to. */
  datatype Handler = UploadImagesAction | MethodNotAllowedClosure

  /** One `Route::<verb>` call: the methods it answers and its handler. */
  datatype Registration = Registration(methods: set<string>, handler: Handler)

  /** The methods `Route::any` registers. */
  const AnyVerbs: set<string> := {"GET", "HEAD", "POST", "PUT", "PATCH", "DELETE", "OPTIONS"}

  /** The two registrations on the upload URI, in the order the route file makes them. */
  const UploadRegistrations: seq<Registration> := [
    Registration({"POST"}, UploadImagesAction),
    Registration(AnyVerbs, MethodNotAllowedClosure)
  ]

  /** The route collection keeps one route per method and URI, and a later
      registration replaces an earlier one: the last registration answering
      the method wins. */
  function LastMatch(regs: seq<Registration>, httpMethod: string): (h: Option<Handler>)
    ensures h.None? <==> forall i | 0 <= i < |regs| :: httpMethod !in regs[i].methods
    ensures h.Some? ==> exists i | 0 <= i < |regs| ::
      && httpMethod in regs[i].methods && regs[i].handler == h.value
      && (forall j | i < j < |regs| :: httpMethod !in regs[j].methods)
  {
    if regs == [] then None
    else if httpMethod in regs[|regs| - 1].methods then Some(regs[|regs| - 1].handler)
    else LastMatch(regs[..|regs| - 1], httpMethod)
  }

  /** The first registration answering the method. */
  function FirstMatch(regs: seq<Registration>, httpMethod: string): (h: Option<Handler>)
    ensures h.None? <==> forall i | 0 <= i < |regs| :: httpMethod !in regs[i].methods
    ensures h.Some? ==> exists i | 0 <= i < |regs| ::
      && httpMethod in regs[i].methods && regs[i].handler == h.value
      && (forall j | 0 <= j < i :: httpMethod !in regs[j].methods)
  {
    if regs == [] then None
    else if httpMethod in regs[0].methods then Some(regs[0].handler)
    else FirstMatch(regs[1..], httpMethod)
  }

  /** A request to the upload URI once a handler was chosen: a method nobody
      registered is refused before any middleware runs; otherwise the editor
      group's role check, then the handler. */
  function Dispatch(u: User, h: Option<Handler>): (o: Outcome)
    ensures o == Ok <==> h == Some(UploadImagesAction) && HasRole(u, EDITOR)
  {
    if h.None? then MethodNotAllowed
    else if !HasRole(u, EDITOR) then Forbidden
    else if h.value == UploadImagesAction then Ok
    else MethodNotAllowed
  }

  /** The upload endpoint as the route file registers it: the catch-all
      `Route::any` comes second and takes the POST slot too. */
  function UploadEndpoint(u: User, httpMethod: string): (o: Outcome)
    ensures o != Ok
  {
    Dispatch(u, LastMatch(UploadRegistrations, httpMethod))
  }

  /** The upload endpoint as meant: POST goes to `uploadImages`, every other
      method to the 405 closure. */
  function UploadEndpointFirstMatch(u: User, httpMethod: string): (o: Outcome)
  {
    Dispatch(u, FirstMatch(UploadRegistrations, httpMethod))
  }

  /** As registered, the controller is never reached: an editor's POST is
      answered 405 by the catch-all, like every other method. */
  lemma {:induction false} UploadPostShadowed(u: User, httpMethod: string)
    ensures UploadEndpoint(u, httpMethod) != Ok
    ensures HasRole(u, EDITOR) ==> UploadEndpoint(u, httpMethod) == MethodNotAllowed
    ensures HasRole(u, EDITOR) ==> UploadEndpointFirstMatch(u, "POST") == Ok && UploadEndpoint(u, "POST") == MethodNotAllowed
  {
    var h := LastMatch(UploadRegistrations, httpMethod);
    if httpMethod in AnyVerbs {
      assert h == Some(MethodNotAllowedClosure);
    } else {
      assert httpMethod !in UploadRegistrations[0].methods;
      assert h == None;
    }
    assert "POST" in AnyVerbs;
    assert FirstMatch(UploadRegistrations, "POST") == Some(UploadImagesAction);
  }

  /** The status list and view pages exist for the five exact names only, and
      admit exactly staff who pass the executive restriction and hold the view permission. */
  lemma StatusPagesGate(u: User, reg: Registry, r: Route, status: string, userFound: bool)
    requires r == StatusIndex || r == StatusView
    ensures Admit(u, reg, r, status, userFound) == NotFound <==> !IsStatus(status)
    ensures Admit(u, reg, r, status, userFound) == Ok <==>
      && IsStatus(status)
      && HasAnyRole(u, KnownRoles)
      && !(HasRole(u, EXECUTIVE) && status in RestrictExecutives.RestrictedStatuses)
      && Can(u, reg, VIEW_REPORT)
  {
    RestrictExecutives.HandleBlocksExactly(u, status);
  }

  /** Approving and commenting are open to administrators and executives, with no permission check. */
  lemma DecisionRoutesGate(u: User, reg: Registry, r: Route, status: string, userFound: bool)
    requires r == Approve || r == CommentStore
    ensures Admit(u, reg, r, status, userFound) == Ok <==> HasAnyRole(u, Deciders)
    ensures Admit(u, reg, r, status, userFound) != Ok ==> Admit(u, reg, r, status, userFound) == Forbidden
  {
  }

  /** Creating a report needs the editor role and the create permission;
      updating and the edit form need only the editor role. */
  lemma EditorRoutesGate(u: User, reg: Registry, status: string, userFound: bool)
    ensures Admit(u, reg, CreateReport, status, userFound) == Ok <==> HasRole(u, EDITOR) && Can(u, reg, CREATE_REPORT)
    ensures Admit(u, reg, UpdateArticle, status, userFound) == Ok <==> HasRole(u, EDITOR)
    ensures Admit(u, reg, EditArticle, status, userFound) == Ok <==> HasRole(u, EDITOR)
  {
    assert HasAnyRole(u, {EDITOR}) <==> HasRole(u, EDITOR);
  }

  /** The export route has no status constraint and no executive restriction:
      any staff member reaches the controller, whatever status is asked for. */
  lemma ExportGate(u: User, reg: Registry, status: string, userFound: bool)
    ensures Admit(u, reg, ExportArticles, status, userFound) == Ok <==> HasAnyRole(u, KnownRoles)
  {
  }

  /** Every user-management route, deletion included, needs the administrator
      role. On the edit form and the update, whose `{user}` is bound, a
      missing user answers 404 to anyone before the role is checked. */
  lemma UserRoutesGate(u: User, reg: Registry, r: Route, status: string, userFound: bool)
    requires r in {UsersIndex, UsersCreate, UsersStore, UsersEdit, UsersUpdate, UsersDestroy}
    ensures Admit(u, reg, r, status, userFound) == Ok <==> HasRole(u, ADMINISTRATOR) && (BindsUser(r) ==> userFound)
    ensures BindsUser(r) && !userFound ==> Admit(u, reg, r, status, userFound) == NotFound
    ensures !(BindsUser(r) && !userFound) && !HasRole(u, ADMINISTRATOR) ==> Admit(u, reg, r, status, userFound) == Forbidden
  {
    assert HasAnyRole(u, {ADMINISTRATOR}) <==> HasRole(u, ADMINISTRATOR);
  }

  /** With first-match resolution, only POST is accepted on the upload
      endpoint, and only from editors; editors using any other registered
      method get 405, and an unregistered method is refused whoever asks. */
  lemma {:induction false} UploadGate(u: User, httpMethod: string)
    ensures UploadEndpointFirstMatch(u, httpMethod) == Ok <==> HasRole(u, EDITOR) && httpMethod == "POST"
    ensures HasRole(u, EDITOR) && httpMethod != "POST" ==> UploadEndpointFirstMatch(u, httpMethod) == MethodNotAllowed
    ensures httpMethod !in AnyVerbs ==> UploadEndpointFirstMatch(u, httpMethod) == MethodNotAllowed
  {
    var regs := UploadRegistrations;
    if httpMethod == "POST" {
      assert FirstMatch(regs, httpMethod) == Some(UploadImagesAction);
    } else if httpMethod in AnyVerbs {
      assert FirstMatch(regs, httpMethod) == FirstMatch(regs[1..], httpMethod);
      assert FirstMatch(regs, httpMethod) == Some(MethodNotAllowedClosure);
    } else {
      assert httpMethod !in regs[0].methods && httpMethod !in regs[1].methods;
      assert FirstMatch(regs, httpMethod) == None;
    }
  }

  /** With the seeded permission tables and users holding only the
      application's roles: executives reach the evaluated and approved pages
      but never the three earlier ones, may export any status, and can never
      submit a report; editors reach every status page. */
  lemma {:induction false} SeededAccess(st: Registry, u: User, status: string, userFound: bool)
    requires u.roles <= KnownRoles
    ensures var reg := RolesAndPermissionsSeeder.Seeded(st);
      && (HasRole(u, EXECUTIVE) && status in {STATUS_EVALUATED, STATUS_APPROVED} ==> Admit(u, reg, StatusIndex, status, userFound) == Ok)
      && (HasRole(u, EXECUTIVE) && status in RestrictExecutives.RestrictedStatuses ==> Admit(u, reg, StatusIndex, status, userFound) == Forbidden)
      && (HasRole(u, EXECUTIVE) ==> Admit(u, reg, ExportArticles, status, userFound) == Ok)
      && (u.roles == {EXECUTIVE} ==> Admit(u, reg, CreateReport, status, userFound) == Forbidden)
      && (HasRole(u, EDITOR) && IsStatus(status) && !HasRole(u, EXECUTIVE) ==> Admit(u, reg, StatusIndex, status, userFound) == Ok)
      && (HasRole(u, EDITOR) ==> Admit(u, reg, CreateReport, status, userFound) == Ok)
  {
    var reg := RolesAndPermissionsSeeder.Seeded(st);
    RolesAndPermissionsSeeder.SeededCan(st, u);
    StatusPagesGate(u, reg, StatusIndex, status, userFound);
    if HasRole(u, EXECUTIVE) {
      assert HasAnyRole(u, KnownRoles);
      assert u.roles != {};
    }
    if HasRole(u, EDITOR) {
      assert HasAnyRole(u, KnownRoles);
      assert HasAnyRole(u, {ADMINISTRATOR, EDITOR});
      assert HasAnyRole(u, {EDITOR});
    }
    if u.roles == {EXECUTIVE} {
      assert !HasAnyRole(u, {EDITOR});
    }
  }
}
