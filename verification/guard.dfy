/** The client's authentication guard and route table: on each path change the stored
    token decides `isAuthenticated` and whether to navigate away; the route table then
    chooses the page from `isAuthenticated` and the path. */
module Guard {
  import opened Wrappers
  import opened Text
  import opened Http

  const AuthPages: seq<string> := ["/login", "/register"]

  predicate IsAuthPage(path: string) {
    path in AuthPages
  }

  /** The guard's decision: the new `isAuthenticated` and the navigation it triggers, if any. */
  datatype Decision = Decision(authenticated: bool, navigateTo: Option<string>)

  /** With a (truthy) token, auth pages send to "/"; without one, every other page sends to
      "/login"; the remaining two cases stay where they are. */
  function Check(token: Option<string>, path: string): (d: Decision)
    ensures d.authenticated <==> Truthy(token)
    ensures d.navigateTo == Some("/") <==> Truthy(token) && IsAuthPage(path)
    ensures d.navigateTo == Some("/login") <==> !Truthy(token) && !IsAuthPage(path)
    ensures d.navigateTo.None? <==> (Truthy(token) <==> !IsAuthPage(path))
  {
    if Truthy(token) then
      Decision(true, if IsAuthPage(path) then Some("/") else None)
    else
      Decision(false, if !IsAuthPage(path) then Some("/login") else None)
  }

  /** One redirect always lands on a page where the guard stays put. */
  lemma RedirectSettles(token: Option<string>, path: string)
    requires Check(token, path).navigateTo.Some?
    ensures Check(token, Check(token, path).navigateTo.value).navigateTo == None
  {
    assert !IsAuthPage("/");
  }

  datatype Page = Dashboard | NoteEditor | LoginForm | RegisterForm | NoMatch

  const EditPrefix := "/edit-note/"

  /** "/edit-note/:id": the prefix followed by one non-empty segment. */
  predicate IsEditPath(path: string) {
    StartsWith(path, EditPrefix) && |path| > |EditPrefix| && '/' !in path[|EditPrefix|..]
  }

  /** The route table: "/", "/create" and "/edit-note/:id" need authentication and show
      the login form otherwise; "/login" and "/register" are always reachable. */
  function Route(authenticated: bool, path: string): (p: Page)
    ensures p in {Dashboard, NoteEditor} ==> authenticated
    ensures !authenticated && (path == "/" || path == "/create" || IsEditPath(path)) ==> p == LoginForm
    ensures authenticated && (path == "/create" || IsEditPath(path)) ==> p == NoteEditor
    ensures authenticated && path == "/" ==> p == Dashboard
    ensures path == "/login" ==> p == LoginForm
    ensures path == "/register" ==> p == RegisterForm
    ensures p == NoMatch <==>
              !(path == "/" || path == "/create" || IsEditPath(path) || IsAuthPage(path))
  {
    if path == "/" then (if authenticated then Dashboard else LoginForm)
    else if path == "/create" || IsEditPath(path) then (if authenticated then NoteEditor else LoginForm)
    else if path == "/login" then LoginForm
    else if path == "/register" then RegisterForm
    else NoMatch
  }

  /** After the guard has run, a protected page is shown only when a token is stored. */
  lemma ProtectedPagesNeedToken(token: Option<string>, path: string)
    ensures Route(Check(token, path).authenticated, path) in {Dashboard, NoteEditor} ==> Truthy(token)
  {
  }

  /** Concrete instances of the four guard cases. */
  lemma GuardExamples()
    ensures Check(Some("t"), "/login") == Decision(true, Some("/"))
    ensures Check(None, "/create") == Decision(false, Some("/login"))
    ensures Check(Some(""), "/") == Decision(false, Some("/login"))
    ensures Check(Some("t"), "/create") == Decision(true, None)
    ensures Check(None, "/register") == Decision(false, None)
  {
    assert !IsAuthPage("/create");
    assert !IsAuthPage("/");
  }
}
