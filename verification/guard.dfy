/**
  The navigation guard: before each navigation it decides, from the persisted token,
  the user store and the target route, the one argument it passes to `next`; after a
  navigation, or when one fails, it switches the loading flag off.
 */
module Guard {
  import opened Json
  import opened Shared
  import opened UserStore
  import Route

  /** The pages a visitor without a session may open. The home page '/' is not one. */
  const WhiteList: seq<string> :=
    [Route.Login, Route.Register, Route.ForgetPassword, Route.NotFound, Route.Forbidden, Route.ServerError]

  const MessageVerifyFailed := "验证失败，请重新登录"
  const DefaultAppTitle := "应用"

  /** The target route: its path and the meta fields the guard reads (an absent title is
      the empty string). */
  datatype Target = Target(path: string, requiredPermissions: Option<seq<string>>, title: string, scrollToTop: Option<bool>)

  /** The argument passed to `next`: nothing, a path string, a location `{path}`, or the
      target itself with `replace: true`. */
  datatype Next = Proceed | GoPath(path: string) | GoLocation(path: string) | Replace(to: Target)

  /** The outcomes of the profile and permission requests made when the profile is not
      loaded yet; None is a rejected request. */
  datatype Fetch = Fetch(info: Option<Value>, permissions: Option<seq<string>>)

  /** checkPermission: a route without required permissions is open to every user. */
  function CheckPermission(to: Target, held: seq<string>): (r: bool)
    ensures to.requiredPermissions.None? ==> r
    ensures to.requiredPermissions.Some? ==> r == HasPermissions(held, to.requiredPermissions)
  {
    to.requiredPermissions.None? || HasPermissions(held, to.requiredPermissions)
  }

  /** handleRouteNavigation's choice, from the token it was given, whether the profile is
      loaded, the permissions held and the outcome of the profile requests. */
  function Decide(token: Value, to: Target, hasInfo: bool, held: seq<string>, fetch: Fetch): (r: Next)
    // a navigation is let through (as itself or as a replacement) only to a whitelisted
    // page, or with a session and the permissions the page requires, from the loaded
    // profile or from the one just fetched
    ensures r.Proceed? || r.Replace? ==>
      (!Truthy(token) && to.path in WhiteList)
      || (Truthy(token) && hasInfo && CheckPermission(to, held))
      || (Truthy(token) && !hasInfo && fetch.permissions.Some? && CheckPermission(to, fetch.permissions.value))
    ensures r.Replace? ==> r.to == to && Truthy(token) && !hasInfo
    // every redirect to the login page carries the page as its redirect target
    ensures r.GoPath? ==> r.path == Route.GetLoginPath(Some(to.path))
    // a session never lands on the login page: it goes home from there, or to '/403'
    ensures r.GoLocation? ==> Truthy(token) && (r.path == Route.Home || r.path == Route.Forbidden)
    ensures Truthy(token) && to.path == Route.Login ==> r == GoLocation(Route.Home)
  {
    if Truthy(token) then
      if to.path == Route.Login then GoLocation(Route.Home)
      else if hasInfo then
        if CheckPermission(to, held) then Proceed else GoLocation(Route.Forbidden)
      else if fetch.info.Some? && fetch.permissions.Some? then
        if CheckPermission(to, fetch.permissions.value) then Replace(to) else GoLocation(Route.Forbidden)
      else GoPath(Route.GetLoginPath(Some(to.path)))
    else if to.path in WhiteList then Proceed
    else GoPath(Route.GetLoginPath(Some(to.path)))
  }

  /** Without a session only the whitelisted pages open; every other page, the home page
      included, sends the visitor to the login page with the page as redirect target. */
  lemma VisitorAccess(token: Value, to: Target, hasInfo: bool, held: seq<string>, fetch: Fetch)
    requires !Truthy(token)
    ensures Decide(token, to, hasInfo, held, fetch) == Proceed <==> to.path in WhiteList
    ensures to.path !in WhiteList ==> Decide(token, to, hasInfo, held, fetch) == GoPath(Route.GetLoginPath(Some(to.path)))
    ensures Route.Home !in WhiteList
  {
  }

  /** With a session, away from the login page: a loaded profile lets the navigation
      through exactly when its permissions suffice, and sends it to '/403' otherwise;
      without a profile, a successful fetch lets it through as a replacement exactly
      when the fetched permissions suffice ('/403' otherwise), and a failed fetch sends
      it to the login page with the page as redirect target. */
  lemma SessionAccess(token: Value, to: Target, hasInfo: bool, held: seq<string>, fetch: Fetch)
    requires Truthy(token) && to.path != Route.Login
    ensures hasInfo ==>
      (Decide(token, to, hasInfo, held, fetch) == Proceed <==> CheckPermission(to, held))
    ensures hasInfo && !CheckPermission(to, held) ==>
      Decide(token, to, hasInfo, held, fetch) == GoLocation(Route.Forbidden)
    ensures !hasInfo && fetch.info.Some? && fetch.permissions.Some? ==>
      Decide(token, to, hasInfo, held, fetch) ==
        (if CheckPermission(to, fetch.permissions.value) then Replace(to) else GoLocation(Route.Forbidden))
    ensures !hasInfo && !(fetch.info.Some? && fetch.permissions.Some?) ==>
      Decide(token, to, hasInfo, held, fetch) == GoPath(Route.GetLoginPath(Some(to.path)))
  {
  }

  /** A login answer without a token leaves the string "undefined" in the store, which
      the guard takes for a session: the login page sends the user to the home page. */
  lemma StoredUndefinedTokenIsSession(to: Target, hasInfo: bool, held: seq<string>, fetch: Fetch)
    requires to.path == Route.Login
    ensures Decide(Persisted(Undefined), to, hasInfo, held, fetch) == GoLocation(Route.Home)
  {
  }

  /** The login page the guard sends a visitor to brings them back: decoding the
      redirect parameter as a form value and then as a URI component gives the path. */
  lemma LoginRedirectReturns(token: Value, to: Target, hasInfo: bool, held: seq<string>, fetch: Fetch)
    requires to.path != "" && Route.IsAscii(to.path)
    requires Decide(token, to, hasInfo, held, fetch).GoPath?
    ensures
      var href := Decide(token, to, hasInfo, held, fetch).path;
      var v := href[|"/login?redirect="|..];
      var once := Route.PercentDecode(v, true);
      |href| >= |"/login?redirect="| && once.Some? && Route.PercentDecode(once.value, false) == Some(to.path)
  {
    Route.RedirectRoundTrip(to.path);
    Route.LoginPathWithRedirect(to.path);
  }

  /** `document.title` for a route with a title. */
  function DocumentTitle(title: string, appTitle: string): (r: string)
    requires title != ""
    ensures |r| > |title| && r[..|title|] == title
  {
    title + " - " + (if appTitle != "" then appTitle else DefaultAppTitle)
  }

  class RouterGuard {
    const user: User
    const storage: LocalStorage
    const app: AppStore
    var messages: seq<string>
    var documentTitle: string

    constructor(user: User, storage: LocalStorage, app: AppStore)
      requires user.storage == storage
      ensures this.user == user && this.storage == storage && this.app == app
      ensures messages == [] && documentTitle == ""
    {
      this.user := user;
      this.storage := storage;
      this.app := app;
      messages := [];
      documentTitle := "";
    }

    /** beforeEach with handleRouteNavigation: sets the title and the loading flag, reads
        the persisted token and passes exactly one argument to `next`. A failed profile
        request ends the session. */
    method BeforeEach(to: Target, fetch: Fetch, appTitle: string) returns (next: Next)
      requires user.storage == storage
      modifies this, user, storage, app
      ensures app.loading
      ensures documentTitle == if to.title != "" then DocumentTitle(to.title, appTitle) else old(documentTitle)
      ensures next == Decide(old(storage.Get(TokenKey)), to, old(user.HasUserInfo()), old(user.permissions), fetch)
      ensures
        var fetched := Truthy(old(storage.Get(TokenKey))) && to.path != Route.Login && !old(user.HasUserInfo());
        && (!fetched ==>
              && user.token == old(user.token) && user.userInfo == old(user.userInfo)
              && user.permissions == old(user.permissions)
              && storage.items == old(storage.items) && messages == old(messages))
        && (fetched && fetch.info.Some? && fetch.permissions.Some? ==>
              && user.token == old(user.token) && user.userInfo == fetch.info.value
              && user.permissions == fetch.permissions.value
              && storage.items == old(storage.items) && messages == old(messages))
        && (fetched && !(fetch.info.Some? && fetch.permissions.Some?) ==>
              && user.token == Null && user.userInfo == Null && user.permissions == []
              && storage.items == old(storage.items) - {TokenKey}
              && messages == old(messages) + [MessageVerifyFailed])
    {
      if to.title != "" {
        documentTitle := DocumentTitle(to.title, appTitle);
      }
      app.SetLoading(true);
      var token := storage.Get(TokenKey);
      if Truthy(token) {
        if to.path == Route.Login {
          next := GoLocation(Route.Home);
        } else if user.HasUserInfo() {
          next := if CheckPermission(to, user.permissions) then Proceed else GoLocation(Route.Forbidden);
        } else {
          var ok := user.GetUserInfo(fetch.info, fetch.permissions);
          if ok {
            next := if CheckPermission(to, user.permissions) then Replace(to) else GoLocation(Route.Forbidden);
          } else {
            user.ResetState();
            storage.Remove(TokenKey);
            messages := messages + [MessageVerifyFailed];
            next := GoPath(Route.GetLoginPath(Some(to.path)));
          }
        }
      } else if to.path in WhiteList {
        next := Proceed;
      } else {
        next := GoPath(Route.GetLoginPath(Some(to.path)));
      }
    }

    /** afterEach: the loading flag goes off; the page scrolls to the top unless the
        route says `scrollToTop: false`. */
    method AfterEach(to: Target) returns (scrollToTop: bool)
      modifies app
      ensures !app.loading
      ensures scrollToTop <==> to.scrollToTop != Some(false)
    {
      app.SetLoading(false);
      scrollToTop := to.scrollToTop != Some(false);
    }

    /** onError: the loading flag goes off. */
    method OnError()
      modifies app
      ensures !app.loading
    {
      app.SetLoading(false);
    }
  }
}
