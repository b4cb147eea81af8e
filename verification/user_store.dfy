/**
  The user store: the session token, the user's profile and permissions, and the
  actions that change them. The outcomes of the login, logout, profile and permission
  requests are inputs; `None` stands for a request that rejected.
 */
module UserStore {
  import opened Json
  import opened Shared

  /** `required.some(p => held.includes(p))` */
  function AnyHeld(held: seq<string>, required: seq<string>): (r: bool)
    ensures r <==> exists i :: 0 <= i < |required| && required[i] in held
  {
    if required == [] then false
    else if required[0] in held then true
    else
      var rest := AnyHeld(held, required[1..]);
      assert rest <==> exists i :: 1 <= i < |required| && required[i] in held by {
        if rest {
          var i :| 0 <= i < |required[1..]| && required[1..][i] in held;
          assert required[i + 1] in held;
        }
        if exists i :: 1 <= i < |required| && required[i] in held {
          var i :| 1 <= i < |required| && required[i] in held;
          assert required[1..][i - 1] in held;
        }
      }
      rest
  }

  /** hasPermissions: an absent or empty list of required permissions is always met;
      otherwise holding any one of them is enough. */
  function HasPermissions(held: seq<string>, required: Option<seq<string>>): (r: bool)
    ensures required.None? || required.value == [] ==> r
    ensures required.Some? && required.value != [] ==> (r <==> exists p :: p in required.value && p in held)
  {
    if required.None? || required.value == [] then true
    else AnyHeld(held, required.value)
  }

  /** Gaining permissions never takes access away. */
  lemma HasPermissionsMonotone(held: seq<string>, more: seq<string>, required: Option<seq<string>>)
    requires forall p :: p in held ==> p in more
    ensures HasPermissions(held, required) ==> HasPermissions(more, required)
  {
  }

  /** Any of the required permissions suffices, not all of them. */
  lemma AnyOfNotAllOf()
    ensures HasPermissions(["user:read"], Some(["user:read", "user:write"]))
    ensures !HasPermissions(["user:read"], Some(["admin"]))
  {
    assert ["user:read", "user:write"][0] == "user:read";
  }

  class User {
    const storage: LocalStorage
    /** `null` when there is no session. */
    var token: Value
    /** `null` until the profile is loaded. */
    var userInfo: Value
    var permissions: seq<string>

    /** The initial state reads the persisted token; a falsy one is `null`. */
    constructor(storage: LocalStorage)
      ensures this.storage == storage
      ensures token == (if Truthy(storage.Get(TokenKey)) then storage.Get(TokenKey) else Null)
      ensures userInfo == Null && permissions == []
      ensures !HasUserInfo()
    {
      this.storage := storage;
      var stored := storage.Get(TokenKey);
      token := if Truthy(stored) then stored else Null;
      userInfo := Null;
      permissions := [];
    }

    /** `userInfo !== null` */
    predicate HasUserInfo()
      reads this
    {
      userInfo != Null
    }

    /** hasPermissions, on the store's permissions. */
    function HasPermissionsFor(required: Option<seq<string>>): bool
      reads this
    {
      HasPermissions(permissions, required)
    }

    /** setToken: the token goes into the state and into the persisted store, where a
        missing (undefined) token is kept as the string "undefined". */
    method SetToken(t: Value)
      modifies this, storage
      ensures token == t && storage.items == old(storage.items)[TokenKey := Persisted(t)]
      ensures storage.Get(TokenKey) == Persisted(token)
      ensures Truthy(storage.Get(TokenKey)) <==> t.Undefined? || Truthy(t)
      ensures userInfo == old(userInfo) && permissions == old(permissions)
    {
      token := t;
      storage.Set(TokenKey, t);
    }

    /** resetState: no token, no profile, no permissions. */
    method ResetState()
      modifies this
      ensures token == Null && userInfo == Null && permissions == []
      ensures !HasUserInfo() && !HasPermissionsFor(Some(["any"]))
    {
      token := Null;
      userInfo := Null;
      permissions := [];
    }

    /** login, given the data the login request resolved with: its `token` is kept and
        true returned. A rejected request, or data that cannot be read (null or
        undefined), returns false and changes nothing. */
    method Login(response: Option<Value>) returns (ok: bool)
      modifies this, storage
      ensures ok <==> response.Some? && Member(response.value, "token").Some?
      ensures ok ==>
        token == Member(response.value, "token").value
        && storage.items == old(storage.items)[TokenKey := Persisted(token)]
      ensures !ok ==> token == old(token) && storage.items == old(storage.items)
      ensures userInfo == old(userInfo) && permissions == old(permissions)
    {
      if response.None? {
        return false;
      }
      var t := Member(response.value, "token");
      if t.None? {
        return false;
      }
      SetToken(t.value);
      ok := true;
    }

    /** logout: whatever the logout request does, the session is reset and the persisted
        token removed; the call rejects when the request did. */
    method Logout(requestSucceeded: bool) returns (resolved: bool)
      modifies this, storage
      ensures resolved == requestSucceeded
      ensures token == Null && userInfo == Null && permissions == []
      ensures storage.items == old(storage.items) - {TokenKey}
    {
      ResetState();
      storage.Remove(TokenKey);
      resolved := requestSucceeded;
    }

    /** getUserInfo: the profile is stored as soon as it arrives, before the permissions
        are requested; a failed permission request leaves the profile set, the
        permissions as they were, and rejects. */
    method GetUserInfo(info: Option<Value>, granted: Option<seq<string>>) returns (ok: bool)
      modifies this
      ensures ok <==> info.Some? && granted.Some?
      ensures token == old(token)
      ensures userInfo == (if info.Some? then info.value else old(userInfo))
      ensures permissions == (if ok then granted.value else old(permissions))
    {
      if info.None? {
        return false;
      }
      userInfo := info.value;
      if granted.None? {
        return false;
      }
      permissions := granted.value;
      ok := true;
    }
  }
}
