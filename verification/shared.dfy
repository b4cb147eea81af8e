/**
  State shared by the request pipeline, the user store and the navigation guard:
  the persisted key/value store (window.localStorage behind the storage wrapper)
  and the application's global loading flag.
 */
module Shared {
  import opened Json

  const TokenKey := "token"

  /** What `get(key)` returns after `set(key, v)`: `set` writes JSON.stringify(v) and
      `get` parses it back. JSON.stringify(undefined) is undefined, which `setItem`
      stores as the text "undefined"; JSON.parse rejects that text, and `get` then
      returns the raw string. */
  function Persisted(v: Value): (r: Value)
    ensures v.Undefined? ==> r == Str("undefined")
    ensures !v.Undefined? ==> Stringify(r) == Stringify(v)
    ensures Truthy(r) <==> v.Undefined? || Truthy(v)
  {
    if v.Undefined? then Str("undefined")
    else
      JsonCopyKeepsText(v);
      JsonCopy(v)
  }

  /** The persisted store, seen through its JSON wrapper: `items` holds what `get`
      returns for each key, and a missing key reads as `null`. */
  class LocalStorage {
    var items: map<string, Value>

    constructor(initial: map<string, Value>)
      ensures items == initial
    {
      items := initial;
    }

    /** `get(key)` with the default `null`. */
    function Get(key: string): (v: Value)
      reads this
      ensures key !in items ==> v == Null
      ensures key in items ==> v == items[key]
    {
      if key in items then items[key] else Null
    }

    /** `set(key, v)`: reading the key back gives the JSON copy of `v`. */
    method Set(key: string, v: Value)
      modifies this
      ensures items == old(items)[key := Persisted(v)]
      ensures Get(key) == Persisted(v)
    {
      items := items[key := Persisted(v)];
    }

    method Remove(key: string)
      modifies this
      ensures items == old(items) - {key}
      ensures Get(key) == Null
    {
      items := items - {key};
    }
  }

  /** The application store: one flag, on when the application starts. */
  class AppStore {
    var loading: bool

    constructor()
      ensures loading
    {
      loading := true;
    }

    method SetLoading(on: bool)
      modifies this
      ensures loading == on
    {
      loading := on;
    }
  }
}
