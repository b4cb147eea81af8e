/**
  The request pipeline: the state the interceptors keep between requests (the pending
  requests by identity, the response cache, the reference-counted loading overlay) and
  the steps the request and response interceptors take on it.

  Time, the browser location, the user agent and the transport's outcome are inputs.
  Messages and the delayed navigation of an expired session are recorded as effects.
 */
module Request {
  import opened Json
  import opened RequestUtils
  import opened Shared
  import Route

  const CodeSuccess := 200
  const CodeUnauthorized := 401
  const CodeForbidden := 403
  const CodeServerError := 500
  const CodeBadRequest := 400
  const CodeNotFound := 404

  const DefaultRetryCount := 3
  const DefaultRetryDelay := 1000
  const DefaultCacheTime := 5 * 60 * 1000
  const AuthRedirectDelay := 1500

  const MessageUnauthorized := "登录已过期，请重新登录"
  const MessageForbidden := "您没有权限执行此操作"
  const MessageServerError := "服务器错误，请稍后再试"
  const MessageBadRequest := "请求参数错误"
  const MessageNotFound := "请求的资源不存在"
  const MessageRequestFailed := "请求失败"
  const MessageNetwork := "网络连接异常，请检查网络设置"
  const ReasonDuplicate := "重复请求被取消"
  const ReasonCancelAll := "操作已取消"

  /** The codes with a handler of their own. */
  const HandledCodes: set<int> := {CodeUnauthorized, CodeForbidden, CodeServerError, CodeBadRequest, CodeNotFound}

  // ---------------------------------------------------------------------------
  // handleApiError

  datatype ErrorAction = SessionExpired | Notify(text: string)

  /** Which handler a code selects: 401 ends the session; every other code shows a
      message, the server's own only for 400 and for codes without a handler. */
  function ApiErrorAction(code: int, message: string): (a: ErrorAction)
    ensures a.SessionExpired? <==> code == CodeUnauthorized
    ensures a.Notify? ==> a.text != ""
    ensures a.Notify? && message != "" && (code == CodeBadRequest || code !in HandledCodes) ==> a.text == message
    ensures code == CodeForbidden ==> a == Notify(MessageForbidden)
    ensures code == CodeServerError ==> a == Notify(MessageServerError)
    ensures code == CodeNotFound ==> a == Notify(MessageNotFound)
    ensures code == CodeBadRequest && message == "" ==> a == Notify(MessageBadRequest)
    ensures code !in HandledCodes ==> a == Notify(if message != "" then message else MessageRequestFailed)
  {
    if code == CodeUnauthorized then SessionExpired
    else if code == CodeForbidden then Notify(MessageForbidden)
    else if code == CodeServerError then Notify(MessageServerError)
    else if code == CodeBadRequest then Notify(if message != "" then message else MessageBadRequest)
    else if code == CodeNotFound then Notify(MessageNotFound)
    else Notify(if message != "" then message else MessageRequestFailed)
  }

  /** 401, 403, 404 and 500 show their own fixed text whatever the server said. */
  lemma FixedTexts(code: int, message: string)
    requires code in HandledCodes - {CodeBadRequest}
    ensures ApiErrorAction(code, message) == ApiErrorAction(code, "")
  {
  }

  /** What the user sees: an error message, and a navigation scheduled after a delay. */
  datatype Effect = ErrorMessage(text: string) | Navigate(href: string, delayMs: int)

  /** The effects of handleApiError; an expired session also goes back to the login page
      with the current location (path and query) as its redirect target. */
  function ApiErrorEffects(code: int, message: string, location: string): (es: seq<Effect>)
    ensures |es| >= 1 && es[0].ErrorMessage? && es[0].text != ""
    ensures code == CodeUnauthorized <==> |es| == 2
    ensures code != CodeUnauthorized ==> es == [ErrorMessage(ApiErrorAction(code, message).text)]
    ensures code == CodeUnauthorized ==>
      es == [ErrorMessage(MessageUnauthorized), Navigate(Route.GetLoginPath(Some(location)), AuthRedirectDelay)]
  {
    match ApiErrorAction(code, message)
    case SessionExpired =>
      [ErrorMessage(MessageUnauthorized), Navigate(Route.GetLoginPath(Some(location)), AuthRedirectDelay)]
    case Notify(text) => [ErrorMessage(text)]
  }

  /** The persisted entries after handleApiError: an expired session removes the token. */
  function StorageAfterApiError(code: int, items: map<string, Value>): (r: map<string, Value>)
    ensures TokenKey !in r <==> code == CodeUnauthorized || TokenKey !in items
    ensures forall k :: k != TokenKey ==> (k in r <==> k in items)
    ensures forall k :: k in r ==> r[k] == items[k]
  {
    if code == CodeUnauthorized then items - {TokenKey} else items
  }

  // ---------------------------------------------------------------------------
  // The loading overlay

  /** `loadingCount` and the open overlay, with the options it was opened with. */
  datatype Overlay = Overlay(count: int, instance: Option<Value>)

  predicate Consistent(o: Overlay) {
    o.count >= 0 && (o.instance.Some? <==> o.count > 0)
  }

  /** showLoading: counts the request and opens the overlay if none is open. */
  function Show(o: Overlay, c: Config): (r: Overlay)
    ensures Consistent(o) ==> Consistent(r)
    ensures c.showLoading ==> r.count == o.count + 1 && r.instance.Some?
    ensures !c.showLoading ==> r == o
    ensures o.instance.Some? ==> r.instance == o.instance
  {
    if !c.showLoading then o
    else
      var instance := if o.instance.None? then Some(GetLoadingOptions(c.loadingOptions)) else o.instance;
      Overlay(o.count + 1, instance)
  }

  /** hideLoading: uncounts the request; the last one closes the overlay, and the count
      never goes below zero. */
  function Hide(o: Overlay, c: Config): (r: Overlay)
    ensures Consistent(o) ==> Consistent(r)
    ensures !c.showLoading || o.instance.None? ==> r == o
    ensures c.showLoading && o.instance.Some? && o.count > 1 ==> r == Overlay(o.count - 1, o.instance)
    ensures c.showLoading && o.instance.Some? && o.count <= 1 ==> r == Overlay(0, None)
  {
    if c.showLoading && o.instance.Some? then
      if o.count - 1 <= 0 then Overlay(0, None) else Overlay(o.count - 1, o.instance)
    else o
  }

  /** A request's hide undoes its show. */
  lemma HideUndoesShow(o: Overlay, c: Config)
    requires Consistent(o)
    ensures Hide(Show(o, c), c) == o
  {
  }

  /** The overlay closes exactly when every shown request has been hidden. */
  lemma {:induction false} BalancedRequestsCloseOverlay(o: Overlay, cs: seq<Config>)
    requires Consistent(o)
    ensures Consistent(ShowAll(o, cs))
    ensures HideAll(ShowAll(o, cs), cs) == o
    decreases |cs|
  {
    if cs != [] {
      var last := cs[|cs| - 1];
      var init := cs[..|cs| - 1];
      BalancedRequestsCloseOverlay(o, init);
      var shown := ShowAll(o, init);
      assert ShowAll(o, cs) == Show(shown, last);
      HideUndoesShow(shown, last);
      assert HideAll(Show(shown, last), cs) == HideAll(Hide(Show(shown, last), last), init);
    }
  }

  /** The requests in `cs` shown in order ... */
  function ShowAll(o: Overlay, cs: seq<Config>): Overlay
    decreases |cs|
  {
    if cs == [] then o else Show(ShowAll(o, cs[..|cs| - 1]), cs[|cs| - 1])
  }

  /** ... and hidden in the opposite order. */
  function HideAll(o: Overlay, cs: seq<Config>): Overlay
    decreases |cs|
  {
    if cs == [] then o else HideAll(Hide(o, cs[|cs| - 1]), cs[..|cs| - 1])
  }

  /** The overlay the module holds. */
  class LoadingIndicator {
    var count: int
    var instance: Option<Value>

    function Current(): Overlay
      reads this
    {
      Overlay(count, instance)
    }

    ghost predicate Valid()
      reads this
    {
      Consistent(Current())
    }

    constructor()
      ensures Current() == Overlay(0, None) && Valid()
    {
      count := 0;
      instance := None;
    }

    method ShowLoading(c: Config)
      requires Valid()
      modifies this
      ensures Valid()
      ensures Current() == Show(old(Current()), c)
    {
      if c.showLoading {
        count := count + 1;
        if instance.None? {
          instance := Some(GetLoadingOptions(c.loadingOptions));
        }
      }
    }

    method HideLoading(c: Config)
      requires Valid()
      modifies this
      ensures Valid()
      ensures Current() == Hide(old(Current()), c)
    {
      if c.showLoading && instance.Some? {
        count := count - 1;
        if count <= 0 {
          instance := None;
          count := 0;
        }
      }
    }
  }

  // ---------------------------------------------------------------------------
  // Cache

  datatype CacheEntry = CacheEntry(data: Value, timestamp: int)

  /** `config.cacheTime || 5 minutes`: an absent or zero lifetime is the default. */
  function CacheLifetime(cacheTime: Option<int>): int {
    if cacheTime.Some? && cacheTime.value != 0 then cacheTime.value else DefaultCacheTime
  }

  /** The cached response the request interceptor answers with, if any. */
  function CachedData(cache: map<string, CacheEntry>, key: string, c: Config, now: int): (r: Option<Value>)
    ensures r.Some? ==> key in cache && r.value == cache[key].data
  {
    if c.enableCache && key in cache && now - cache[key].timestamp < CacheLifetime(c.cacheTime)
    then Some(cache[key].data) else None
  }

  /** A response cached at `t` is served, to a request that enables the cache, until its
      lifetime has passed; a lifetime of 0 is the default of five minutes. */
  lemma CacheWindow(cache: map<string, CacheEntry>, key: string, data: Value, t: int, c: Config, now: int)
    ensures CachedData(cache[key := CacheEntry(data, t)], key, c, now) ==
      if c.enableCache && now - t < CacheLifetime(c.cacheTime) then Some(data) else None
    ensures CachedData(cache, key, c.(cacheTime := Some(0)), now) == CachedData(cache, key, c.(cacheTime := None), now)
    ensures !c.enableCache ==> CachedData(cache, key, c, now).None?
    ensures CacheLifetime(None) == 300000
  {
  }

  // ---------------------------------------------------------------------------
  // Retry

  datatype RetryPlan = RetryPlan(config: Config, delayMs: int)

  /** A retry is allowed when the count is truthy and the requests made so far are fewer. */
  predicate RetryAllowed(c: Config) {
    c.retryCount.Some? && c.retryCount.value != 0
    && !(c.currentRetryCount.Some? && c.currentRetryCount.value >= c.retryCount.value)
  }

  /** _retryRequest: refuses without a configuration, with a falsy `retryCount` or once
      `currentRetryCount` has reached it; otherwise counts one more retry and waits
      `retryDelay || 1000` ms. */
  function RetryRequest(config: Option<Config>): (r: Option<RetryPlan>)
    ensures r.Some? <==> config.Some? && RetryAllowed(config.value)
    ensures r.Some? ==>
      r.value.config == config.value.(currentRetryCount := Some(config.value.currentRetryCount.GetOr(0) + 1))
    ensures r.Some? ==> r.value.delayMs != 0
    ensures r.Some? ==>
      r.value.delayMs == (if config.value.retryDelay.Some? && config.value.retryDelay.value != 0
                          then config.value.retryDelay.value else DefaultRetryDelay)
  {
    if config.None? then None
    else
      var c := config.value;
      if !RetryAllowed(c) then None
      else
        var delay := if c.retryDelay.Some? && c.retryDelay.value != 0 then c.retryDelay.value else DefaultRetryDelay;
        Some(RetryPlan(c.(currentRetryCount := Some(c.currentRetryCount.GetOr(0) + 1)), delay))
  }

  /** The configuration after `k` retries in a row, None once a retry is refused. */
  function RetryChain(c: Config, k: nat): Option<Config> {
    if k == 0 then Some(c)
    else
      match RetryChain(c, k - 1)
      case None => None
      case Some(prev) =>
        match RetryRequest(Some(prev))
        case None => None
        case Some(plan) => Some(plan.config)
  }

  /** A request that has not been retried yet is retried exactly `n` times for a positive
      `retryCount` n, the k-th retry carrying `currentRetryCount` k. */
  lemma {:induction false} RetryBudget(c: Config, n: int, k: nat)
    requires c.retryCount == Some(n) && n > 0 && c.currentRetryCount.None?
    ensures RetryChain(c, k).Some? <==> k <= n
    ensures 0 < k <= n ==> RetryChain(c, k) == Some(c.(currentRetryCount := Some(k)))
  {
    if k > 0 {
      RetryBudget(c, n, k - 1);
      if k - 1 <= n {
        var prev := RetryChain(c, k - 1).value;
        assert prev.retryCount == Some(n);
        assert prev.currentRetryCount.GetOr(0) == k - 1;
      }
    }
  }

  /** The configuration the request interceptor sends: registered with its cancel source,
      `retryCount ?? 3` and `retryDelay ?? 1000`. */
  function Dispatched(c: Config, source: nat): (r: Config)
    ensures GenerateRequestKey(r) == GenerateRequestKey(c)
    ensures c.retryCount.Some? ==> r.retryCount == c.retryCount
    ensures c.retryDelay.Some? ==> r.retryDelay == c.retryDelay
  {
    c.(cancelToken := Some(source),
       retryCount := Some(c.retryCount.GetOr(DefaultRetryCount)),
       retryDelay := Some(c.retryDelay.GetOr(DefaultRetryDelay)))
  }

  /** An explicit `retryCount` of 0 survives the defaults and disables retrying; an absent
      one becomes 3, which allows exactly three retries. */
  lemma RetryDefaults(c: Config, source: nat)
    ensures c.retryCount == Some(0) ==> RetryRequest(Some(Dispatched(c, source))).None?
    ensures c.retryCount.None? && c.currentRetryCount.None? ==>
      RetryChain(Dispatched(c, source), 3).Some? && RetryChain(Dispatched(c, source), 4).None?
  {
    if c.retryCount.None? && c.currentRetryCount.None? {
      RetryBudget(Dispatched(c, source), 3, 3);
      RetryBudget(Dispatched(c, source), 3, 4);
    }
  }

  // ---------------------------------------------------------------------------
  // Pending requests: request identity -> cancel source, in insertion order

  datatype Pending = Pending(key: string, source: nat)

  datatype Cancellation = Cancellation(source: nat, reason: string)

  predicate DistinctKeys(ps: seq<Pending>) {
    forall i, j :: 0 <= i < j < |ps| ==> ps[i].key != ps[j].key
  }

  predicate DistinctSources(ps: seq<Pending>) {
    forall i, j :: 0 <= i < j < |ps| ==> ps[i].source != ps[j].source
  }

  predicate DistinctCancellations(cs: seq<Cancellation>) {
    forall i, j :: 0 <= i < j < |cs| ==> cs[i].source != cs[j].source
  }

  /** `pendingRequests.get(key)` */
  function SourceOf(ps: seq<Pending>, key: string): (r: Option<nat>)
    ensures r.Some? ==> Pending(key, r.value) in ps
    ensures r.None? ==> forall e :: e in ps ==> e.key != key
  {
    if ps == [] then None
    else if ps[0].key == key then Some(ps[0].source)
    else SourceOf(ps[1..], key)
  }

  /** `pendingRequests.delete(key)` */
  function Without(ps: seq<Pending>, key: string): (r: seq<Pending>)
    ensures forall e :: e in r <==> e in ps && e.key != key
    ensures DistinctKeys(ps) ==> DistinctKeys(r)
    ensures DistinctSources(ps) ==> DistinctSources(r)
    ensures forall k :: k != key ==> SourceOf(r, k) == SourceOf(ps, k)
  {
    if ps == [] then []
    else
      var rest := Without(ps[1..], key);
      assert forall e :: e in ps <==> e == ps[0] || e in ps[1..];
      TailDistinct(ps);
      if ps[0].key == key then rest
      else
        ConsDistinct(ps, rest);
        [ps[0]] + rest
  }

  lemma TailDistinct(ps: seq<Pending>)
    requires ps != []
    ensures DistinctKeys(ps) ==> DistinctKeys(ps[1..])
    ensures DistinctSources(ps) ==> DistinctSources(ps[1..])
  {
  }

  /** The first entry put back in front of entries taken from the rest keeps keys and
      sources distinct. */
  lemma ConsDistinct(ps: seq<Pending>, rest: seq<Pending>)
    requires ps != [] && forall e :: e in rest ==> e in ps[1..]
    ensures DistinctKeys(ps) && DistinctKeys(rest) ==> DistinctKeys([ps[0]] + rest)
    ensures DistinctSources(ps) && DistinctSources(rest) ==> DistinctSources([ps[0]] + rest)
  {
    var r := [ps[0]] + rest;
    assert r[1..] == rest;
    if DistinctKeys(ps) && DistinctKeys(rest) {
      forall e | e in rest ensures e.key != ps[0].key {
        var j :| 0 <= j < |ps[1..]| && ps[1..][j] == e;
        assert ps[j + 1] == e;
      }
    }
    if DistinctSources(ps) && DistinctSources(rest) {
      forall e | e in rest ensures e.source != ps[0].source {
        var j :| 0 <= j < |ps[1..]| && ps[1..][j] == e;
        assert ps[j + 1] == e;
      }
    }
  }

  lemma {:induction false} WithoutAbsent(ps: seq<Pending>, key: string)
    requires SourceOf(ps, key).None?
    ensures Without(ps, key) == ps
  {
    if ps != [] {
      WithoutAbsent(ps[1..], key);
    }
  }

  lemma {:induction false} SourceOfAppend(ps: seq<Pending>, p: Pending, k: string)
    ensures SourceOf(ps + [p], k) == if SourceOf(ps, k).Some? then SourceOf(ps, k)
      else if p.key == k then Some(p.source) else None
  {
    if ps == [] {
      assert ps + [p] == [p];
    } else {
      assert (ps + [p])[0] == ps[0];
      assert (ps + [p])[1..] == ps[1..] + [p];
      SourceOfAppend(ps[1..], p, k);
    }
  }

  /** Delete-then-set: the request registered under `key` is the new source, and every
      other identity keeps its source. */
  function Register(ps: seq<Pending>, key: string, source: nat): (r: seq<Pending>)
    ensures SourceOf(r, key) == Some(source)
    ensures forall k :: k != key ==> SourceOf(r, k) == SourceOf(ps, k)
    ensures forall e :: e in r <==> e == Pending(key, source) || (e in ps && e.key != key)
  {
    var w := Without(ps, key);
    SourceOfAppend(w, Pending(key, source), key);
    forall k | k != key ensures SourceOf(w + [Pending(key, source)], k) == SourceOf(ps, k) {
      SourceOfAppend(w, Pending(key, source), k);
    }
    w + [Pending(key, source)]
  }

  /** The cancellation of the request a new one with the same identity replaces. */
  function Superseded(ps: seq<Pending>, key: string): (cs: seq<Cancellation>)
    ensures |cs| <= 1
    ensures cs == [] <==> SourceOf(ps, key).None?
    ensures cs != [] ==> cs[0] == Cancellation(SourceOf(ps, key).value, ReasonDuplicate)
  {
    match SourceOf(ps, key)
    case None => []
    case Some(s) => [Cancellation(s, ReasonDuplicate)]
  }

  /** One cancellation per pending request, in insertion order. */
  function CancelAll(ps: seq<Pending>, reason: string): (cs: seq<Cancellation>)
    ensures |cs| == |ps|
    ensures forall i :: 0 <= i < |ps| ==> cs[i] == Cancellation(ps[i].source, reason)
  {
    seq(|ps|, i requires 0 <= i < |ps| => Cancellation(ps[i].source, reason))
  }

  /** The bookkeeping of cancel sources: one request per identity, sources drawn fresh,
      and a source, once cancelled, never pending and never cancelled again. */
  predicate Registry(ps: seq<Pending>, cs: seq<Cancellation>, next: nat) {
    && DistinctKeys(ps) && DistinctSources(ps) && DistinctCancellations(cs)
    && (forall e :: e in ps ==> e.source < next)
    && (forall x :: x in cs ==> x.source < next)
    && (forall e, x :: e in ps && x in cs ==> e.source != x.source)
  }

  /** Registering a fresh source under `key` and cancelling the one it replaces keeps the
      bookkeeping sound. */
  lemma SupersedeKeepsRegistry(ps: seq<Pending>, cs: seq<Cancellation>, next: nat, key: string)
    requires Registry(ps, cs, next)
    ensures Registry(Register(ps, key, next), cs + Superseded(ps, key), next + 1)
  {
    RegisterKeepsPending(ps, next, key);
    var r := Register(ps, key, next);
    var cs' := cs + Superseded(ps, key);
    forall x | x in cs' ensures x.source < next + 1 && (x in cs || x == Cancellation(SourceOf(ps, key).value, ReasonDuplicate)) {
    }
    if SourceOf(ps, key).Some? {
      var s := SourceOf(ps, key).value;
      SupersededIsFresh(ps, cs, next, key);
      assert DistinctCancellations(cs') by {
        forall i, j | 0 <= i < j < |cs'| ensures cs'[i].source != cs'[j].source {
          if j == |cs| {
            assert cs'[i] in cs;
          }
        }
      }
    } else {
      assert cs' == cs;
    }
  }

  /** The new entry's key and source are not among the remaining ones. */
  lemma RegisterKeepsPending(ps: seq<Pending>, next: nat, key: string)
    requires DistinctKeys(ps) && DistinctSources(ps) && forall e :: e in ps ==> e.source < next
    ensures var r := Register(ps, key, next);
      DistinctKeys(r) && DistinctSources(r) && forall e :: e in r ==> e.source < next + 1
  {
    var r := Register(ps, key, next);
    var w := Without(ps, key);
    assert r == w + [Pending(key, next)];
    assert DistinctKeys(r) by {
      forall e | e in w ensures e.key != key { }
    }
    assert DistinctSources(r) by {
      forall e | e in w ensures e.source != next { }
    }
  }

  /** The replaced source is neither cancelled already nor pending any more. */
  lemma SupersededIsFresh(ps: seq<Pending>, cs: seq<Cancellation>, next: nat, key: string)
    requires Registry(ps, cs, next) && SourceOf(ps, key).Some?
    ensures forall x :: x in cs ==> x.source != SourceOf(ps, key).value
    ensures forall e :: e in Register(ps, key, next) ==> e.source != SourceOf(ps, key).value
  {
    var s := SourceOf(ps, key).value;
    assert Pending(key, s) in ps;
    forall e | e in Register(ps, key, next) ensures e.source != s {
      if e != Pending(key, next) {
        assert e in ps && e.key != key;
        var a :| 0 <= a < |ps| && ps[a] == e;
        var b :| 0 <= b < |ps| && ps[b] == Pending(key, s);
        assert a != b;
      }
    }
  }

  lemma WithoutKeepsRegistry(ps: seq<Pending>, cs: seq<Cancellation>, next: nat, key: string)
    requires Registry(ps, cs, next)
    ensures Registry(Without(ps, key), cs, next)
  {
  }

  lemma CancelAllStep(ps: seq<Pending>, i: nat, reason: string)
    requires i < |ps|
    ensures CancelAll(ps[..i + 1], reason) == CancelAll(ps[..i], reason) + [Cancellation(ps[i].source, reason)]
  {
  }

  lemma CancelAllKeepsRegistry(ps: seq<Pending>, cs: seq<Cancellation>, next: nat, reason: string)
    requires Registry(ps, cs, next)
    ensures Registry([], cs + CancelAll(ps, reason), next)
  {
    var all := cs + CancelAll(ps, reason);
    forall i, j | 0 <= i < j < |all| ensures all[i].source != all[j].source {
      if j >= |cs| {
        assert all[j].source == ps[j - |cs|].source;
        if i >= |cs| {
          assert all[i].source == ps[i - |cs|].source;
        } else {
          assert all[i] in cs && ps[j - |cs|] in ps;
        }
      }
    }
    forall x | x in all ensures x.source < next {
      if x !in cs {
        var i :| 0 <= i < |all| && all[i] == x;
        assert ps[i - |cs|] in ps;
      }
    }
  }

  // ---------------------------------------------------------------------------
  // The interceptors

  /** The backend's envelope; an absent message is the empty string. */
  datatype Envelope = Envelope(code: int, data: Value, message: string)

  /** An HTTP response that failed, with the `message` of its body ('' when absent). */
  datatype ErrorResponse = ErrorResponse(status: int, message: string)

  /** A rejected request as the error interceptor sees it. */
  datatype HttpError = HttpError(config: Option<Config>, isCancel: bool, response: Option<ErrorResponse>, message: string)

  /** What the request interceptor hands on: the configuration to send, or the data of a
      cached response. */
  datatype Outgoing = Sent(config: Config) | Cached(data: Value)

  /** How a response interceptor settles the request. */
  datatype Settlement = Resolved(data: Value) | Rejected(reason: string) | Retried(config: Config, delayMs: int)

  /** setCommonHeaders: a truthy stored token becomes `Bearer <token>`; the client header
      carries the user agent. */
  function WithCommonHeaders(c: Config, token: Value, userAgent: string): (r: Config)
    ensures r == c.(authorization := r.authorization, clientInfo := Some(userAgent))
    ensures !Truthy(token) ==> r.authorization == c.authorization
    ensures token.Str? && token.s != "" ==> r.authorization == Some("Bearer " + token.s)
  {
    c.(authorization := if Truthy(token) then Some("Bearer " + ToJsString(token)) else c.authorization,
       clientInfo := Some(userAgent))
  }
  /** A token persisted as undefined reads back as the string "undefined", which is
      sent as the bearer token. */
  lemma StoredUndefinedTokenIsSent(c: Config, userAgent: string)
    ensures WithCommonHeaders(c, Persisted(Undefined), userAgent).authorization == Some("Bearer undefined")
  {
    assert Persisted(Undefined) == Str("undefined");
    assert "Bearer " + "undefined" == "Bearer undefined";
  }


  /** The configuration after the headers are set and the data normalised. */
  function Prepared(c: Config, token: Value, userAgent: string): (r: Config)
    // the headers and the normalised params and body do not depend on each other
    ensures r == WithCommonHeaders(Normalised(c), token, userAgent)
    ensures r.clientInfo == Some(userAgent)
    ensures r.params == Normalised(c).params && r.data == Normalised(c).data
    ensures r.authorization == WithCommonHeaders(c, token, userAgent).authorization
  {
    Normalised(WithCommonHeaders(c, token, userAgent))
  }

  /** The effects of the error interceptor when it does not retry. */
  function FailureEffects(error: HttpError, location: string): (es: seq<Effect>)
    ensures |es| >= 1 && es[0].ErrorMessage? && es[0].text != ""
    ensures error.response.None? ==> es == [ErrorMessage(MessageNetwork)]
    ensures error.response.Some? ==> (|es| == 2 <==> error.response.value.status == CodeUnauthorized)
    // an unhandled status shows the body's message, else the error's own, else the fixed text
    ensures error.response.Some? && error.response.value.status !in HandledCodes ==>
      var res := error.response.value;
      es == [ErrorMessage(if res.message != "" then res.message
                          else if error.message != "" then error.message
                          else MessageRequestFailed)]
  {
    match error.response
    case Some(res) =>
      ApiErrorEffects(res.status, if res.message != "" then res.message else error.message, location)
    case None => [ErrorMessage(MessageNetwork)]
  }

  /** The module state of the request pipeline. */
  class Service {
    const storage: LocalStorage
    const app: AppStore
    const indicator: LoadingIndicator
    var pending: seq<Pending>
    var nextSource: nat
    var cancelled: seq<Cancellation>
    var cache: map<string, CacheEntry>
    var effects: seq<Effect>

    ghost predicate Valid()
      reads this, indicator
    {
      indicator.Valid() && Registry(pending, cancelled, nextSource)
    }

    constructor(storage: LocalStorage, app: AppStore)
      ensures Valid()
      ensures this.storage == storage && this.app == app && fresh(indicator)
      ensures indicator.Current() == Overlay(0, None)
      ensures pending == [] && cancelled == [] && cache == map[] && effects == []
    {
      this.storage := storage;
      this.app := app;
      indicator := new LoadingIndicator();
      pending := [];
      nextSource := 0;
      cancelled := [];
      cache := map[];
      effects := [];
    }

    /** Cancels the request pending under `key`, if any, and registers a fresh source. */
    method Supersede(key: string) returns (source: nat)
      requires Valid()
      modifies this
      ensures Valid()
      ensures source == old(nextSource) && nextSource == source + 1
      ensures pending == Register(old(pending), key, source)
      ensures cancelled == old(cancelled) + Superseded(old(pending), key)
      ensures cache == old(cache) && effects == old(effects)
    {
      SupersedeKeepsRegistry(pending, cancelled, nextSource, key);
      var previous := SourceOf(pending, key);
      if previous.None? {
        WithoutAbsent(pending, key);
      }
      if previous.Some? {
        cancelled := cancelled + [Cancellation(previous.value, ReasonDuplicate)];
        pending := Without(pending, key);
      }
      source := nextSource;
      nextSource := nextSource + 1;
      pending := pending + [Pending(key, source)];
    }

    /** The request interceptor. The loading flag and overlay are switched on before the
        cache is consulted, so a cached answer leaves them on as well. */
    method RequestInterceptor(config: Config, now: int, userAgent: string) returns (out: Outgoing)
      requires Valid()
      modifies this, indicator, app
      ensures Valid()
      ensures app.loading
      ensures indicator.Current() == Show(old(indicator.Current()), config)
      ensures cache == old(cache) && effects == old(effects)
      ensures
        var c := Prepared(config, storage.Get(TokenKey), userAgent);
        var key := GenerateRequestKey(c);
        && (out.Cached? <==> CachedData(cache, key, c, now).Some?)
        && (out.Cached? ==>
              && out.data == CachedData(cache, key, c, now).value
              && pending == old(pending) && cancelled == old(cancelled) && nextSource == old(nextSource))
        && (out.Sent? ==>
              && out.config == Dispatched(c, old(nextSource))
              && pending == Register(old(pending), key, old(nextSource))
              && cancelled == old(cancelled) + Superseded(old(pending), key)
              && nextSource == old(nextSource) + 1)
    {
      app.SetLoading(true);
      indicator.ShowLoading(config);
      var token := storage.Get(TokenKey);
      var c := WithCommonHeaders(config, token, userAgent);
      c := FormatRequestData(c);
      var key := GenerateRequestKey(c);
      var hit := CachedData(cache, key, c, now);
      if hit.Some? {
        return Cached(hit.value);
      }
      var source := Supersede(key);
      out := Sent(Dispatched(c, source));
    }

    /** handleApiError together with handleAuthError. */
    method HandleApiError(code: int, message: string, location: string)
      modifies this, storage
      ensures effects == old(effects) + ApiErrorEffects(code, message, location)
      ensures storage.items == StorageAfterApiError(code, old(storage.items))
      ensures pending == old(pending) && cancelled == old(cancelled) && nextSource == old(nextSource)
      ensures cache == old(cache)
    {
      match ApiErrorAction(code, message)
      case SessionExpired =>
        storage.Remove(TokenKey);
        effects := effects + [ErrorMessage(MessageUnauthorized)];
        effects := effects + [Navigate(Route.GetLoginPath(Some(location)), AuthRedirectDelay)];
      case Notify(text) =>
        effects := effects + [ErrorMessage(text)];
    }

    /** The response interceptor for a response that arrived: the envelope's code decides. */
    method ResponseFulfilled(config: Config, envelope: Envelope, now: int, location: string) returns (s: Settlement)
      requires Valid()
      modifies this, indicator, app, storage
      ensures Valid()
      ensures !app.loading
      ensures indicator.Current() == Hide(old(indicator.Current()), config)
      ensures cancelled == old(cancelled) && nextSource == old(nextSource)
      ensures envelope.code != CodeSuccess ==>
        && s == Rejected(if envelope.message != "" then envelope.message else MessageRequestFailed)
        && pending == old(pending) && cache == old(cache)
        && effects == old(effects) + ApiErrorEffects(envelope.code, envelope.message, location)
        && storage.items == StorageAfterApiError(envelope.code, old(storage.items))
      ensures envelope.code == CodeSuccess ==>
        var key := GenerateRequestKey(config);
        && s == Resolved(envelope.data)
        && pending == Without(old(pending), key)
        && cache == (if config.enableCache then old(cache)[key := CacheEntry(envelope.data, now)] else old(cache))
        && effects == old(effects) && storage.items == old(storage.items)
    {
      app.SetLoading(false);
      indicator.HideLoading(config);
      if envelope.code != CodeSuccess {
        HandleApiError(envelope.code, envelope.message, location);
        return Rejected(if envelope.message != "" then envelope.message else MessageRequestFailed);
      }
      var key := GenerateRequestKey(config);
      WithoutKeepsRegistry(pending, cancelled, nextSource, key);
      pending := Without(pending, key);
      if config.enableCache {
        cache := cache[key := CacheEntry(envelope.data, now)];
      }
      s := Resolved(envelope.data);
    }

    /** The response interceptor for a request that failed. */
    method ResponseRejected(error: HttpError, location: string) returns (s: Settlement)
      requires Valid()
      modifies this, indicator, app, storage
      ensures Valid()
      ensures !app.loading
      ensures indicator.Current() ==
        if error.config.Some? then Hide(old(indicator.Current()), error.config.value) else old(indicator.Current())
      ensures cancelled == old(cancelled) && nextSource == old(nextSource) && cache == old(cache)
      ensures error.isCancel ==>
        s == Rejected(error.message) && pending == old(pending)
        && effects == old(effects) && storage.items == old(storage.items)
      ensures !error.isCancel && RetryRequest(error.config).Some? ==>
        var plan := RetryRequest(error.config).value;
        s == Retried(plan.config, plan.delayMs) && pending == old(pending)
        && effects == old(effects) && storage.items == old(storage.items)
      ensures !error.isCancel && RetryRequest(error.config).None? ==>
        && s == Rejected(error.message)
        && pending == (if error.config.Some? then Without(old(pending), GenerateRequestKey(error.config.value)) else old(pending))
        && effects == old(effects) + FailureEffects(error, location)
        && storage.items ==
             (if error.response.Some? then StorageAfterApiError(error.response.value.status, old(storage.items))
              else old(storage.items))
    {
      app.SetLoading(false);
      if error.config.Some? {
        indicator.HideLoading(error.config.value);
      }
      if error.isCancel {
        return Rejected(error.message);
      }
      var plan := RetryRequest(error.config);
      if plan.Some? {
        return Retried(plan.value.config, plan.value.delayMs);
      }
      if error.config.Some? {
        var key := GenerateRequestKey(error.config.value);
        WithoutKeepsRegistry(pending, cancelled, nextSource, key);
        pending := Without(pending, key);
      }
      if error.response.Some? {
        var res := error.response.value;
        HandleApiError(res.status, if res.message != "" then res.message else error.message, location);
      } else {
        effects := effects + [ErrorMessage(MessageNetwork)];
      }
      s := Rejected(error.message);
    }

    /** cancelAllRequests: cancels every pending request, in registration order, with the
        given reason (default '操作已取消') and forgets them all. */
    method CancelAllRequests(message: Option<string>)
      requires Valid()
      modifies this
      ensures Valid()
      ensures pending == []
      ensures cancelled == old(cancelled) + CancelAll(old(pending), message.GetOr(ReasonCancelAll))
      ensures nextSource == old(nextSource) && cache == old(cache) && effects == old(effects)
    {
      var reason := message.GetOr(ReasonCancelAll);
      CancelAllKeepsRegistry(pending, cancelled, nextSource, reason);
      var i := 0;
      while i < |pending|
        invariant 0 <= i <= |pending|
        invariant pending == old(pending) && nextSource == old(nextSource)
        invariant cache == old(cache) && effects == old(effects)
        invariant cancelled == old(cancelled) + CancelAll(pending[..i], reason)
      {
        CancelAllStep(pending, i, reason);
        cancelled := cancelled + [Cancellation(pending[i].source, reason)];
        i := i + 1;
      }
      assert pending[..i] == pending;
      pending := [];
    }
  }
}
