/**
  Request identity, request normalisation and loading options
  (the helpers the request interceptors call).
 */
module RequestUtils {
  import opened Json

  /** The request configuration the interceptors read and rewrite: the axios fields the
      core touches and the project's own per-request options. An absent numeric option
      is `None`; an absent boolean option reads as `false`. */
  datatype Config = Config(
    url: string,
    verb: string,
    params: Value,
    data: Value,
    enableCache: bool,
    cacheTime: Option<int>,
    retryCount: Option<int>,
    retryDelay: Option<int>,
    currentRetryCount: Option<int>,
    skipTransform: bool,
    showLoading: bool,
    loadingOptions: Value,
    authorization: Option<string>,
    clientInfo: Option<string>,
    cancelToken: Option<nat>)

  /** `Array.prototype.join` writes an `undefined` element as the empty string. */
  function JoinPart(s: Option<string>): string {
    s.GetOr("")
  }

  /** The request identity: url, method and the JSON of params and data, joined by '&'.
      The JSON keeps the objects' key order. */
  function GenerateRequestKey(c: Config): (r: string)
    ensures |r| > |c.url| + |c.verb| + 1
    ensures r[..|c.url|] == c.url && r[|c.url|] == '&'
    ensures r[|c.url| + 1..][..|c.verb|] == c.verb && r[|c.url| + 1 + |c.verb|] == '&'
    // without '&' in them, url and method are the first two '&'-separated fields
    ensures '&' !in c.url ==> FirstIndex(r, '&') == |c.url|
    ensures '&' !in c.verb ==> FirstIndex(r[|c.url| + 1..], '&') == |c.verb|
  {
    KeyFields(c.url, c.verb, JoinPart(Stringify(c.params)), JoinPart(Stringify(c.data)));
    c.url + "&" + c.verb + "&" + JoinPart(Stringify(c.params)) + "&" + JoinPart(Stringify(c.data))
  }

  lemma KeyFields(url: string, verb: string, p: string, d: string)
    ensures
      var s := url + "&" + verb + "&" + p + "&" + d;
      |s| > |url| + |verb| + 1
      && s[..|url|] == url && s[|url|] == '&'
      && s[|url| + 1..][..|verb|] == verb && s[|url| + 1 + |verb|] == '&'
      && ('&' !in url ==> FirstIndex(s, '&') == |url|)
      && ('&' !in verb ==> FirstIndex(s[|url| + 1..], '&') == |verb|)
  {
    var s := url + "&" + verb + "&" + p + "&" + d;
    var t := s[|url| + 1..];
    assert s == url + "&" + (verb + "&" + (p + "&" + d));
    assert t == verb + "&" + (p + "&" + d);
    if '&' !in url {
      FirstIndexAt(s, url, '&');
    }
    if '&' !in verb {
      FirstIndexAt(t, verb, '&');
    }
  }

  /** The first `x` of a string that starts with an `x`-free prefix followed by `x`. */
  lemma FirstIndexAt(s: string, a: string, x: char)
    requires x !in a && |s| > |a| && s[..|a|] == a && s[|a|] == x
    ensures FirstIndex(s, x) == |a|
  {
  }

  /** Index of the first `x` in `s`, or |s| when there is none. */
  function FirstIndex(s: string, x: char): (i: nat)
    ensures i <= |s|
    ensures forall j :: 0 <= j < i ==> s[j] != x
    ensures i < |s| ==> s[i] == x
  {
    if s == [] then 0
    else if s[0] == x then 0
    else 1 + FirstIndex(s[1..], x)
  }

  /** A separator that occurs in neither prefix splits two equal strings at the same place. */
  lemma SplitAtFirst(a: string, b: string, x: char, r1: string, r2: string)
    requires x !in a && x !in b
    requires a + [x] + r1 == b + [x] + r2
    ensures a == b && r1 == r2
  {
    var s := a + [x] + r1;
    assert s[|a|] == x && forall j :: 0 <= j < |a| ==> s[j] == a[j];
    assert s[|b|] == x && forall j :: 0 <= j < |b| ==> s[j] == b[j];
    assert |a| == |b| by {
      assert FirstIndex(s, x) <= |a| && FirstIndex(s, x) >= |a|;
      assert FirstIndex(s, x) <= |b| && FirstIndex(s, x) >= |b|;
    }
    assert a == s[..|a|] && b == s[..|b|];
    assert r1 == s[|a| + 1..] && r2 == s[|b| + 1..];
  }

  /** The part of the identity after the method: params and data. */
  function KeyTail(c: Config): string {
    JoinPart(Stringify(c.params)) + "&" + JoinPart(Stringify(c.data))
  }

  lemma KeyShape(c: Config)
    ensures GenerateRequestKey(c) == c.url + ['&'] + (c.verb + ['&'] + KeyTail(c))
  {
    var p, d := JoinPart(Stringify(c.params)), JoinPart(Stringify(c.data));
    calc {
      GenerateRequestKey(c);
      c.url + "&" + c.verb + "&" + p + "&" + d;
      c.url + ['&'] + (c.verb + ['&'] + (p + "&" + d));
    }
  }

  /** Requests to different urls, or with different methods (`verb`), never share an
      identity, as long as neither url nor method contains '&'. */
  lemma KeySeparatesEndpoints(c1: Config, c2: Config)
    requires '&' !in c1.url && '&' !in c2.url && '&' !in c1.verb && '&' !in c2.verb
    requires GenerateRequestKey(c1) == GenerateRequestKey(c2)
    ensures c1.url == c2.url && c1.verb == c2.verb
  {
    KeyShape(c1);
    KeyShape(c2);
    SplitAtFirst(c1.url, c2.url, '&', c1.verb + ['&'] + KeyTail(c1), c2.verb + ['&'] + KeyTail(c2));
    SplitAtFirst(c1.verb, c2.verb, '&', KeyTail(c1), KeyTail(c2));
  }

  lemma JoinStart(parts: seq<string>, sep: string)
    requires parts != []
    ensures |Join(parts, sep)| >= |parts[0]| && Join(parts, sep)[..|parts[0]|] == parts[0]
  {
  }

  /** The JSON of an object whose first entry has a defined value starts with '{', the
      quote and the first character of that entry's key (when it needs no escape). */
  lemma StringifyObjectStart(ps: seq<Prop>)
    requires ps != [] && ps[0].key != [] && Stringify(ps[0].val).Some?
    requires QuoteChar(ps[0].key[0]) == [ps[0].key[0]]
    ensures Stringify(Obj(ps)).Some? && |Stringify(Obj(ps)).value| > 2
    ensures Stringify(Obj(ps)).value[2] == ps[0].key[0]
  {
    var k := ps[0].key;
    var first := Quote(k) + ":" + Stringify(ps[0].val).value;
    assert Members(ps)[0] == first;
    JoinStart(Members(ps), ",");
    var j := Join(Members(ps), ",");
    assert j[1] == first[1];
    assert QuoteChars(k) == [k[0]] + QuoteChars(k[1..]);
    assert Quote(k)[1] == k[0];
  }

  /** The identity keeps the key order of the params: the same entries written in
      another order give another identity. */
  lemma KeyDependsOnKeyOrder(c: Config)
    ensures
      var ab := Obj([Prop("a", Num(1)), Prop("b", Num(2))]);
      var ba := Obj([Prop("b", Num(2)), Prop("a", Num(1))]);
      GenerateRequestKey(c.(params := ab)) != GenerateRequestKey(c.(params := ba))
  {
    var c1 := c.(params := Obj([Prop("a", Num(1)), Prop("b", Num(2))]));
    var c2 := c.(params := Obj([Prop("b", Num(2)), Prop("a", Num(1))]));
    assert Stringify(Num(1)).Some? && Stringify(Num(2)).Some?;
    StringifyObjectStart(c1.params.props);
    StringifyObjectStart(c2.params.props);
    KeyShape(c1);
    KeyShape(c2);
    var n := |c.url| + 1 + |c.verb| + 1;
    assert GenerateRequestKey(c1)[n + 2] == KeyTail(c1)[2] == 'a';
    assert GenerateRequestKey(c2)[n + 2] == KeyTail(c2)[2] == 'b';
  }

  // ---------------------------------------------------------------------------
  // formatRequestData

  /** A body that is stripped: a truthy object that is not FormData. */
  predicate IsStrippableBody(v: Value) {
    Truthy(v) && IsObjectType(v) && !v.Form?
  }

  predicate NoBlank(ps: seq<Prop>) {
    forall i :: 0 <= i < |ps| ==> !IsBlank(ps[i].val)
  }

  /** The copy with every null, undefined or '' entry deleted. */
  function StripBlank(ps: seq<Prop>): seq<Prop> {
    if ps == [] then []
    else if IsBlank(ps[0].val) then StripBlank(ps[1..])
    else [ps[0]] + StripBlank(ps[1..])
  }

  /** No blank value is left, every other entry is kept, nothing is added, and keys
      stay unique. */
  lemma StripBlankKeeps(ps: seq<Prop>)
    ensures NoBlank(StripBlank(ps))
    ensures forall p :: p in StripBlank(ps) <==> p in ps && !IsBlank(p.val)
    ensures UniqueKeys(ps) ==> UniqueKeys(StripBlank(ps))
  {
    StripBlankMembers(ps);
    if UniqueKeys(ps) {
      StripBlankUnique(ps);
    }
  }

  lemma {:induction false} StripBlankMembers(ps: seq<Prop>)
    ensures forall p :: p in StripBlank(ps) <==> p in ps && !IsBlank(p.val)
  {
    if ps != [] {
      StripBlankMembers(ps[1..]);
      assert forall p :: p in ps <==> p == ps[0] || p in ps[1..];
    }
  }

  lemma {:induction false} StripBlankUnique(ps: seq<Prop>)
    requires UniqueKeys(ps)
    ensures UniqueKeys(StripBlank(ps))
  {
    if ps != [] {
      assert UniqueKeys(ps[1..]);
      StripBlankUnique(ps[1..]);
      if !IsBlank(ps[0].val) {
        var rest := StripBlank(ps[1..]);
        StripBlankMembers(ps[1..]);
        forall p | p in rest ensures p.key != ps[0].key {
          var j :| 0 <= j < |ps[1..]| && ps[1..][j] == p;
          assert ps[j + 1] == p;
        }
        var r := [ps[0]] + rest;
        forall i, j | 0 <= i < j < |r| ensures r[i].key != r[j].key {
          if i == 0 {
            assert r[j] in rest;
          } else {
            assert r[i] == rest[i - 1] && r[j] == rest[j - 1];
          }
        }
      }
    }
  }

  lemma {:induction false} StripBlankIdempotent(ps: seq<Prop>)
    ensures StripBlank(StripBlank(ps)) == StripBlank(ps)
  {
    if ps != [] {
      StripBlankIdempotent(ps[1..]);
    }
  }

  /** What formatRequestData leaves in the configuration: unless `skipTransform`, a truthy
      `params` becomes a stripped copy of its own properties, and a truthy non-FormData
      object body becomes a stripped copy of its own properties; nothing else changes.
      The caller's params and data values are copies, so they are never altered. */
  function Normalised(c: Config): (r: Config)
    ensures c.skipTransform ==> r == c
    ensures r == c.(params := r.params, data := r.data)
    ensures !c.skipTransform && Truthy(c.params) ==> r.params.Obj? && NoBlank(r.params.props)
    ensures !c.skipTransform && c.params.Obj? ==>
      forall p :: p in r.params.props <==> p in c.params.props && !IsBlank(p.val)
    ensures !Truthy(c.params) ==> r.params == c.params
    ensures !c.skipTransform && IsStrippableBody(c.data) ==> r.data.Obj? && NoBlank(r.data.props)
    ensures !c.skipTransform && c.data.Obj? ==>
      forall p :: p in r.data.props <==> p in c.data.props && !IsBlank(p.val)
    ensures !IsStrippableBody(c.data) ==> r.data == c.data
  {
    if c.skipTransform then c
    else
      StripBlankKeeps(OwnProps(c.params));
      StripBlankKeeps(OwnProps(c.data));
      var params := if Truthy(c.params) then Obj(StripBlank(OwnProps(c.params))) else c.params;
      var data := if IsStrippableBody(c.data) then Obj(StripBlank(OwnProps(c.data))) else c.data;
      c.(params := params, data := data)
  }

  lemma {:induction false} StripBlankAppend(a: seq<Prop>, b: seq<Prop>)
    ensures StripBlank(a + b) == StripBlank(a) + StripBlank(b)
  {
    if a == [] {
      assert a + b == b;
    } else {
      assert (a + b)[0] == a[0];
      assert (a + b)[1..] == a[1..] + b;
      StripBlankAppend(a[1..], b);
    }
  }

  lemma StripBlankStep(ps: seq<Prop>, i: nat)
    requires i < |ps|
    ensures StripBlank(ps[..i + 1]) == StripBlank(ps[..i]) + (if IsBlank(ps[i].val) then [] else [ps[i]])
  {
    assert ps[..i + 1] == ps[..i] + [ps[i]];
    StripBlankAppend(ps[..i], [ps[i]]);
    assert StripBlank([ps[i]]) == (if IsBlank(ps[i].val) then [] else [ps[i]]) + StripBlank([]);
  }

  /** One visit of the loop below: the entry at `kept` in the copy is the one the loop
      is at, and deleting it (when blank) or stepping over it keeps the invariant. */
  lemma DeleteStep(ps: seq<Prop>, i: nat, copy: seq<Prop>, kept: nat)
    requires i < |ps| && kept == |StripBlank(ps[..i])| && copy == StripBlank(ps[..i]) + ps[i..]
    ensures kept < |copy|
    ensures IsBlank(ps[i].val) ==>
      copy[..kept] + copy[kept + 1..] == StripBlank(ps[..i + 1]) + ps[i + 1..]
      && kept == |StripBlank(ps[..i + 1])|
    ensures !IsBlank(ps[i].val) ==>
      copy == StripBlank(ps[..i + 1]) + ps[i + 1..] && kept + 1 == |StripBlank(ps[..i + 1])|
  {
    var done := StripBlank(ps[..i]);
    assert ps[i..] == [ps[i]] + ps[i + 1..];
    StripBlankStep(ps, i);
    assert copy == done + [ps[i]] + ps[i + 1..];
    if IsBlank(ps[i].val) {
      assert copy[..kept] == done;
      assert copy[kept + 1..] == ps[i + 1..];
    }
  }

  /** `const copy = { ...obj }; for (const key in copy) if (blank) delete copy[key]`:
      the loop visits the own keys in order and deletes the blank ones from the copy
      (keys are unique, so deleting a key deletes the entry the loop is at). */
  method DeleteBlankEntries(ps: seq<Prop>) returns (copy: seq<Prop>)
    ensures copy == StripBlank(ps)
  {
    copy := ps;
    var kept := 0;
    var i := 0;
    while i < |ps|
      invariant 0 <= i <= |ps|
      invariant kept == |StripBlank(ps[..i])|
      invariant copy == StripBlank(ps[..i]) + ps[i..]
    {
      DeleteStep(ps, i, copy, kept);
      if IsBlank(ps[i].val) {
        copy := copy[..kept] + copy[kept + 1..];
      } else {
        kept := kept + 1;
      }
      i := i + 1;
    }
    assert ps[..i] == ps;
  }

  /** formatRequestData: rewrites `params` and `data` of the configuration it is given. */
  method FormatRequestData(c: Config) returns (r: Config)
    ensures r == Normalised(c)
  {
    r := c;
    if c.skipTransform {
      return;
    }
    if Truthy(c.params) {
      var params := DeleteBlankEntries(OwnProps(c.params));
      r := r.(params := Obj(params));
    }
    if IsStrippableBody(c.data) {
      var data := DeleteBlankEntries(OwnProps(c.data));
      r := r.(data := Obj(data));
    }
  }

  /** Normalising an already normalised configuration changes nothing. */
  lemma {:induction false} NormalisedIdempotent(c: Config)
    ensures Normalised(Normalised(c)) == Normalised(c)
  {
    if !c.skipTransform {
      if Truthy(c.params) {
        StripBlankIdempotent(OwnProps(c.params));
      }
      if IsStrippableBody(c.data) {
        StripBlankIdempotent(OwnProps(c.data));
      }
    }
  }

  /** An array body is copied by object spread, so it reaches the transport as an
      object keyed by indices. */
  lemma ArrayBodyBecomesObject(c: Config)
    requires !c.skipTransform && c.data == Arr([Num(7)])
    ensures Normalised(c).data == Obj([Prop("0", Num(7))])
  {
    assert NatToString(0) == "0";
    assert OwnProps(c.data) == [Prop("0", Num(7))];
  }

  // ---------------------------------------------------------------------------
  // getLoadingOptions

  const LoadingConfig: seq<Prop> := [
    Prop("lock", Bool(true)),
    Prop("text", Str("加载中...")),
    Prop("background", Str("rgba(0, 0, 0, 0.7)"))
  ]

  /** `{...LOADING_CONFIG, ...options}` */
  function GetLoadingOptions(options: Value): (r: Value)
    // the defaults' keys come first, in their order, and no key appears twice
    ensures r.Obj? && |r.props| >= 3
    ensures Keys(r.props)[..3] == ["lock", "text", "background"]
    ensures UniqueKeys(r.props)
  {
    assert Keys(LoadingConfig) == ["lock", "text", "background"];
    AssignAllPrefix(LoadingConfig, OwnProps(options));
    AssignAllUnique(LoadingConfig, OwnProps(options));
    Obj(AssignAll(LoadingConfig, OwnProps(options)))
  }

  /** The caller's options override the defaults key by key and the remaining
      defaults are kept. */
  lemma LoadingOptionsOverride(options: Value, k: string)
    ensures GetLoadingOptions(options).Obj?
    ensures Lookup(GetLoadingOptions(options).props, k) ==
      if k in Keys(OwnProps(options)) then Lookup(OwnProps(options), k) else Lookup(LoadingConfig, k)
    ensures k in Keys(GetLoadingOptions(options).props) <==> k in Keys(LoadingConfig) || k in Keys(OwnProps(options))
  {
    AssignAllLookup(LoadingConfig, OwnProps(options), k);
    AssignAllKeys(LoadingConfig, OwnProps(options), k);
  }
}
