/**
  JavaScript values as the request pipeline and the formatters see them.

  Objects are ordered sequences of properties (JavaScript keeps insertion order),
  so two objects with the same entries in a different order are different values,
  and JSON.stringify, which serialises in that order, tells them apart.
 */
module Json {

  datatype Option<+T> = None | Some(value: T) {
    function GetOr(default: T): T {
      match this
      case Some(v) => v
      case None => default
    }
  }

  /** A JavaScript value. `Num` holds the integral numbers the model deals in;
      `Form` is a FormData object, which has no own enumerable properties. */
  datatype Value =
    | Undefined
    | Null
    | Bool(b: bool)
    | Num(n: int)
    | Str(s: string)
    | Arr(items: seq<Value>)
    | Obj(props: seq<Prop>)
    | Form

  datatype Prop = Prop(key: string, val: Value)

  /** JavaScript truthiness: undefined, null, false, 0 and '' are falsy. */
  predicate Truthy(v: Value) {
    match v
    case Undefined => false
    case Null => false
    case Bool(b) => b
    case Num(n) => n != 0
    case Str(s) => s != ""
    case _ => true
  }

  /** `typeof v === 'object'` (true of null as well). */
  predicate IsObjectType(v: Value) {
    v.Null? || v.Arr? || v.Obj? || v.Form?
  }

  /** The values `formatRequestData` strips: null, undefined and ''. */
  predicate IsBlank(v: Value) {
    v == Null || v == Undefined || v == Str("")
  }

  // ---------------------------------------------------------------------------
  // Property lists

  function Keys(ps: seq<Prop>): (ks: seq<string>)
    ensures |ks| == |ps|
    ensures forall i :: 0 <= i < |ps| ==> ks[i] == ps[i].key
  {
    seq(|ps|, i requires 0 <= i < |ps| => ps[i].key)
  }

  predicate UniqueKeys(ps: seq<Prop>) {
    forall i, j :: 0 <= i < j < |ps| ==> ps[i].key != ps[j].key
  }

  /** The value a property list gives to `k`: the last assignment wins. */
  function Lookup(ps: seq<Prop>, k: string): (r: Option<Value>)
    ensures r.Some? <==> k in Keys(ps)
    ensures r.Some? ==> Prop(k, r.value) in ps
  {
    if ps == [] then None
    else
      var rest := Lookup(ps[1..], k);
      assert Keys(ps) == [ps[0].key] + Keys(ps[1..]);
      if rest.Some? then rest
      else if ps[0].key == k then Some(ps[0].val)
      else None
  }

  lemma {:induction false} LookupAppend(ps: seq<Prop>, p: Prop, k: string)
    ensures Lookup(ps + [p], k) == if p.key == k then Some(p.val) else Lookup(ps, k)
  {
    if ps == [] {
      assert ps + [p] == [p];
    } else {
      assert (ps + [p])[1..] == ps[1..] + [p];
      LookupAppend(ps[1..], p, k);
    }
  }

  /** `obj[k] = v` where `k` is already a key: every property named `k` gets `v`. */
  function Overwrite(ps: seq<Prop>, k: string, v: Value): (r: seq<Prop>)
    ensures Keys(r) == Keys(ps)
    ensures k in Keys(ps) ==> Lookup(r, k) == Some(v)
    ensures forall k' :: k' != k ==> Lookup(r, k') == Lookup(ps, k')
  {
    if ps == [] then []
    else
      var head := if ps[0].key == k then Prop(k, v) else ps[0];
      var r := [head] + Overwrite(ps[1..], k, v);
      assert r[1..] == Overwrite(ps[1..], k, v);
      assert Keys(ps) == [ps[0].key] + Keys(ps[1..]);
      r
  }

  /** Property assignment `obj[k] = v`: an existing key keeps its place, a new key goes last. */
  function Assign(ps: seq<Prop>, k: string, v: Value): (r: seq<Prop>)
    ensures Lookup(r, k) == Some(v)
    ensures forall k' :: k' != k ==> Lookup(r, k') == Lookup(ps, k')
    ensures k in Keys(ps) ==> Keys(r) == Keys(ps)
    ensures k !in Keys(ps) ==> Keys(r) == Keys(ps) + [k]
    ensures UniqueKeys(ps) ==> UniqueKeys(r)
  {
    if k in Keys(ps) then Overwrite(ps, k, v)
    else
      var r := ps + [Prop(k, v)];
      LookupAppend(ps, Prop(k, v), k);
      forall k' | k' != k ensures Lookup(r, k') == Lookup(ps, k') {
        LookupAppend(ps, Prop(k, v), k');
      }
      assert Keys(r) == Keys(ps) + [k];
      r
  }

  /** `{...base, ...}` followed by the assignments `qs`, in order. */
  function AssignAll(base: seq<Prop>, qs: seq<Prop>): seq<Prop>
    decreases qs
  {
    if qs == [] then base else AssignAll(Assign(base, qs[0].key, qs[0].val), qs[1..])
  }

  /** After the assignments, a key assigned by `qs` has its last value there;
      every other key keeps its value from `base`. */
  lemma {:induction false} AssignAllLookup(base: seq<Prop>, qs: seq<Prop>, k: string)
    ensures Lookup(AssignAll(base, qs), k) == if k in Keys(qs) then Lookup(qs, k) else Lookup(base, k)
    decreases qs
  {
    if qs != [] {
      var next := Assign(base, qs[0].key, qs[0].val);
      AssignAllLookup(next, qs[1..], k);
      LookupCons(qs, k);
      var inRest := k in Keys(qs[1..]);
      if !inRest {
        AssignOnce(base, qs[0].key, qs[0].val, k);
      }
    }
  }

  lemma LookupCons(qs: seq<Prop>, k: string)
    requires qs != []
    ensures k in Keys(qs) <==> k == qs[0].key || k in Keys(qs[1..])
    ensures Lookup(qs, k) ==
      if k in Keys(qs[1..]) then Lookup(qs[1..], k) else if qs[0].key == k then Some(qs[0].val) else None
  {
    assert Keys(qs) == [qs[0].key] + Keys(qs[1..]);
  }

  lemma AssignPrefix(base: seq<Prop>, key: string, v: Value)
    ensures |Assign(base, key, v)| >= |base|
    ensures Keys(Assign(base, key, v))[..|base|] == Keys(base)
  {
  }

  lemma PrefixOfPrefix(a: seq<string>, b: seq<string>, c: seq<string>)
    requires |b| >= |a| && b[..|a|] == a
    requires |c| >= |b| && c[..|b|] == b
    ensures c[..|a|] == a
  {
    assert c[..|a|] == c[..|b|][..|a|];
  }

  lemma AssignOnce(base: seq<Prop>, key: string, v: Value, k: string)
    ensures Lookup(Assign(base, key, v), k) == if k == key then Some(v) else Lookup(base, k)
    ensures k in Keys(Assign(base, key, v)) <==> k in Keys(base) || k == key
  {
  }

  /** The assignments keep the keys of `base` first and in order. */
  lemma {:induction false} AssignAllPrefix(base: seq<Prop>, qs: seq<Prop>)
    ensures |AssignAll(base, qs)| >= |base|
    ensures Keys(AssignAll(base, qs))[..|base|] == Keys(base)
    decreases qs
  {
    if qs != [] {
      var next := Assign(base, qs[0].key, qs[0].val);
      AssignAllPrefix(next, qs[1..]);
      AssignPrefix(base, qs[0].key, qs[0].val);
      PrefixOfPrefix(Keys(base), Keys(next), Keys(AssignAll(next, qs[1..])));
    }
  }

  /** The assignments add exactly the keys of `qs`. */
  lemma {:induction false} AssignAllKeys(base: seq<Prop>, qs: seq<Prop>, k: string)
    ensures k in Keys(AssignAll(base, qs)) <==> k in Keys(base) || k in Keys(qs)
    decreases qs
  {
    if qs != [] {
      var next := Assign(base, qs[0].key, qs[0].val);
      AssignAllKeys(next, qs[1..], k);
      LookupCons(qs, k);
      AssignOnce(base, qs[0].key, qs[0].val, k);
    }
  }

  /** The assignments never duplicate a key. */
  lemma {:induction false} AssignAllUnique(base: seq<Prop>, qs: seq<Prop>)
    requires UniqueKeys(base)
    ensures UniqueKeys(AssignAll(base, qs))
    decreases qs
  {
    if qs != [] {
      var next := Assign(base, qs[0].key, qs[0].val);
      assert AssignAll(base, qs) == AssignAll(next, qs[1..]);
      AssignAllUnique(next, qs[1..]);
    }
  }

  // ---------------------------------------------------------------------------
  // Own enumerable properties, as object spread `{...v}` and `Object.keys` see them

  function NatToString(n: nat): (s: string)
    ensures |s| >= 1
    ensures forall i :: 0 <= i < |s| ==> '0' <= s[i] <= '9'
    decreases n
  {
    var d := ['0' + (n % 10) as char];
    if n < 10 then d else NatToString(n / 10) + d
  }

  function IntToString(n: int): string {
    if n < 0 then "-" + NatToString(-n) else NatToString(n)
  }

  /** Own enumerable properties: an object's entries, an array's or a string's
      indices, and none for primitives and FormData. */
  function OwnProps(v: Value): (ps: seq<Prop>)
    ensures v.Obj? ==> ps == v.props
    ensures v.Arr? ==> |ps| == |v.items|
    ensures !(v.Obj? || v.Arr? || v.Str?) ==> ps == []
  {
    match v
    case Obj(ps) => ps
    case Arr(xs) => seq(|xs|, i requires 0 <= i < |xs| => Prop(NatToString(i), xs[i]))
    case Str(s) => seq(|s|, i requires 0 <= i < |s| => Prop(NatToString(i), Str([s[i]])))
    case _ => []
  }

  /** `String(v)`, as a template literal writes a value: arrays are joined with ',' and
      write null and undefined elements as ''. */
  function ToJsString(v: Value): string
    decreases v
  {
    match v
    case Undefined => "undefined"
    case Null => "null"
    case Bool(b) => if b then "true" else "false"
    case Num(n) => IntToString(n)
    case Str(s) => s
    case Arr(xs) => Join(JoinedElements(xs), ",")
    case Obj(_) => "[object Object]"
    case Form => "[object FormData]"
  }

  function JoinedElements(xs: seq<Value>): seq<string>
    decreases xs
  {
    if xs == [] then []
    else [if xs[0].Null? || xs[0].Undefined? then "" else ToJsString(xs[0])] + JoinedElements(xs[1..])
  }

  /** Reading `v[k]` for a key that is not an array index or a prototype member: None
      for the TypeError that reading from null or undefined throws, undefined for a
      key the value does not have. */
  function Member(v: Value, k: string): (r: Option<Value>)
    ensures r.None? <==> v.Null? || v.Undefined?
    ensures v.Obj? ==> r == Some(Lookup(v.props, k).GetOr(Undefined))
  {
    if v.Null? || v.Undefined? then None
    else Some(Lookup(OwnProps(v), k).GetOr(Undefined))
  }

  // ---------------------------------------------------------------------------
  // JSON.stringify

  function HexLower(d: nat): char
    requires d < 16
  {
    if d < 10 then '0' + d as char else 'a' + (d - 10) as char
  }

  /** The escape JSON.stringify writes for one character of a string. */
  function QuoteChar(c: char): string {
    if c == '"' then "\\\""
    else if c == '\\' then "\\\\"
    else if c == '\U{8}' then "\\b"
    else if c == '\U{C}' then "\\f"
    else if c == '\n' then "\\n"
    else if c == '\r' then "\\r"
    else if c == '\t' then "\\t"
    else if (c as int) < 0x20 then "\\u00" + [HexLower((c as int) / 16), HexLower((c as int) % 16)]
    else [c]
  }

  function QuoteChars(s: string): string {
    if s == [] then [] else QuoteChar(s[0]) + QuoteChars(s[1..])
  }

  function Quote(s: string): string {
    "\"" + QuoteChars(s) + "\""
  }

  function Join(parts: seq<string>, sep: string): string {
    if parts == [] then ""
    else if |parts| == 1 then parts[0]
    else parts[0] + sep + Join(parts[1..], sep)
  }

  /** JSON.stringify(v); None stands for the `undefined` it returns for `undefined`. */
  function Stringify(v: Value): Option<string>
    decreases v
  {
    match v
    case Undefined => None
    case Null => Some("null")
    case Bool(b) => Some(if b then "true" else "false")
    case Num(n) => Some(IntToString(n))
    case Str(s) => Some(Quote(s))
    case Arr(xs) => Some("[" + Join(Elements(xs), ",") + "]")
    case Obj(ps) => Some("{" + Join(Members(ps), ",") + "}")
    case Form => Some("{}")
  }

  /** Array elements: `undefined` is written as null. */
  function Elements(xs: seq<Value>): seq<string>
    decreases xs
  {
    if xs == [] then []
    else [Stringify(xs[0]).GetOr("null")] + Elements(xs[1..])
  }

  /** Object members: properties whose value is `undefined` are skipped. */
  function Members(ps: seq<Prop>): seq<string>
    decreases ps
  {
    if ps == [] then []
    else
      var rest := Members(ps[1..]);
      match Stringify(ps[0].val)
      case None => rest
      case Some(s) => [Quote(ps[0].key) + ":" + s] + rest
  }

  // ---------------------------------------------------------------------------
  // JSON.parse(JSON.stringify(v))

  /** The value JSON.parse gives back for the text JSON.stringify writes for `v`:
      FormData becomes `{}`, an undefined array element `null`, and a property whose
      value is undefined disappears. (`undefined` itself has no text; as an array
      element it is read back as null.) */
  function JsonCopy(v: Value): Value
    decreases v
  {
    match v
    case Undefined => Null
    case Arr(xs) => Arr(CopyElements(xs))
    case Obj(ps) => Obj(CopyMembers(ps))
    case Form => Obj([])
    case _ => v
  }

  function CopyElements(xs: seq<Value>): (ys: seq<Value>)
    ensures |ys| == |xs|
    decreases xs
  {
    if xs == [] then [] else [JsonCopy(xs[0])] + CopyElements(xs[1..])
  }

  function CopyMembers(ps: seq<Prop>): seq<Prop>
    decreases ps
  {
    if ps == [] then []
    else (if ps[0].val.Undefined? then [] else [Prop(ps[0].key, JsonCopy(ps[0].val))]) + CopyMembers(ps[1..])
  }

  /** The copy writes the same JSON text as the value it was read from, and keeps its
      truthiness. */
  lemma {:induction false} JsonCopyKeepsText(v: Value)
    requires !v.Undefined?
    ensures Stringify(JsonCopy(v)) == Stringify(v)
    ensures Truthy(JsonCopy(v)) == Truthy(v)
    decreases v
  {
    match v
    case Arr(xs) => CopyElementsKeepText(xs);
    case Obj(ps) => CopyMembersKeepText(ps);
    case Form =>
      assert Members([]) == [] && Join([], ",") == "";
      assert Stringify(Obj([])) == Some("{" + "" + "}");
      assert "{" + "" + "}" == "{}";
    case _ =>
  }

  lemma {:induction false} CopyElementsKeepText(xs: seq<Value>)
    ensures Elements(CopyElements(xs)) == Elements(xs)
    decreases xs
  {
    if xs != [] {
      var ys := CopyElements(xs);
      assert ys[0] == JsonCopy(xs[0]) && ys[1..] == CopyElements(xs[1..]);
      CopyElementsKeepText(xs[1..]);
      if !xs[0].Undefined? {
        JsonCopyKeepsText(xs[0]);
      }
      assert Stringify(ys[0]).GetOr("null") == Stringify(xs[0]).GetOr("null");
      assert Elements(ys) == [Stringify(ys[0]).GetOr("null")] + Elements(ys[1..]);
    }
  }

  lemma {:induction false} CopyMembersKeepText(ps: seq<Prop>)
    ensures Members(CopyMembers(ps)) == Members(ps)
    decreases ps
  {
    if ps != [] {
      var rest := CopyMembers(ps[1..]);
      CopyMembersKeepText(ps[1..]);
      if ps[0].val.Undefined? {
        assert CopyMembers(ps) == rest;
      } else {
        var q := Prop(ps[0].key, JsonCopy(ps[0].val));
        JsonCopyKeepsText(ps[0].val);
        assert CopyMembers(ps) == [q] + rest;
        assert ([q] + rest)[0] == q && ([q] + rest)[1..] == rest;
      }
    }
  }
}
