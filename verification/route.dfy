/**
  Route path constants and the login path builder.

  The redirect target is percent-encoded twice: first by ECMA-262 encodeURIComponent
  (section 19.2.6, URI Handling Functions), then, as the value of the `redirect` query
  parameter, by the application/x-www-form-urlencoded serializer of the WHATWG URL
  Standard (section 5.2), which is what URLSearchParams.toString() uses.
 */
module Route {
  import opened Json

  const Home := "/"
  const Login := "/login"
  const Register := "/register"
  const ForgetPassword := "/forget-password"
  const NotFound := "/404"
  const Forbidden := "/403"
  const ServerError := "/500"

  const RedirectParam := "redirect"

  type Byte = b: int | 0 <= b < 256

  predicate IsAscii(s: string) {
    forall i :: 0 <= i < |s| ==> (s[i] as int) < 0x80
  }

  /** The UTF-8 encoding of one Unicode scalar value. */
  function Utf8(c: char): (bytes: seq<Byte>)
    ensures 1 <= |bytes| <= 4
    ensures (c as int) < 0x80 ==> bytes == [c as int]
    ensures (c as int) >= 0x80 ==> forall i :: 0 <= i < |bytes| ==> bytes[i] >= 0x80
  {
    var cp := c as int;
    if cp < 0x80 then [cp]
    else if cp < 0x800 then [0xC0 + cp / 64, 0x80 + cp % 64]
    else if cp < 0x10000 then [0xE0 + cp / 4096, 0x80 + (cp / 64) % 64, 0x80 + cp % 64]
    else [0xF0 + cp / 262144, 0x80 + (cp / 4096) % 64, 0x80 + (cp / 64) % 64, 0x80 + cp % 64]
  }

  predicate IsAlnum(c: char) {
    ('0' <= c <= '9') || ('A' <= c <= 'Z') || ('a' <= c <= 'z')
  }

  function HexUpper(d: nat): (c: char)
    requires d < 16
  {
    if d < 10 then '0' + d as char else 'A' + (d - 10) as char
  }

  predicate IsHexUpper(c: char) {
    ('0' <= c <= '9') || ('A' <= c <= 'F')
  }

  /** `%XX` with upper-case hexadecimal digits. */
  function PercentByte(b: Byte): string {
    ['%', HexUpper(b / 16), HexUpper(b % 16)]
  }

  // ---------------------------------------------------------------------------
  // encodeURIComponent

  /** The characters encodeURIComponent leaves as they are. */
  predicate UriUnreserved(c: char) {
    IsAlnum(c) || c in "-_.!~*'()"
  }

  function PercentBytes(bs: seq<Byte>): string {
    if bs == [] then [] else PercentByte(bs[0]) + PercentBytes(bs[1..])
  }

  function EncodeUriChar(c: char): string {
    if UriUnreserved(c) then [c] else PercentBytes(Utf8(c))
  }

  function EncodeUriComponent(s: string): string {
    if s == [] then [] else EncodeUriChar(s[0]) + EncodeUriComponent(s[1..])
  }

  // ---------------------------------------------------------------------------
  // application/x-www-form-urlencoded byte serializer

  /** The bytes the serializer leaves as they are: ASCII alphanumerics and `*-._`. */
  predicate FormSafe(c: char) {
    IsAlnum(c) || c in "*-._"
  }

  function FormEncodeBytes(bs: seq<Byte>): string {
    if bs == [] then []
    else
      var b := bs[0];
      (if b == 0x20 then "+" else if b < 0x80 && FormSafe(b as char) then [b as char] else PercentByte(b))
      + FormEncodeBytes(bs[1..])
  }

  function FormEncode(s: string): string {
    if s == [] then [] else FormEncodeBytes(Utf8(s[0])) + FormEncode(s[1..])
  }

  // ---------------------------------------------------------------------------
  // getLoginPath

  /** The login path, carrying `redirect` as a query parameter when it is non-empty. */
  function GetLoginPath(redirect: Option<string>): (r: string)
    ensures |r| >= |Login| && r[..|Login|] == Login
    ensures r == Login <==> redirect.None? || redirect.value == ""
  {
    if redirect.None? || redirect.value == "" then Login
    // The key `redirect` is its own form encoding (RedirectParamEncoded).
    else Login + "?" + RedirectParam + "=" + FormEncode(EncodeUriComponent(redirect.value))
  }

  /** A non-empty redirect becomes the single query parameter `redirect`, whose value is
      the redirect encoded by encodeURIComponent and then by the form serializer. */
  lemma LoginPathWithRedirect(redirect: string)
    requires redirect != ""
    ensures GetLoginPath(Some(redirect)) == "/login?redirect=" + FormEncode(EncodeUriComponent(redirect))
  {
  }

  lemma RedirectParamEncoded()
    ensures FormEncode(RedirectParam) == RedirectParam
  {
    var p := RedirectParam;
    assert forall i :: 0 <= i < |p| ==> 'a' <= p[i] <= 'z';
    FormSafeUnchanged(p);
  }

  // ---------------------------------------------------------------------------
  // Encoding lemmas

  lemma {:induction false} FormSafeUnchanged(s: string)
    requires forall i :: 0 <= i < |s| ==> FormSafe(s[i])
    ensures FormEncode(s) == s
  {
    if s != [] {
      var c := s[0];
      assert Utf8(c) == [c as int];
      assert FormEncodeBytes([c as int]) == [c] + FormEncodeBytes([]);
      assert forall i :: 0 <= i < |s[1..]| ==> s[1..][i] == s[i + 1];
      FormSafeUnchanged(s[1..]);
      assert s == [c] + s[1..];
    }
  }

  lemma {:induction false} UriUnreservedUnchanged(s: string)
    requires forall i :: 0 <= i < |s| ==> UriUnreserved(s[i])
    ensures EncodeUriComponent(s) == s
  {
    if s != [] {
      assert forall i :: 0 <= i < |s[1..]| ==> s[1..][i] == s[i + 1];
      UriUnreservedUnchanged(s[1..]);
      assert s == [s[0]] + s[1..];
    }
  }

  lemma {:induction false} EncodeUriComponentAppend(a: string, b: string)
    ensures EncodeUriComponent(a + b) == EncodeUriComponent(a) + EncodeUriComponent(b)
  {
    if a == [] {
      assert a + b == b;
    } else {
      assert (a + b)[1..] == a[1..] + b;
      EncodeUriComponentAppend(a[1..], b);
    }
  }

  lemma {:induction false} FormEncodeAppend(a: string, b: string)
    ensures FormEncode(a + b) == FormEncode(a) + FormEncode(b)
  {
    if a == [] {
      assert a + b == b;
    } else {
      assert (a + b)[1..] == a[1..] + b;
      FormEncodeAppend(a[1..], b);
    }
  }

  predicate IsLowerWord(d: string) {
    forall i :: 0 <= i < |d| ==> 'a' <= d[i] <= 'z'
  }

  lemma SlashPathEncoded(d: string)
    requires IsLowerWord(d)
    ensures EncodeUriComponent("/" + d) == "%2F" + d
    ensures FormEncode("%2F" + d) == "%252F" + d
  {
    UriUnreservedUnchanged(d);
    EncodeUriComponentAppend("/", d);
    SlashEncoded();
    HexTailUnchanged(d);
    assert "%2F" + d == "%" + ("2F" + d);
    FormEncodeAppend("%", "2F" + d);
    PercentEncoded();
  }

  lemma SlashEncoded()
    ensures EncodeUriComponent("/") == "%2F"
  {
    assert Utf8('/') == [0x2F];
    assert PercentBytes([0x2F]) == PercentByte(0x2F);
  }

  lemma PercentEncoded()
    ensures FormEncode("%") == "%25"
  {
    assert Utf8('%') == [0x25];
    assert !FormSafe('%');
    assert FormEncodeBytes([0x25]) == PercentByte(0x25) + FormEncodeBytes([]);
  }

  lemma HexTailUnchanged(d: string)
    requires IsLowerWord(d)
    ensures FormEncode("2F" + d) == "2F" + d
  {
    FormSafeUnchanged("2F" + d);
  }

  /** A one-segment path such as `/dashboard` reaches the login page encoded twice:
      the slash becomes `%2F` and then `%252F`. */
  lemma SlashPathRedirect(d: string)
    requires IsLowerWord(d)
    ensures GetLoginPath(Some("/" + d)) == "/login?redirect=%252F" + d
  {
    SlashPathEncoded(d);
    LoginPathWithRedirect("/" + d);
  }

  // ---------------------------------------------------------------------------
  // Shape of the query value

  /** A query value made only of ASCII alphanumerics, `*-._` and `%XX` escapes. */
  predicate QuerySafe(v: string) {
    if v == [] then true
    else if v[0] == '%' then |v| >= 3 && IsHexUpper(v[1]) && IsHexUpper(v[2]) && QuerySafe(v[3..])
    else FormSafe(v[0]) && QuerySafe(v[1..])
  }

  lemma {:induction false} QuerySafeAppend(a: string, b: string)
    requires QuerySafe(a) && QuerySafe(b)
    ensures QuerySafe(a + b)
  {
    if a == [] {
      assert a + b == b;
    } else {
      assert (a + b)[0] == a[0];
      if a[0] == '%' {
        assert (a + b)[1] == a[1] && (a + b)[2] == a[2];
        assert (a + b)[3..] == a[3..] + b;
        QuerySafeAppend(a[3..], b);
      } else {
        assert (a + b)[1..] == a[1..] + b;
        QuerySafeAppend(a[1..], b);
      }
    }
  }

  /** A query-safe value holds none of the characters that would end or split it. */
  lemma {:induction false} QuerySafeHasNoDelimiters(v: string)
    requires QuerySafe(v)
    ensures forall i :: 0 <= i < |v| ==> v[i] !in "&#?= +"
  {
    if v != [] {
      if v[0] == '%' {
        QuerySafeHasNoDelimiters(v[3..]);
        assert forall i :: 3 <= i < |v| ==> v[i] == v[3..][i - 3];
      } else {
        QuerySafeHasNoDelimiters(v[1..]);
        assert forall i :: 1 <= i < |v| ==> v[i] == v[1..][i - 1];
      }
    }
  }

  lemma PercentByteSafe(b: Byte)
    ensures QuerySafe(PercentByte(b))
  {
    var p := PercentByte(b);
    assert p[3..] == [];
  }

  lemma {:induction false} FormEncodeBytesSafe(bs: seq<Byte>)
    requires 0x20 !in bs
    ensures QuerySafe(FormEncodeBytes(bs))
  {
    if bs != [] {
      var b := bs[0];
      FormEncodeBytesSafe(bs[1..]);
      if b < 0x80 && FormSafe(b as char) {
        assert QuerySafe([b as char]);
      } else {
        PercentByteSafe(b);
      }
      var head := if b == 0x20 then "+" else if b < 0x80 && FormSafe(b as char) then [b as char] else PercentByte(b);
      QuerySafeAppend(head, FormEncodeBytes(bs[1..]));
    }
  }

  lemma {:induction false} FormEncodeSafe(s: string)
    requires ' ' !in s
    ensures QuerySafe(FormEncode(s))
  {
    if s != [] {
      FormEncodeSafe(s[1..]);
      FormEncodeBytesSafe(Utf8(s[0]));
      QuerySafeAppend(FormEncodeBytes(Utf8(s[0])), FormEncode(s[1..]));
    }
  }

  lemma {:induction false} PercentBytesAscii(bs: seq<Byte>)
    ensures IsAscii(PercentBytes(bs)) && ' ' !in PercentBytes(bs)
  {
    if bs != [] {
      PercentBytesAscii(bs[1..]);
    }
  }

  /** encodeURIComponent produces ASCII with no space. */
  lemma {:induction false} EncodeUriComponentAscii(s: string)
    ensures IsAscii(EncodeUriComponent(s)) && ' ' !in EncodeUriComponent(s)
  {
    if s != [] {
      EncodeUriComponentAscii(s[1..]);
      PercentBytesAscii(Utf8(s[0]));
    }
  }

  /** The redirect parameter's value, for any redirect target, is made only of ASCII
      alphanumerics, `*-._` and `%XX` escapes: no raw '&', '#', '?', '=', '+' or space. */
  lemma RedirectValueIsQuerySafe(redirect: string)
    requires redirect != ""
    ensures
      var r := GetLoginPath(Some(redirect));
      var v := r[|"/login?redirect="|..];
      QuerySafe(v) && forall i :: 0 <= i < |v| ==> v[i] !in "&#?= +"
  {
    var v := FormEncode(EncodeUriComponent(redirect));
    EncodeUriComponentAscii(redirect);
    FormEncodeSafe(EncodeUriComponent(redirect));
    QuerySafeHasNoDelimiters(v);
    LoginPathWithRedirect(redirect);
    assert GetLoginPath(Some(redirect))[|"/login?redirect="|..] == v;
  }

  // ---------------------------------------------------------------------------
  // Decoding, for ASCII text

  function HexValue(c: char): Option<nat> {
    if '0' <= c <= '9' then Some(c as int - '0' as int)
    else if 'A' <= c <= 'F' then Some(c as int - 'A' as int + 10)
    else if 'a' <= c <= 'f' then Some(c as int - 'a' as int + 10)
    else None
  }

  function Prepend(c: char, rest: Option<string>): Option<string> {
    if rest.Some? then Some([c] + rest.value) else None
  }

  /** Percent-decoding of text whose escapes all stand for ASCII bytes: decodeURIComponent
      when `plusIsSpace` is false, the form-urlencoded parser's value decoding when it is
      true. None for a malformed escape or one of a non-ASCII byte (outside this model). */
  function PercentDecode(s: string, plusIsSpace: bool): Option<string> {
    if s == [] then Some([])
    else if s[0] == '%' then
      if |s| >= 3 && HexValue(s[1]).Some? && HexValue(s[2]).Some?
         && HexValue(s[1]).value * 16 + HexValue(s[2]).value < 0x80
      then Prepend((HexValue(s[1]).value * 16 + HexValue(s[2]).value) as char, PercentDecode(s[3..], plusIsSpace))
      else None
    else if s[0] == '+' && plusIsSpace then Prepend(' ', PercentDecode(s[1..], plusIsSpace))
    else Prepend(s[0], PercentDecode(s[1..], plusIsSpace))
  }

  lemma DecodePercentByte(b: Byte, rest: string, plusIsSpace: bool)
    requires b < 0x80
    ensures PercentDecode(PercentByte(b) + rest, plusIsSpace) == Prepend(b as char, PercentDecode(rest, plusIsSpace))
  {
    var s := PercentByte(b) + rest;
    assert s[3..] == rest;
    assert HexValue(HexUpper(b / 16)) == Some(b / 16);
    assert HexValue(HexUpper(b % 16)) == Some(b % 16);
  }

  lemma {:induction false} UriRoundTrip(s: string)
    requires IsAscii(s)
    ensures PercentDecode(EncodeUriComponent(s), false) == Some(s)
  {
    if s != [] {
      var c := s[0];
      var rest := EncodeUriComponent(s[1..]);
      assert IsAscii(s[1..]) by { assert forall i :: 0 <= i < |s[1..]| ==> s[1..][i] == s[i + 1]; }
      UriRoundTrip(s[1..]);
      assert s == [c] + s[1..];
      if UriUnreserved(c) {
        assert ([c] + rest)[0] == c && ([c] + rest)[1..] == rest;
      } else {
        assert Utf8(c) == [c as int];
        assert PercentBytes([c as int]) == PercentByte(c as int);
        DecodePercentByte(c as int, rest, false);
      }
    }
  }

  lemma {:induction false} FormRoundTrip(s: string)
    requires IsAscii(s)
    ensures PercentDecode(FormEncode(s), true) == Some(s)
  {
    if s != [] {
      var c := s[0];
      assert IsAscii(s[1..]) by { assert forall i :: 0 <= i < |s[1..]| ==> s[1..][i] == s[i + 1]; }
      FormRoundTrip(s[1..]);
      FormDecodeChar(c, FormEncode(s[1..]));
      assert s == [c] + s[1..];
    }
  }

  /** The form parser decodes what the serializer wrote for one ASCII character. */
  lemma FormDecodeChar(c: char, rest: string)
    requires (c as int) < 0x80
    ensures PercentDecode(FormEncodeBytes(Utf8(c)) + rest, true) == Prepend(c, PercentDecode(rest, true))
  {
    assert Utf8(c) == [c as int];
    assert FormEncodeBytes([c as int]) ==
      (if c == ' ' then "+" else if FormSafe(c) then [c] else PercentByte(c as int)) + FormEncodeBytes([]);
    if c == ' ' {
      assert ("+" + rest)[0] == '+' && ("+" + rest)[1..] == rest;
    } else if FormSafe(c) {
      assert ([c] + rest)[0] == c && ([c] + rest)[1..] == rest;
    } else {
      DecodePercentByte(c as int, rest, true);
    }
  }

  /** Decoding the redirect parameter as a form value and then with decodeURIComponent
      gives back an ASCII redirect target. */
  lemma RedirectRoundTrip(redirect: string)
    requires redirect != "" && IsAscii(redirect)
    ensures
      var v := GetLoginPath(Some(redirect))[|"/login?redirect="|..];
      var once := PercentDecode(v, true);
      once.Some? && PercentDecode(once.value, false) == Some(redirect)
  {
    EncodeUriComponentAscii(redirect);
    FormRoundTrip(EncodeUriComponent(redirect));
    UriRoundTrip(redirect);
    LoginPathWithRedirect(redirect);
    assert GetLoginPath(Some(redirect))[|"/login?redirect="|..] == FormEncode(EncodeUriComponent(redirect));
  }
}
