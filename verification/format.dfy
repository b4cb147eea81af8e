/**
  String formatters: masking of phone and identity-card numbers, grouping of bank-card
  numbers, HTML escaping, and conversion between camelCase and separated (kebab or
  snake) names, also applied to the keys of nested objects.

  A string is a sequence of characters; JavaScript counts UTF-16 code units, which
  agrees for text without characters outside the Basic Multilingual Plane. Case
  conversion covers the ASCII letters.
 */
module Format {
  import opened Json

  // ---------------------------------------------------------------------------
  // formatPhone, formatIdCard

  /** formatPhone: an 11-character number keeps its first three and last four
      characters, the four between become '*'; any other input is returned as it is. */
  function FormatPhone(phone: string): (r: string)
    ensures |r| == |phone|
    ensures |phone| != 11 ==> r == phone
    ensures |phone| == 11 ==> forall i :: 0 <= i < 11 ==> r[i] == if 3 <= i < 7 then '*' else phone[i]
  {
    if phone == "" || |phone| != 11 then phone
    else phone[..3] + "****" + phone[7..]
  }

  /** formatIdCard: a number of at least 15 characters keeps its first six characters and
      everything from index 14 on, the eight between (the birth date) become '*';
      a shorter input is returned as it is. */
  function FormatIdCard(idCard: string): (r: string)
    ensures |r| == |idCard|
    ensures |idCard| < 15 ==> r == idCard
    ensures |idCard| >= 15 ==> forall i :: 0 <= i < |idCard| ==> r[i] == if 6 <= i < 14 then '*' else idCard[i]
  {
    if idCard == "" || |idCard| < 15 then idCard
    else idCard[..6] + "********" + idCard[14..]
  }

  // ---------------------------------------------------------------------------
  // formatBankCard

  /** The characters the regular expression class `\s` matches (and `trim` removes). */
  predicate IsJsWhitespace(c: char) {
    || c == ' ' || c == '\t' || c == '\n' || c == '\r' || c == '\U{B}' || c == '\U{C}'
    || c == '\U{A0}' || c == '\U{1680}' || ('\U{2000}' <= c <= '\U{200A}')
    || c == '\U{2028}' || c == '\U{2029}' || c == '\U{202F}' || c == '\U{205F}'
    || c == '\U{3000}' || c == '\U{FEFF}'
  }

  /** `s.replace(/\s/g, '')` */
  function RemoveWhitespace(s: string): (r: string)
    ensures forall i :: 0 <= i < |r| ==> !IsJsWhitespace(r[i])
    ensures forall c :: c in r <==> c in s && !IsJsWhitespace(c)
  {
    if s == [] then []
    else
      var rest := RemoveWhitespace(s[1..]);
      assert forall c :: c in s <==> c == s[0] || c in s[1..];
      if IsJsWhitespace(s[0]) then rest else [s[0]] + rest
  }

  /** `s.replace(/(.{4})/g, '$1 ')`, for text without line terminators. */
  function GroupsOfFour(s: string): string
    decreases |s|
  {
    if |s| < 4 then s else s[..4] + " " + GroupsOfFour(s[4..])
  }

  function TrimStart(s: string): string {
    if s != [] && IsJsWhitespace(s[0]) then TrimStart(s[1..]) else s
  }

  function TrimEnd(s: string): string {
    if s != [] && IsJsWhitespace(s[|s| - 1]) then TrimEnd(s[..|s| - 1]) else s
  }

  /** `s.trim()` */
  function Trim(s: string): string {
    TrimEnd(TrimStart(s))
  }

  /** formatBankCard: groups of four characters separated by single spaces, no space at
      either end, and the characters are those of the input without its whitespace. */
  function FormatBankCard(cardNumber: string): (r: string)
    ensures cardNumber == "" ==> r == ""
    ensures forall i :: 0 <= i < |r| ==> (r[i] == ' ' <==> i % 5 == 4)
    ensures r == [] || r[|r| - 1] != ' '
    ensures Unspaced(r) == RemoveWhitespace(cardNumber)
  {
    if cardNumber == "" then ""
    else
      var d := RemoveWhitespace(cardNumber);
      var g := GroupsOfFour(d);
      GroupsTrimmed(d);
      assert IsJsWhitespace(' ');
      BankCardSpacing(d, g, Trim(g));
      BankCardUnspaced(d, g, Trim(g));
      Trim(GroupsOfFour(RemoveWhitespace(cardNumber)))
  }

  /** The text with its spaces removed. */
  function Unspaced(s: string): string {
    if s == [] then [] else (if s[0] == ' ' then [] else [s[0]]) + Unspaced(s[1..])
  }

  lemma {:induction false} UnspacedAppend(a: string, b: string)
    ensures Unspaced(a + b) == Unspaced(a) + Unspaced(b)
  {
    if a == [] {
      assert a + b == b;
    } else {
      assert (a + b)[0] == a[0];
      assert (a + b)[1..] == a[1..] + b;
      UnspacedAppend(a[1..], b);
    }
  }

  lemma {:induction false} UnspacedNoSpace(s: string)
    requires ' ' !in s
    ensures Unspaced(s) == s
  {
    if s != [] {
      UnspacedNoSpace(s[1..]);
    }
  }

  lemma {:induction false} GroupsOfFourLength(d: string)
    ensures |GroupsOfFour(d)| == |d| + |d| / 4
    decreases |d|
  {
    if |d| >= 4 {
      GroupsOfFourLength(d[4..]);
    }
  }

  /** The layout of the groups: a space at every fifth place, the characters in between. */
  lemma {:induction false} GroupsOfFourAt(d: string, i: int)
    requires 0 <= i < |d| + |d| / 4
    ensures |GroupsOfFour(d)| == |d| + |d| / 4
    ensures i % 5 != 4 ==> 0 <= i - i / 5 < |d|
    ensures GroupsOfFour(d)[i] == if i % 5 == 4 then ' ' else d[i - i / 5]
    decreases |d|
  {
    GroupsOfFourLength(d);
    if |d| >= 4 {
      var rest := GroupsOfFour(d[4..]);
      assert GroupsOfFour(d) == d[..4] + " " + rest;
      if i >= 5 {
        GroupsOfFourAt(d[4..], i - 5);
        assert (i - 5) % 5 == i % 5 && (i - 5) / 5 == i / 5 - 1;
      }
    }
  }

  lemma {:induction false} GroupsOfFourUnspaced(d: string)
    requires ' ' !in d
    ensures Unspaced(GroupsOfFour(d)) == d
    decreases |d|
  {
    if |d| < 4 {
      UnspacedNoSpace(d);
    } else {
      var head, tail := d[..4], d[4..];
      assert d == head + tail;
      assert ' ' !in head && ' ' !in tail;
      GroupsOfFourUnspaced(tail);
      UnspacedNoSpace(head);
      assert GroupsOfFour(d) == head + " " + GroupsOfFour(tail);
      UnspacedAppend(head + " ", GroupsOfFour(tail));
      UnspacedAppend(head, " ");
      assert Unspaced(" ") == [];
    }
  }

  /** TrimStart and TrimEnd change nothing in a grouped number that does not end in a space. */
  lemma GroupsTrimmed(d: string)
    requires forall i :: 0 <= i < |d| ==> !IsJsWhitespace(d[i])
    ensures
      var g := GroupsOfFour(d);
      Trim(g) == if g != [] && g[|g| - 1] == ' ' then g[..|g| - 1] else g
  {
    var g := GroupsOfFour(d);
    GroupsOfFourLength(d);
    if g != [] {
      GroupsOfFourAt(d, 0);
      assert TrimStart(g) == g;
      GroupsOfFourAt(d, |g| - 1);
      if g[|g| - 1] == ' ' {
        var t := g[..|g| - 1];
        GroupsOfFourAt(d, |g| - 2);
        assert t[|t| - 1] == g[|g| - 2];
        assert TrimEnd(t) == t;
      }
    }
  }

  lemma BankCardSpacing(d: string, g: string, r: string)
    requires forall i :: 0 <= i < |d| ==> d[i] != ' '
    requires g == GroupsOfFour(d)
    requires r == if g != [] && g[|g| - 1] == ' ' then g[..|g| - 1] else g
    ensures forall i :: 0 <= i < |r| ==> (r[i] == ' ' <==> i % 5 == 4)
    ensures r == [] || r[|r| - 1] != ' '
  {
    forall i | 0 <= i < |r| ensures r[i] == ' ' <==> i % 5 == 4 {
      GroupsSpaceAt(d, g, r, i);
    }
    NoTrailingSpace(d, g, r);
  }

  lemma NoTrailingSpace(d: string, g: string, r: string)
    requires forall i :: 0 <= i < |d| ==> d[i] != ' '
    requires g == GroupsOfFour(d)
    requires r == if g != [] && g[|g| - 1] == ' ' then g[..|g| - 1] else g
    ensures r == [] || r[|r| - 1] != ' '
  {
    if g != [] && g[|g| - 1] == ' ' && r != [] {
      TrailingSpaceAtFifth(d);
      FifthPlaceBefore(|g| - 1);
      GroupsSpaceAt(d, g, r, |r| - 1);
    }
  }

  lemma TrailingSpaceAtFifth(d: string)
    requires forall i :: 0 <= i < |d| ==> d[i] != ' '
    requires GroupsOfFour(d) != [] && GroupsOfFour(d)[|GroupsOfFour(d)| - 1] == ' '
    ensures (|GroupsOfFour(d)| - 1) % 5 == 4
  {
    GroupsOfFourLength(d);
    GroupsOfFourAt(d, |GroupsOfFour(d)| - 1);
  }

  lemma FifthPlaceBefore(n: int)
    requires n % 5 == 4
    ensures (n - 1) % 5 == 3
  {
  }

  lemma GroupsSpaceAt(d: string, g: string, r: string, i: int)
    requires forall i :: 0 <= i < |d| ==> d[i] != ' '
    requires g == GroupsOfFour(d)
    requires r == if g != [] && g[|g| - 1] == ' ' then g[..|g| - 1] else g
    requires 0 <= i < |r|
    ensures r[i] == ' ' <==> i % 5 == 4
  {
    GroupsOfFourLength(d);
    assert r[i] == g[i];
    GroupsOfFourAt(d, i);
  }

  lemma BankCardUnspaced(d: string, g: string, r: string)
    requires forall i :: 0 <= i < |d| ==> !IsJsWhitespace(d[i])
    requires g == GroupsOfFour(d)
    requires r == if g != [] && g[|g| - 1] == ' ' then g[..|g| - 1] else g
    ensures Unspaced(r) == d
  {
    assert IsJsWhitespace(' ');
    assert ' ' !in d;
    GroupsOfFourUnspaced(d);
    if r != g {
      assert g == r + " ";
      UnspacedAppend(r, " ");
    }
  }

  // ---------------------------------------------------------------------------
  // formatSafeHtml

  /** `s.replace(new RegExp(c, 'g'), entity)` */
  function ReplaceAll(s: string, c: char, entity: string): string {
    if s == [] then [] else (if s[0] == c then entity else [s[0]]) + ReplaceAll(s[1..], c, entity)
  }

  /** formatSafeHtml: '&' first, then '<', '>', '"' and "'". Escaping '&' first means
      every character is escaped exactly once, so unescaping the five entities gives
      the text back, and the result holds none of the four markup characters. */
  function FormatSafeHtml(html: string): (r: string)
    ensures r == Escape(html)
    ensures Unescape(r) == html
    ensures forall i :: 0 <= i < |r| ==> r[i] !in "<>\"'"
  {
    if html == "" then ""
    else
      PassesIsEscape(html);
      EscapeRoundTrip(html);
      EscapeIsInert(html);
      ReplaceAll(ReplaceAll(ReplaceAll(ReplaceAll(ReplaceAll(html, '&', "&amp;"), '<', "&lt;"), '>', "&gt;"), '"', "&quot;"), '\'', "&#039;")
  }

  /** The entity of one character, in a single pass. */
  function EscapeChar(c: char): string {
    if c == '&' then "&amp;"
    else if c == '<' then "&lt;"
    else if c == '>' then "&gt;"
    else if c == '"' then "&quot;"
    else if c == '\'' then "&#039;"
    else [c]
  }

  function Escape(s: string): string {
    if s == [] then [] else EscapeChar(s[0]) + Escape(s[1..])
  }

  lemma {:induction false} ReplaceAllAppend(a: string, b: string, c: char, entity: string)
    ensures ReplaceAll(a + b, c, entity) == ReplaceAll(a, c, entity) + ReplaceAll(b, c, entity)
  {
    if a == [] {
      assert a + b == b;
    } else {
      assert (a + b)[0] == a[0];
      assert (a + b)[1..] == a[1..] + b;
      ReplaceAllAppend(a[1..], b, c, entity);
    }
  }

  lemma {:induction false} ReplaceAllAbsent(s: string, c: char, entity: string)
    requires c !in s
    ensures ReplaceAll(s, c, entity) == s
  {
    if s != [] {
      ReplaceAllAbsent(s[1..], c, entity);
    }
  }

  function Passes(s: string): string {
    ReplaceAll(ReplaceAll(ReplaceAll(ReplaceAll(ReplaceAll(s, '&', "&amp;"), '<', "&lt;"), '>', "&gt;"), '"', "&quot;"), '\'', "&#039;")
  }

  lemma PassesAppend(a: string, b: string)
    ensures Passes(a + b) == Passes(a) + Passes(b)
  {
    var a1, b1 := ReplaceAll(a, '&', "&amp;"), ReplaceAll(b, '&', "&amp;");
    ReplaceAllAppend(a, b, '&', "&amp;");
    var a2, b2 := ReplaceAll(a1, '<', "&lt;"), ReplaceAll(b1, '<', "&lt;");
    ReplaceAllAppend(a1, b1, '<', "&lt;");
    var a3, b3 := ReplaceAll(a2, '>', "&gt;"), ReplaceAll(b2, '>', "&gt;");
    ReplaceAllAppend(a2, b2, '>', "&gt;");
    var a4, b4 := ReplaceAll(a3, '"', "&quot;"), ReplaceAll(b3, '"', "&quot;");
    ReplaceAllAppend(a3, b3, '"', "&quot;");
    ReplaceAllAppend(a4, b4, '\'', "&#039;");
  }

  lemma ReplaceAllOne(c: char, x: char, entity: string)
    ensures ReplaceAll([c], x, entity) == if c == x then entity else [c]
  {
    assert [c][1..] == [];
  }

  /** The characters the five passes replace, in order, and the entity each writes. */
  const Specials: string := "&<>\"'"
  const Entities: seq<string> := ["&amp;", "&lt;", "&gt;", "&quot;", "&#039;"]

  /** The passes from the `j`-th on. */
  function PassesFrom(s: string, j: nat): string
    decreases 5 - j
  {
    if j >= 5 then s
    else PassesFrom(ReplaceAll(s, Specials[j], Entities[j]), j + 1)
  }

  lemma PassesAreFive(s: string)
    ensures Passes(s) == PassesFrom(s, 0)
  {
    var s1 := ReplaceAll(s, Specials[0], Entities[0]);
    var s2 := ReplaceAll(s1, Specials[1], Entities[1]);
    var s3 := ReplaceAll(s2, Specials[2], Entities[2]);
    var s4 := ReplaceAll(s3, Specials[3], Entities[3]);
    var s5 := ReplaceAll(s4, Specials[4], Entities[4]);
    assert PassesFrom(s4, 4) == PassesFrom(s5, 5) == s5;
    assert PassesFrom(s, 0) == PassesFrom(s1, 1) == PassesFrom(s2, 2) == PassesFrom(s3, 3) == PassesFrom(s4, 4);
  }

  /** One character through the five passes: an entity written by one pass holds no
      character a later pass replaces. */
  lemma PassesChar(c: char)
    ensures Passes([c]) == EscapeChar(c)
  {
    if c == '&' {
      PassesEntity(0);
    } else if c == '<' {
      PassesEntity(1);
    } else if c == '>' {
      PassesEntity(2);
    } else if c == '"' {
      PassesEntity(3);
    } else if c == '\'' {
      PassesEntity(4);
    } else {
      var s1 := ReplaceAll([c], '&', "&amp;");
      ReplaceAllOne(c, '&', "&amp;");
      var s2 := ReplaceAll(s1, '<', "&lt;");
      ReplaceAllOne(c, '<', "&lt;");
      var s3 := ReplaceAll(s2, '>', "&gt;");
      ReplaceAllOne(c, '>', "&gt;");
      var s4 := ReplaceAll(s3, '"', "&quot;");
      ReplaceAllOne(c, '"', "&quot;");
      ReplaceAllOne(c, '\'', "&#039;");
    }
  }

  /** A special character: the passes before its own leave it alone, its own writes the
      entity, and the passes after it find none of their characters in the entity. */
  lemma PassesEntity(k: nat)
    requires k < 5
    ensures Passes([Specials[k]]) == Entities[k]
  {
    var c := Specials[k];
    PassesAreFive([c]);
    PassesBefore(k, 0);
    ReplaceAllOne(c, c, Entities[k]);
    PassesAfter(k, k + 1);
  }

  lemma {:induction false} PassesBefore(k: nat, j: nat)
    requires j <= k < 5
    ensures PassesFrom([Specials[k]], j) == PassesFrom([Specials[k]], k)
    decreases k - j
  {
    if j < k {
      SpecialsDistinct(j, k);
      ReplaceAllOne(Specials[k], Specials[j], Entities[j]);
      PassesBefore(k, j + 1);
    }
  }

  lemma {:induction false} PassesAfter(k: nat, j: nat)
    requires k < j <= 5
    ensures PassesFrom(Entities[k], j) == Entities[k]
    decreases 5 - j
  {
    if j < 5 {
      EntityLacksLater(k, j);
      ReplaceAllAbsent(Entities[k], Specials[j], Entities[j]);
      PassesAfter(k, j + 1);
    }
  }

  lemma SpecialsDistinct(j: nat, k: nat)
    requires j < k < 5
    ensures Specials[j] != Specials[k]
  {
  }

  /** No entity holds a character that a later pass replaces. */
  lemma EntityLacksLater(k: nat, j: nat)
    requires k < j < 5
    ensures Specials[j] !in Entities[k]
  {
    var e := Entities[k];
    assert forall i :: 0 <= i < |e| ==> e[i] == '&' || e[i] == ';' || 'a' <= e[i] <= 'z' || '0' <= e[i] <= '9' || e[i] == '#';
  }

  /** The five passes escape every character exactly once: no entity written by a pass
      is escaped again. */
  lemma {:induction false} PassesIsEscape(s: string)
    ensures Passes(s) == Escape(s)
  {
    if s == [] {
      assert Passes([]) == [];
    } else {
      PassesIsEscape(s[1..]);
      assert s == [s[0]] + s[1..];
      PassesAppend([s[0]], s[1..]);
      PassesChar(s[0]);
    }
  }

  /** The escaped text holds no '<', '>', '"' or "'". */
  lemma {:induction false} EscapeIsInert(s: string)
    ensures forall i :: 0 <= i < |Escape(s)| ==> Escape(s)[i] !in "<>\"'"
  {
    if s != [] {
      EscapeIsInert(s[1..]);
      var e := EscapeChar(s[0]);
      assert forall i :: 0 <= i < |e| ==> e[i] !in "<>\"'";
      assert Escape(s) == e + Escape(s[1..]);
    }
  }

  /** Replaces the five entities by their characters, scanning left to right. */
  function Unescape(s: string): string
    decreases |s|
  {
    if s == [] then []
    else if |s| >= 5 && s[..5] == "&amp;" then "&" + Unescape(s[5..])
    else if |s| >= 4 && s[..4] == "&lt;" then "<" + Unescape(s[4..])
    else if |s| >= 4 && s[..4] == "&gt;" then ">" + Unescape(s[4..])
    else if |s| >= 6 && s[..6] == "&quot;" then "\"" + Unescape(s[6..])
    else if |s| >= 6 && s[..6] == "&#039;" then "'" + Unescape(s[6..])
    else [s[0]] + Unescape(s[1..])
  }

  lemma UnescapeEntity(e: string, c: char, rest: string)
    requires e == EscapeChar(c)
    ensures Unescape(e + rest) == [c] + Unescape(rest)
  {
    var s := e + rest;
    assert s[|e|..] == rest;
    if c == '&' {
      assert s[..5] == "&amp;";
    } else if c == '<' {
      assert s[..4] == "&lt;";
      assert s[1] == 'l' && "&amp;"[1] == 'a';
    } else if c == '>' {
      assert s[..4] == "&gt;";
      assert s[1] == 'g' && "&amp;"[1] == 'a' && "&lt;"[1] == 'l';
    } else if c == '"' {
      assert s[..6] == "&quot;";
      assert s[1] == 'q' && "&amp;"[1] == 'a' && "&lt;"[1] == 'l' && "&gt;"[1] == 'g';
    } else if c == '\'' {
      assert s[..6] == "&#039;";
      assert s[1] == '#' && "&amp;"[1] == 'a' && "&lt;"[1] == 'l' && "&gt;"[1] == 'g' && "&quot;"[1] == 'q';
    } else {
      assert s[0] == c && s[1..] == rest;
      assert "&amp;"[0] == '&' && "&lt;"[0] == '&' && "&gt;"[0] == '&' && "&quot;"[0] == '&' && "&#039;"[0] == '&';
    }
  }

  lemma {:induction false} EscapeRoundTrip(s: string)
    ensures Unescape(Escape(s)) == s
  {
    if s != [] {
      EscapeRoundTrip(s[1..]);
      UnescapeEntity(EscapeChar(s[0]), s[0], Escape(s[1..]));
      assert s == [s[0]] + s[1..];
    }
  }

  // ---------------------------------------------------------------------------
  // formatCamelToKebab, formatKebabToCamel and the snake_case variants

  predicate IsUpper(c: char) { 'A' <= c <= 'Z' }
  predicate IsLower(c: char) { 'a' <= c <= 'z' }

  function ToLower(c: char): (r: char)
    ensures !IsUpper(r)
  {
    if IsUpper(c) then (c as int + 32) as char else c
  }

  function ToUpper(c: char): (r: char)
    ensures IsLower(c) ==> IsUpper(r)
  {
    if IsLower(c) then (c as int - 32) as char else c
  }

  /** `s.replace(/([A-Z])/g, sep + '$1')` */
  function MarkUpper(s: string, sep: char): string {
    if s == [] then [] else (if IsUpper(s[0]) then [sep, s[0]] else [s[0]]) + MarkUpper(s[1..], sep)
  }

  /** `s.toLowerCase()` */
  function LowerAll(s: string): (r: string)
    ensures |r| == |s|
    ensures forall i :: 0 <= i < |r| ==> !IsUpper(r[i])
  {
    if s == [] then [] else [ToLower(s[0])] + LowerAll(s[1..])
  }

  /** formatCamelToKebab with sep '-'; the key conversion to snake_case with sep '_'. */
  function CamelToSeparated(s: string, sep: char): (r: string)
    ensures forall i :: 0 <= i < |r| ==> !IsUpper(r[i])
  {
    LowerAll(MarkUpper(s, sep))
  }

  /** formatCamelToKebab: no capital is left, and an ASCII name without '-' converts
      back to itself. */
  function FormatCamelToKebab(s: string): (r: string)
    ensures forall i :: 0 <= i < |r| ==> !IsUpper(r[i])
    ensures AsciiWithout(s, '-') ==> FormatKebabToCamel(r) == s
  {
    CamelRoundTripAscii(s, '-');
    CamelToSeparated(s, '-')
  }

  predicate AsciiWithout(s: string, sep: char) {
    forall i :: 0 <= i < |s| ==> (s[i] as int) < 0x80 && s[i] != sep
  }

  /** formatKebabToCamel with sep '-' (`s.replace(/-([a-z])/g, l => l.toUpperCase())`);
      the key conversion to camelCase with sep '_'. No separator followed by a lower-case
      letter is left. */
  function SeparatedToCamel(s: string, sep: char): (r: string)
    requires !IsLower(sep) && !IsUpper(sep)
    ensures |r| <= |s|
    ensures s != [] && s[0] != sep ==> r != [] && r[0] == s[0]
    ensures s != [] && s[0] == sep ==> r != [] && (r[0] == sep || IsUpper(r[0]))
    ensures NoSeparatedLower(r, sep)
    decreases |s|
  {
    if s == [] then []
    else if s[0] == sep && |s| >= 2 && IsLower(s[1]) then
      var rest := SeparatedToCamel(s[2..], sep);
      assert forall i :: 1 <= i < |[ToUpper(s[1])] + rest| ==> ([ToUpper(s[1])] + rest)[i] == rest[i - 1];
      [ToUpper(s[1])] + rest
    else
      var rest := SeparatedToCamel(s[1..], sep);
      assert s[0] == sep && rest != [] ==> s[1..][0] == s[1] && !IsLower(s[1]) && !IsLower(rest[0]);
      [s[0]] + rest
  }

  /** No separator is followed by a lower-case letter. */
  predicate NoSeparatedLower(s: string, sep: char) {
    forall i :: 0 <= i < |s| - 1 && s[i] == sep ==> !IsLower(s[i + 1])
  }

  /** Text with no separator followed by a lower-case letter is left as it is. */
  lemma {:induction false} SeparatedToCamelUnchanged(s: string, sep: char)
    requires !IsLower(sep) && !IsUpper(sep)
    ensures NoSeparatedLower(s, sep) ==> SeparatedToCamel(s, sep) == s
    decreases |s|
  {
    if s != [] && NoSeparatedLower(s, sep) {
      assert forall i :: 0 <= i < |s[1..]| ==> s[1..][i] == s[i + 1];
      SeparatedToCamelUnchanged(s[1..], sep);
      assert s == [s[0]] + s[1..];
    }
  }

  /** The conversion works piece by piece: text that does not end in the separator
      converts independently of what follows it. */
  lemma {:induction false} SeparatedToCamelAppend(a: string, b: string, sep: char)
    requires !IsLower(sep) && !IsUpper(sep)
    requires a == [] || a[|a| - 1] != sep
    ensures SeparatedToCamel(a + b, sep) == SeparatedToCamel(a, sep) + SeparatedToCamel(b, sep)
    decreases |a|
  {
    if a == [] {
      assert a + b == b;
    } else if a[0] == sep && |a| >= 2 && IsLower(a[1]) {
      SeparatedToCamelAppend(a[2..], b, sep);
      AppendPastPair(a, b, sep);
    } else {
      SeparatedToCamelAppend(a[1..], b, sep);
      AppendPastOne(a, b, sep);
    }
  }

  /** The step of SeparatedToCamelAppend past a separator and the letter it capitalises. */
  lemma AppendPastPair(a: string, b: string, sep: char)
    requires !IsLower(sep) && !IsUpper(sep)
    requires |a| >= 2 && a[0] == sep && IsLower(a[1])
    requires SeparatedToCamel(a[2..] + b, sep) == SeparatedToCamel(a[2..], sep) + SeparatedToCamel(b, sep)
    ensures SeparatedToCamel(a + b, sep) == SeparatedToCamel(a, sep) + SeparatedToCamel(b, sep)
  {
    var u, t := [ToUpper(a[1])], a[2..];
    assert SeparatedToCamel(a + b, sep) == u + SeparatedToCamel(t + b, sep) by {
      DropAppend(a, b, 2);
      PairStep(a + b, sep);
    }
    assert SeparatedToCamel(a, sep) == u + SeparatedToCamel(t, sep) by {
      PairStep(a, sep);
    }
    Reassociate(u, SeparatedToCamel(t, sep), SeparatedToCamel(b, sep));
  }

  /** The step of SeparatedToCamelAppend past a character it keeps. */
  lemma AppendPastOne(a: string, b: string, sep: char)
    requires !IsLower(sep) && !IsUpper(sep)
    requires a != [] && a[|a| - 1] != sep
    requires !(a[0] == sep && |a| >= 2 && IsLower(a[1]))
    requires SeparatedToCamel(a[1..] + b, sep) == SeparatedToCamel(a[1..], sep) + SeparatedToCamel(b, sep)
    ensures SeparatedToCamel(a + b, sep) == SeparatedToCamel(a, sep) + SeparatedToCamel(b, sep)
  {
    var u, t := [a[0]], a[1..];
    assert SeparatedToCamel(a + b, sep) == u + SeparatedToCamel(t + b, sep) by {
      DropAppend(a, b, 1);
      KeptStep(a + b, sep);
    }
    assert SeparatedToCamel(a, sep) == u + SeparatedToCamel(t, sep) by {
      KeptStep(a, sep);
    }
    Reassociate(u, SeparatedToCamel(t, sep), SeparatedToCamel(b, sep));
  }

  lemma Reassociate(u: string, x: string, y: string)
    ensures u + (x + y) == (u + x) + y
  {
  }

  lemma DropAppend(a: string, b: string, k: nat)
    requires k <= |a|
    ensures (a + b)[k..] == a[k..] + b
    ensures forall i :: 0 <= i < |a| ==> (a + b)[i] == a[i]
  {
  }

  lemma PairStep(s: string, sep: char)
    requires !IsLower(sep) && !IsUpper(sep)
    requires |s| >= 2 && s[0] == sep && IsLower(s[1])
    ensures SeparatedToCamel(s, sep) == [ToUpper(s[1])] + SeparatedToCamel(s[2..], sep)
  {
  }

  lemma KeptStep(s: string, sep: char)
    requires !IsLower(sep) && !IsUpper(sep)
    requires s != [] && !(s[0] == sep && |s| >= 2 && IsLower(s[1]))
    ensures SeparatedToCamel(s, sep) == [s[0]] + SeparatedToCamel(s[1..], sep)
  {
  }

  /** formatKebabToCamel: no '-' followed by a lower-case letter is left, and text with
      none is returned as it is. */
  function FormatKebabToCamel(s: string): (r: string)
    ensures |r| <= |s|
    ensures NoSeparatedLower(r, '-')
    ensures NoSeparatedLower(s, '-') ==> r == s
  {
    SeparatedToCamelUnchanged(s, '-');
    SeparatedToCamel(s, '-')
  }

  lemma {:induction false} MarkUpperAppend(a: string, b: string, sep: char)
    ensures MarkUpper(a + b, sep) == MarkUpper(a, sep) + MarkUpper(b, sep)
  {
    if a == [] {
      assert a + b == b;
    } else {
      assert (a + b)[0] == a[0];
      assert (a + b)[1..] == a[1..] + b;
      MarkUpperAppend(a[1..], b, sep);
    }
  }

  lemma {:induction false} LowerAllAppend(a: string, b: string)
    ensures LowerAll(a + b) == LowerAll(a) + LowerAll(b)
  {
    if a == [] {
      assert a + b == b;
    } else {
      assert (a + b)[0] == a[0];
      assert (a + b)[1..] == a[1..] + b;
      LowerAllAppend(a[1..], b);
    }
  }

  /** One character of the conversion: a capital becomes the separator and its lower case. */
  lemma CamelToSeparatedStep(s: string, sep: char)
    requires s != [] && !IsUpper(sep)
    ensures CamelToSeparated(s, sep) ==
      (if IsUpper(s[0]) then [sep, ToLower(s[0])] else [ToLower(s[0])]) + CamelToSeparated(s[1..], sep)
  {
    assert s == [s[0]] + s[1..];
    MarkUpperAppend([s[0]], s[1..], sep);
    var head := if IsUpper(s[0]) then [sep, s[0]] else [s[0]];
    assert MarkUpper([s[0]], sep) == head + MarkUpper([], sep);
    LowerAllAppend(head, MarkUpper(s[1..], sep));
    if IsUpper(s[0]) {
      assert LowerAll(head) == [ToLower(sep)] + LowerAll([s[0]]);
    }
  }

  /** Converting to the separated form and back gives the original ASCII name, when it
      does not contain the separator. */
  lemma {:induction false} CamelRoundTrip(s: string, sep: char)
    requires forall i :: 0 <= i < |s| ==> (s[i] as int) < 0x80 && s[i] != sep
    requires !IsUpper(sep) && !IsLower(sep)
    ensures SeparatedToCamel(CamelToSeparated(s, sep), sep) == s
  {
    if s != [] {
      var c := s[0];
      var rest := CamelToSeparated(s[1..], sep);
      assert forall i :: 0 <= i < |s[1..]| ==> s[1..][i] == s[i + 1];
      CamelRoundTrip(s[1..], sep);
      CamelToSeparatedStep(s, sep);
      if IsUpper(c) {
        var t := [sep, ToLower(c)] + rest;
        assert t[0] == sep && t[1] == ToLower(c) && IsLower(t[1]) && t[2..] == rest;
        assert ToUpper(ToLower(c)) == c;
      } else {
        var t := [ToLower(c)] + rest;
        assert ToLower(c) == c;
        assert t[0] == c && t[1..] == rest;
      }
      assert s == [c] + s[1..];
    }
  }

  lemma CamelRoundTripAscii(s: string, sep: char)
    requires !IsUpper(sep) && !IsLower(sep)
    ensures AsciiWithout(s, sep) ==> SeparatedToCamel(CamelToSeparated(s, sep), sep) == s
  {
    if AsciiWithout(s, sep) {
      CamelRoundTrip(s, sep);
    }
  }

  // ---------------------------------------------------------------------------
  // formatObjectKeysToSnake, formatObjectKeysToCamel

  datatype KeyStyle = Snake | Camel

  function Rename(style: KeyStyle, key: string): string {
    match style
    case Snake => CamelToSeparated(key, '_')
    case Camel => SeparatedToCamel(key, '_')
  }

  /** Converts the keys of an object and, recursively, of the objects and arrays it
      holds; anything that is not a non-null object is returned as it is. FormData has
      no own enumerable keys and becomes `{}`. */
  function ConvertKeys(v: Value, style: KeyStyle): (r: Value)
    ensures !Truthy(v) || !IsObjectType(v) ==> r == v
    ensures v.Arr? ==> r.Arr? && |r.items| == |v.items|
    ensures v.Obj? || v.Form? ==> r.Obj? && UniqueKeys(r.props)
    decreases v
  {
    if !Truthy(v) || !IsObjectType(v) then v
    else
      match v
      case Arr(xs) => Arr(ConvertItems(xs, style))
      case Obj(ps) =>
        AssignAllUnique([], ConvertEntries(ps, style));
        Obj(AssignAll([], ConvertEntries(ps, style)))
      case _ => Obj([])
  }

  function ConvertItems(xs: seq<Value>, style: KeyStyle): (ys: seq<Value>)
    ensures |ys| == |xs|
    decreases xs
  {
    if xs == [] then [] else [ConvertKeys(xs[0], style)] + ConvertItems(xs[1..], style)
  }

  /** Each own entry with its key renamed and its value converted, in key order. */
  function ConvertEntries(ps: seq<Prop>, style: KeyStyle): (qs: seq<Prop>)
    ensures |qs| == |ps|
    decreases ps
  {
    if ps == [] then []
    else [Prop(Rename(style, ps[0].key), ConvertKeys(ps[0].val, style))] + ConvertEntries(ps[1..], style)
  }

  /** Arrays are converted element by element. */
  lemma {:induction false} ConvertItemsAt(xs: seq<Value>, style: KeyStyle, i: nat)
    requires i < |xs|
    ensures ConvertItems(xs, style)[i] == ConvertKeys(xs[i], style)
  {
    if i > 0 {
      ConvertItemsAt(xs[1..], style, i - 1);
    }
  }

  lemma {:induction false} ConvertEntriesAt(ps: seq<Prop>, style: KeyStyle, i: nat)
    requires i < |ps|
    ensures ConvertEntries(ps, style)[i] == Prop(Rename(style, ps[i].key), ConvertKeys(ps[i].val, style))
  {
    if i > 0 {
      ConvertEntriesAt(ps[1..], style, i - 1);
    }
  }

  /** An object's converted keys are exactly its renamed keys, each holding the converted
      value of the last entry renamed to it. */
  lemma ConvertObject(ps: seq<Prop>, style: KeyStyle, k: string)
    ensures
      var r := ConvertKeys(Obj(ps), style).props;
      && (k in Keys(r) <==> exists i :: 0 <= i < |ps| && Rename(style, ps[i].key) == k)
      && Lookup(r, k) == Lookup(ConvertEntries(ps, style), k)
  {
    var qs := ConvertEntries(ps, style);
    ConvertObjectProps(ps, style);
    AssignAllKeys([], qs, k);
    AssignAllLookup([], qs, k);
    RenamedKeys(ps, style, k);
  }

  lemma ConvertObjectProps(ps: seq<Prop>, style: KeyStyle)
    ensures ConvertKeys(Obj(ps), style) == Obj(AssignAll([], ConvertEntries(ps, style)))
  {
  }

  lemma RenamedKeys(ps: seq<Prop>, style: KeyStyle, k: string)
    ensures k in Keys(ConvertEntries(ps, style)) <==> exists i :: 0 <= i < |ps| && Rename(style, ps[i].key) == k
  {
    var qs := ConvertEntries(ps, style);
    if k in Keys(qs) {
      var i :| 0 <= i < |qs| && Keys(qs)[i] == k;
      ConvertEntriesAt(ps, style, i);
    }
    if exists i :: 0 <= i < |ps| && Rename(style, ps[i].key) == k {
      var i :| 0 <= i < |ps| && Rename(style, ps[i].key) == k;
      ConvertEntriesAt(ps, style, i);
      assert Keys(qs)[i] == k;
    }
  }

  /** formatObjectKeysToSnake: a non-object is returned as it is; an object's keys hold
      no capital and no key appears twice. */
  function FormatObjectKeysToSnake(v: Value): (r: Value)
    ensures !Truthy(v) || !IsObjectType(v) ==> r == v
    ensures v.Obj? ==> r.Obj? && UniqueKeys(r.props)
    ensures v.Obj? ==> forall k :: k in Keys(r.props) ==> forall i :: 0 <= i < |k| ==> !IsUpper(k[i])
  {
    if v.Obj? then SnakeKeys(v.props); ConvertKeys(v, Snake) else ConvertKeys(v, Snake)
  }

  /** formatObjectKeysToCamel: a non-object is returned as it is; in an object's keys no
      '_' is followed by a lower-case letter and no key appears twice. */
  function FormatObjectKeysToCamel(v: Value): (r: Value)
    ensures !Truthy(v) || !IsObjectType(v) ==> r == v
    ensures v.Obj? ==> r.Obj? && UniqueKeys(r.props)
    ensures v.Obj? ==> forall k :: k in Keys(r.props) ==> NoSeparatedLower(k, '_')
  {
    if v.Obj? then CamelKeys(v.props); ConvertKeys(v, Camel) else ConvertKeys(v, Camel)
  }

  lemma SnakeKeys(ps: seq<Prop>)
    ensures forall k :: k in Keys(ConvertKeys(Obj(ps), Snake).props) ==> forall i :: 0 <= i < |k| ==> !IsUpper(k[i])
  {
    forall k | k in Keys(ConvertKeys(Obj(ps), Snake).props)
      ensures forall i :: 0 <= i < |k| ==> !IsUpper(k[i])
    {
      ConvertObject(ps, Snake, k);
    }
  }

  lemma CamelKeys(ps: seq<Prop>)
    ensures forall k :: k in Keys(ConvertKeys(Obj(ps), Camel).props) ==> NoSeparatedLower(k, '_')
  {
    forall k | k in Keys(ConvertKeys(Obj(ps), Camel).props)
      ensures NoSeparatedLower(k, '_')
    {
      ConvertObject(ps, Camel, k);
    }
  }
}
