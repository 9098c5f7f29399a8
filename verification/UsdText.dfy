/**
 `usd_str`: the USD string literal of an arbitrary value. The five chained replacements are
 one per-character escape with a left inverse, and a reader that skips the literal from its
 opening quote ends exactly past its closing quote.
 */
module UsdText {
  /** Python's `str.replace` for a one-character pattern. */
  function Replace(s: string, c: char, sub: string): string {
    if s == "" then "" else (if s[0] == c then sub else [s[0]]) + Replace(s[1..], c, sub)
  }

  function Escaped(value: string): string {
    Replace(Replace(Replace(Replace(Replace(value, '\\', "\\\\"), '"', "\\\""), '\n', "\\n"), '\r', "\\r"), '\t', "\\t")
  }

  function UsdStr(value: string): string { "\"" + Escaped(value) + "\"" }

  // ---- One map per character -----------------------------------------------

  function EscapeChar(c: char): string {
    if c == '\\' then "\\\\" else if c == '"' then "\\\"" else if c == '\n' then "\\n"
    else if c == '\r' then "\\r" else if c == '\t' then "\\t" else [c]
  }

  function EscapeAll(s: string): string {
    if s == "" then "" else EscapeChar(s[0]) + EscapeAll(s[1..])
  }

  function ReplaceChar(x: char, c: char, sub: string): string { if x == c then sub else [x] }

  lemma ReplaceCons(x: char, s: string, c: char, sub: string)
    ensures Replace([x] + s, c, sub) == ReplaceChar(x, c, sub) + Replace(s, c, sub)
  {
    assert ([x] + s)[1..] == s;
  }

  lemma Assoc(a: string, b: string, c: string)
    ensures a + (b + c) == a + b + c
  {}

  lemma {:induction false} ReplaceConcat(a: string, b: string, c: char, sub: string)
    ensures Replace(a + b, c, sub) == Replace(a, c, sub) + Replace(b, c, sub)
  {
    if a == "" {
      assert a + b == b;
    } else {
      var x, rest := a[0], a[1..];
      assert a == [x] + rest;
      ReplaceConcat(rest, b, c, sub);
      ReplaceCons(x, rest, c, sub);
      ReplaceCons(x, rest + b, c, sub);
      hide Replace, ReplaceChar;
      Assoc([x], rest, b);
      Assoc(ReplaceChar(x, c, sub), Replace(rest, c, sub), Replace(b, c, sub));
    }
  }

  lemma EscapedConcat(a: string, b: string)
    ensures Escaped(a + b) == Escaped(a) + Escaped(b)
  {
    ReplaceConcat(a, b, '\\', "\\\\");
    var a1, b1 := Replace(a, '\\', "\\\\"), Replace(b, '\\', "\\\\");
    ReplaceConcat(a1, b1, '"', "\\\"");
    var a2, b2 := Replace(a1, '"', "\\\""), Replace(b1, '"', "\\\"");
    ReplaceConcat(a2, b2, '\n', "\\n");
    var a3, b3 := Replace(a2, '\n', "\\n"), Replace(b2, '\n', "\\n");
    ReplaceConcat(a3, b3, '\r', "\\r");
    ReplaceConcat(Replace(a3, '\r', "\\r"), Replace(b3, '\r', "\\r"), '\t', "\\t");
  }

  lemma ReplaceOne(x: char, c: char, sub: string)
    ensures Replace([x], c, sub) == if x == c then sub else [x]
  {
    assert [x][1..] == "";
  }

  lemma ReplaceTwo(x: char, y: char, c: char, sub: string)
    requires x != c && y != c
    ensures Replace([x, y], c, sub) == [x, y]
  {
    assert [x, y] == [x] + [y];
    ReplaceConcat([x], [y], c, sub);
    ReplaceOne(x, c, sub);
    ReplaceOne(y, c, sub);
  }

  /** A two-character escape survives the replacements that come after it. */
  lemma EscapedChar(x: char)
    ensures Escaped([x]) == EscapeChar(x)
  {
    ReplaceOne(x, '\\', "\\\\");
    if x == '\\' {
      assert "\\\\" == ['\\', '\\'];
      ReplaceTwo('\\', '\\', '"', "\\\"");
      ReplaceTwo('\\', '\\', '\n', "\\n");
      ReplaceTwo('\\', '\\', '\r', "\\r");
      ReplaceTwo('\\', '\\', '\t', "\\t");
    } else {
      ReplaceOne(x, '"', "\\\"");
      if x == '"' {
        assert "\\\"" == ['\\', '"'];
        ReplaceTwo('\\', '"', '\n', "\\n");
        ReplaceTwo('\\', '"', '\r', "\\r");
        ReplaceTwo('\\', '"', '\t', "\\t");
      } else {
        ReplaceOne(x, '\n', "\\n");
        if x == '\n' {
          assert "\\n" == ['\\', 'n'];
          ReplaceTwo('\\', 'n', '\r', "\\r");
          ReplaceTwo('\\', 'n', '\t', "\\t");
        } else {
          ReplaceOne(x, '\r', "\\r");
          assert "\\r" == ['\\', 'r'];
          ReplaceTwo('\\', 'r', '\t', "\\t");
          ReplaceOne(x, '\t', "\\t");
        }
      }
    }
  }

  /** The five sequential replacements are one pass over the characters. */
  lemma {:induction false} EscapesCompose(s: string)
    ensures Escaped(s) == EscapeAll(s)
  {
    if s != "" {
      EscapesCompose(s[1..]);
      EscapedChar(s[0]);
      EscapedConcat([s[0]], s[1..]);
      assert s == [s[0]] + s[1..];
    }
  }

  /** The escapes, spelled out. */
  lemma EscapeTable()
    ensures UsdStr("\\") == "\"\\\\\"" && UsdStr("\"") == "\"\\\"\"" && UsdStr("\n") == "\"\\n\""
    ensures UsdStr("\r") == "\"\\r\"" && UsdStr("\t") == "\"\\t\""
  {
    EscapedChar('\\');
    EscapedChar('"');
    EscapedChar('\n');
    EscapedChar('\r');
    EscapedChar('\t');
    hide Escaped;
  }

  /** No raw control character, and no quote without a backslash before it. */
  predicate CleanText(t: string) {
    && (forall i :: 0 <= i < |t| ==> t[i] != '\n' && t[i] != '\r' && t[i] != '\t')
    && forall i :: 0 <= i < |t| && t[i] == '"' ==> i > 0 && t[i - 1] == '\\'
  }

  lemma CleanCons(c: char, rest: string)
    requires CleanText(rest)
    ensures CleanText(EscapeChar(c) + rest)
  {
    var e := EscapeChar(c);
    forall i | 0 <= i < |e + rest| && (e + rest)[i] == '"' ensures i > 0 && (e + rest)[i - 1] == '\\' {
      if i >= |e| { assert rest[i - |e|] == '"'; }
    }
  }

  predicate NeedsEscape(c: char) { c == '\\' || c == '"' || c == '\n' || c == '\r' || c == '\t' }

  lemma {:induction false} EscapedClean(s: string)
    ensures CleanText(EscapeAll(s))
  {
    hide EscapeChar, CleanText;
    if s == "" {
      NothingClean();
    } else {
      EscapedClean(s[1..]);
      CleanCons(s[0], EscapeAll(s[1..]));
    }
  }

  lemma NothingClean()
    ensures CleanText("")
  {}

  /** Every other character stands for itself. */
  lemma {:induction false} EscapedPlain(s: string)
    requires forall i :: 0 <= i < |s| ==> !NeedsEscape(s[i])
    ensures EscapeAll(s) == s
  {
    if s != "" {
      EscapedPlain(s[1..]);
      assert s == [s[0]] + s[1..];
    }
  }

  // ---- The left inverse ----------------------------------------------------

  function UnescapeChar(c: char): char {
    if c == 'n' then '\n' else if c == 'r' then '\r' else if c == 't' then '\t' else c
  }

  function Unescape(s: string): string {
    if s == "" then ""
    else if s[0] == '\\' && |s| >= 2 then [UnescapeChar(s[1])] + Unescape(s[2..])
    else [s[0]] + Unescape(s[1..])
  }

  /** One escaped character is read back as itself, whatever follows. */
  lemma UnescapeOne(c: char, rest: string)
    ensures Unescape(EscapeChar(c) + rest) == [c] + Unescape(rest)
  {
    var e := EscapeChar(c);
    assert (e + rest)[|e|..] == rest;
    if |e| == 2 {
      assert (e + rest)[0] == '\\' && (e + rest)[1] == e[1];
    } else {
      assert (e + rest)[0] == c != '\\';
    }
  }

  lemma {:induction false} UnescapeInverts(s: string)
    ensures Unescape(EscapeAll(s)) == s
  {
    hide Unescape, EscapeChar;
    if s == "" {
      UnescapeNothing();
    } else {
      UnescapeInverts(s[1..]);
      UnescapeOne(s[0], EscapeAll(s[1..]));
      assert s == [s[0]] + s[1..];
    }
  }

  lemma UnescapeNothing()
    ensures Unescape("") == ""
  {}

  /** Distinct values have distinct literals: nothing is lost by escaping. */
  lemma UsdStrRoundTrip(value: string)
    ensures var lit := UsdStr(value);
      |lit| >= 2 && Unescape(lit[1..|lit| - 1]) == value
  {
    EscapesCompose(value);
    UnescapeInverts(value);
    var lit := UsdStr(value);
    assert lit[1..|lit| - 1] == Escaped(value);
  }

  // ---- Skipping a literal --------------------------------------------------

  /** The inner loop of the scanner: from inside a literal to just past its closing quote. */
  function SkipLiteral(text: string, i: nat, quote: char): nat
    decreases |text| - i
  {
    if i < |text| && text[i] != quote then SkipLiteral(text, i + (if text[i] == '\\' then 2 else 1), quote) else i + 1
  }

  predicate HasAt(text: string, i: nat, s: string) { i + |s| <= |text| && text[i..i + |s|] == s }

  lemma SkipOne(text: string, i: nat, c: char)
    requires HasAt(text, i, EscapeChar(c))
    ensures SkipLiteral(text, i, '"') == SkipLiteral(text, i + |EscapeChar(c)|, '"')
  {
    assert text[i..i + |EscapeChar(c)|][0] == EscapeChar(c)[0];
    assert text[i] == EscapeChar(c)[0];
  }

  lemma SkipClosing(text: string, i: nat)
    requires HasAt(text, i, "\"")
    ensures SkipLiteral(text, i, '"') == i + 1
  {
    assert text[i..i + 1][0] == '"';
  }

  lemma EscapeNothing()
    ensures EscapeAll("") == ""
  {}

  lemma EscapeCons(s: string)
    requires s != ""
    ensures EscapeAll(s) + "\"" == EscapeChar(s[0]) + (EscapeAll(s[1..]) + "\"")
    ensures |EscapeAll(s)| == |EscapeChar(s[0])| + |EscapeAll(s[1..])|
  {
    hide EscapeChar;
    Assoc(EscapeChar(s[0]), EscapeAll(s[1..]), "\"");
  }

  lemma {:induction false} SkipEscaped(text: string, i: nat, s: string)
    requires HasAt(text, i, EscapeAll(s) + "\"")
    ensures SkipLiteral(text, i, '"') == i + |EscapeAll(s)| + 1
    decreases |s|
  {
    hide HasAt, SkipLiteral, EscapeChar, EscapeAll;
    if s == "" {
      EscapeNothing();
      assert "" + "\"" == "\"";
      SkipClosing(text, i);
    } else {
      var e := EscapeChar(s[0]);
      EscapeCons(s);
      HasAtSplit(text, i, e, EscapeAll(s[1..]) + "\"");
      SkipOne(text, i, s[0]);
      SkipEscaped(text, i + |e|, s[1..]);
    }
  }

  lemma HasAtSplit(text: string, i: nat, a: string, b: string)
    requires HasAt(text, i, a + b)
    ensures i + |a| + |b| <= |text| && HasAt(text, i, a) && HasAt(text, i + |a|, b)
    ensures forall k :: 0 <= k < |a| ==> text[i + k] == a[k]
    ensures forall k :: 0 <= k < |b| ==> text[i + |a| + k] == b[k]
  {
    var t := text[i..i + |a + b|];
    assert t == a + b;
    forall k | 0 <= k < |a| ensures text[i + k] == a[k] { assert t[k] == a[k]; }
    forall k | 0 <= k < |b| ensures text[i + |a| + k] == b[k] { assert t[|a| + k] == b[k]; }
    assert text[i..i + |a|] == a && text[i + |a|..i + |a| + |b|] == b;
  }

  lemma EscapedStart(value: string)
    requires value != ""
    ensures EscapeAll(value) != "" && EscapeAll(value)[0] != '"'
  {
    assert EscapeAll(value)[0] == EscapeChar(value[0])[0];
  }

  /** A scan that reaches the opening quote of `usd_str(v)` stops just past its closing quote. */
  lemma LiteralSkipped(text: string, i: nat, value: string)
    requires HasAt(text, i, UsdStr(value))
    ensures SkipLiteral(text, i + 1, '"') == i + |UsdStr(value)|
    ensures |UsdStr(value)| >= 2 && text[i] == '"'
    ensures value != "" ==> |UsdStr(value)| > 2 && text[i + 1] != '"'
  {
    EscapesCompose(value);
    hide Escaped, HasAt, SkipLiteral;
    Assoc("\"", EscapeAll(value), "\"");
    HasAtSplit(text, i, "\"", EscapeAll(value) + "\"");
    SkipEscaped(text, i + 1, value);
    if value != "" { EscapedStart(value); }
  }
}
