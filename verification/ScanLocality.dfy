/**
 The scan is local: from any index on, it depends only on the characters still ahead and on
 whether a word character stands just behind. So what a skipped literal held cannot matter
 to anything found after it, whatever surrounds it.
 */
module ScanLocality {
  import opened Common
  import opened UsdText
  import opened PrimScanner

  /** The same characters lie ahead of index i of a and of index j of b. */
  ghost predicate Ahead(a: string, i: nat, b: string, j: nat) {
    |a| - i == |b| - j && forall k :: i <= k < |a| ==> a[k] == b[k - i + j]
  }

  lemma AheadOn(a: string, i: nat, b: string, j: nat, d: nat)
    requires Ahead(a, i, b, j)
    ensures Ahead(a, i + d, b, j + d)
    ensures i + d < |a| ==> a[i + d] == b[j + d]
  {}

  lemma LengthAhead(a: string, i: nat, b: string, j: nat)
    requires Ahead(a, i, b, j)
    ensures |a| - i == |b| - j
  {}

  lemma HasAtLocal(a: string, i: nat, b: string, j: nat, s: string)
    requires Ahead(a, i, b, j)
    ensures HasAt(a, i, s) == HasAt(b, j, s)
  {
    if i + |s| <= |a| { assert a[i..i + |s|] == b[j..j + |s|]; }
  }

  lemma {:induction false} FindLocal(a: string, i: nat, b: string, j: nat, s: string)
    requires Ahead(a, i, b, j) && i <= |a|
    ensures Find(a, s, i) - i == Find(b, s, j) - j
    decreases |a| - i
  {
    if i + |s| <= |a| {
      assert a[i..i + |s|] == b[j..j + |s|];
      if a[i..i + |s|] != s {
        assert s != "";
        FindLocal(a, i + 1, b, j + 1, s);
      }
    }
  }

  lemma {:induction false} SkipWhileLocal(a: string, i: nat, b: string, j: nat, p: char -> bool)
    requires Ahead(a, i, b, j)
    ensures SkipWhile(a, i, p) - i == SkipWhile(b, j, p) - j
    decreases |a| - i
  {
    if i < |a| && p(a[i]) {
      AheadOn(a, i, b, j, 1);
      SkipWhileLocal(a, i + 1, b, j + 1, p);
    }
  }

  lemma {:induction false} SkipLiteralLocal(a: string, i: nat, b: string, j: nat, quote: char)
    requires Ahead(a, i, b, j)
    ensures SkipLiteral(a, i, quote) - i == SkipLiteral(b, j, quote) - j
    decreases |a| - i
  {
    if i < |a| && a[i] != quote {
      var d := if a[i] == '\\' then 2 else 1;
      AheadOn(a, i, b, j, d);
      SkipLiteralLocal(a, i + d, b, j + d, quote);
    }
  }

  lemma KeywordLocal(a: string, i: nat, b: string, j: nat, kw: string)
    requires Ahead(a, i, b, j)
    ensures KeywordAt(a, i, kw) == KeywordAt(b, j, kw)
  {
    HasAtLocal(a, i, b, j, kw);
    AheadOn(a, i, b, j, |kw|);
  }

  lemma SpecifierLocal(a: string, i: nat, b: string, j: nat)
    requires Ahead(a, i, b, j)
    ensures SpecifierAt(a, i) == SpecifierAt(b, j)
  {
    hide KeywordAt, Ahead;
    KeywordLocal(a, i, b, j, "def");
    KeywordLocal(a, i, b, j, "over");
    KeywordLocal(a, i, b, j, "class");
  }

  /** The end of the variant keyword, measured from where it starts. */
  lemma VariantLocal(a: string, i: nat, b: string, j: nat)
    requires Ahead(a, i, b, j)
    ensures VariantAt(a, i).Some? == VariantAt(b, j).Some?
    ensures VariantAt(a, i).Some? ==> VariantAt(a, i).value - i == VariantAt(b, j).value - j
  {
    hide KeywordAt, Ahead;
    KeywordLocal(a, i, b, j, "variantSet");
    KeywordLocal(a, i, b, j, "variant");
  }

  lemma SliceLocal(a: string, i: nat, b: string, j: nat, d: nat)
    requires Ahead(a, i, b, j) && i + d <= |a|
    ensures j + d <= |b| && a[i..i + d] == b[j..j + d]
  {}

  /** The same name, ending equally far from where it was looked for. */
  ghost predicate SameName(x: Option<(string, nat)>, i: nat, y: Option<(string, nat)>, j: nat) {
    x.Some? == y.Some? && (x.Some? ==> x.value.0 == y.value.0 && x.value.1 - i == y.value.1 - j)
  }

  lemma NameLocal(a: string, i: nat, b: string, j: nat)
    requires Ahead(a, i, b, j)
    ensures SameName(NameAt(a, i), i, NameAt(b, j), j)
  {
    AheadOn(a, i, b, j, 0);
    AheadOn(a, i, b, j, 1);
    SkipWhileLocal(a, i + 1, b, j + 1, NotQuote);
    if NameAt(a, i).Some? {
      SliceLocal(a, i + 1, b, j + 1, SkipWhile(a, i + 1, NotQuote) - i - 1);
    }
  }

  ghost predicate SameHead(x: Option<Head>, i: nat, y: Option<Head>, j: nat) {
    && x.Some? == y.Some?
    && (x.Some? ==> x.value.(end := 0) == y.value.(end := 0) && x.value.end - i == y.value.end - j)
  }

  /** The space after a specifier or a type, and what is looked for behind it. */
  lemma SpaceLocal(a: string, i: nat, b: string, j: nat)
    requires Ahead(a, i, b, j)
    ensures var w, x := SkipWhile(a, i, IsSpace), SkipWhile(b, j, IsSpace);
      w - i == x - j && Ahead(a, w, b, x) && (w < |a| ==> x < |b| && a[w] == b[x])
      && SameName(NameAt(a, w), i, NameAt(b, x), j)
  {
    hide NameAt, Ahead;
    SkipWhileLocal(a, i, b, j, IsSpace);
    var d := SkipWhile(a, i, IsSpace) - i;
    AheadOn(a, i, b, j, d);
    LengthAhead(a, i, b, j);
    NameLocal(a, i + d, b, j + d);
  }

  lemma TypeLocal(a: string, i: nat, b: string, j: nat)
    requires Ahead(a, i, b, j) && i <= |a|
    ensures var e, f := SkipWhile(a, i, IsWord), SkipWhile(b, j, IsWord);
      e - i == f - j && Ahead(a, e, b, f) && e <= |a| && f <= |b| && a[i..e] == b[j..f]
  {
    hide Ahead;
    SkipWhileLocal(a, i, b, j, IsWord);
    LengthAhead(a, i, b, j);
    var d := SkipWhile(a, i, IsWord) - i;
    AheadOn(a, i, b, j, d);
    SliceLocal(a, i, b, j, d);
  }

  /** A declaration is recognised by the characters from its specifier on. */
  lemma DeclLocal(a: string, i: nat, b: string, j: nat)
    requires Ahead(a, i, b, j)
    ensures SameHead(DeclAt(a, i), i, DeclAt(b, j), j)
  {
    hide Ahead, SpecifierAt, NameAt, SkipWhile;
    SpecifierLocal(a, i, b, j);
    LengthAhead(a, i, b, j);
    if SpecifierAt(a, i).Some? {
      var d := |SpecifierAt(a, i).value|;
      AheadOn(a, i, b, j, d);
      SpaceLocal(a, i + d, b, j + d);
      var k, l := SkipWhile(a, i + d, IsSpace), SkipWhile(b, j + d, IsSpace);
      SpecifierLocal(a, k, b, l);
      if k < |a| {
        TypeLocal(a, k, b, l);
        SpaceLocal(a, SkipWhile(a, k, IsWord), b, SkipWhile(b, l, IsWord));
      }
    }
  }

  predicate WordBehind(text: string, i: nat) { 0 < i <= |text| && IsWord(text[i - 1]) }

  /** Two scans that have the same characters ahead and the same kind of character behind. */
  ghost predicate Alike(a: string, i: nat, b: string, j: nat) {
    Ahead(a, i, b, j) && (i < |a| ==> WordBehind(a, i) == WordBehind(b, j))
  }

  lemma PlainLocal(a: string, i: nat, b: string, j: nat, st: Scan)
    requires Alike(a, i, b, j) && i < |a|
    ensures Plain(a, i, st).0 - i == Plain(b, j, st).0 - j && Plain(a, i, st).1 == Plain(b, j, st).1
  {
    DeclLocal(a, i, b, j);
    VariantLocal(a, i, b, j);
    hide DeclAt, VariantAt, Ahead;
  }

  lemma SkipStringLocal(a: string, i: nat, b: string, j: nat)
    requires Ahead(a, i, b, j) && i < |a|
    ensures SkipString(a, i) - i == SkipString(b, j) - j
  {
    var c := a[i];
    assert b[j] == c;
    HasAtLocal(a, i, b, j, [c, c, c]);
    AheadOn(a, i, b, j, 1);
    AheadOn(a, i, b, j, 3);
    SkipLiteralLocal(a, i + 1, b, j + 1, c);
    if HasAt(a, i, [c, c, c]) { FindLocal(a, i + 3, b, j + 3, [c, c, c]); }
  }

  lemma SkipAssetLocal(a: string, i: nat, b: string, j: nat)
    requires Ahead(a, i, b, j) && i < |a|
    ensures SkipAsset(a, i) - i == SkipAsset(b, j) - j
  {
    HasAtLocal(a, i, b, j, "@@@");
    var d := if HasAt(a, i, "@@@") then 3 else 1;
    AheadOn(a, i, b, j, d);
    FindLocal(a, i + d, b, j + d, if d == 3 then "@@@" else "@");
  }

  lemma NextLocal(a: string, i: nat, b: string, j: nat, st: Scan)
    requires Alike(a, i, b, j) && i < |a|
    ensures Next(a, i, st).0 - i == Next(b, j, st).0 - j && Next(a, i, st).1 == Next(b, j, st).1
  {
    hide SkipString, SkipAsset, SkipWhile, Plain, OpenBrace, CloseBrace;
    assert b[j] == a[i];
    SkipStringLocal(a, i, b, j);
    SkipAssetLocal(a, i, b, j);
    SkipWhileLocal(a, i, b, j, NotNewline);
    PlainLocal(a, i, b, j, st);
  }

  lemma BehindLocal(a: string, i: nat, b: string, j: nat, d: nat)
    requires Ahead(a, i, b, j) && d > 0
    ensures Alike(a, i + d, b, j + d)
  {
    AheadOn(a, i, b, j, d);
    AheadOn(a, i, b, j, d - 1);
  }

  /** The scan from here on is the same in both texts. */
  lemma {:induction false} ScanLocal(a: string, i: nat, b: string, j: nat, st: Scan)
    requires Alike(a, i, b, j)
    ensures ScanFrom(a, i, st) == ScanFrom(b, j, st)
    decreases |a| - i
  {
    hide Next, Ahead, WordBehind;
    assert i < |a| <==> j < |b| by { AheadOn(a, i, b, j, 0); LengthAhead(a, i, b, j); }
    if i < |a| {
      NextLocal(a, i, b, j, st);
      NextAdvances(a, i, st);
      var d := Next(a, i, st).0 - i;
      BehindLocal(a, i, b, j, d);
      ScanLocal(a, i + d, b, j + d, Next(a, i, st).1);
    }
  }

  // ---- A literal in any text -----------------------------------------------

  /** The literal stands between any two texts, and an empty one is not followed by a quote. */
  predicate Closed(value: string, post: string) { value == "" ==> post == "" || post[0] != '"' }

  /** The scan steps over the literal exactly when it is closed; else three quotes open a long string. */
  lemma LiteralPassed(text: string, i: nat, value: string, st: Scan)
    requires HasAt(text, i, UsdStr(value))
    ensures i < |text|
    ensures Next(text, i, st) == (i + |UsdStr(value)|, st) <==> Closed(value, text[i + |UsdStr(value)|..])
  {
    hide UsdStr, SkipLiteral, Find;
    LiteralSkipped(text, i, value);
    EmptyLength(value);
    var e := i + |UsdStr(value)|;
    assert e < |text| ==> text[e..][0] == text[e];
    TripleChars(text, i, '"');
    hide HasAt;
    if !Closed(value, text[e..]) { EmptyRunsOn(text, i); }
  }

  lemma TripleChars(text: string, i: nat, c: char)
    ensures HasAt(text, i, [c, c, c]) <==> i + 3 <= |text| && text[i] == text[i + 1] == text[i + 2] == c
  {
    if i + 3 <= |text| {
      var t := text[i..i + 3];
      assert t[0] == text[i] && t[1] == text[i + 1] && t[2] == text[i + 2];
      assert t == [text[i], text[i + 1], text[i + 2]];
    }
  }

  lemma EmptyRunsOn(text: string, i: nat)
    requires HasAt(text, i, UsdStr("")) && i + 2 < |text| && text[i + 2] == '"'
    ensures text[i] == '"' && SkipString(text, i) > i + 2
  {
    var lit := UsdStr("");
    EmptyLength("");
    assert text[i..i + 2] == lit && text[i..i + 2][0] == '"' && text[i..i + 2][1] == lit[1] == '"';
    assert text[i..i + 3] == ['"', '"', '"'];
  }

  lemma EmptyLength(value: string)
    ensures value == "" ==> |UsdStr(value)| == 2
  {
    EscapesCompose(value);
  }

  lemma LiteralInPlace(pre: string, value: string, post: string)
    ensures var text := pre + UsdStr(value) + post;
      var e := |pre| + |UsdStr(value)|;
      && HasAt(text, |pre|, UsdStr(value)) && text[e..] == post
      && 0 < e <= |text| && text[e - 1] == '"'
  {
    var lit := UsdStr(value);
    var text := pre + lit + post;
    assert text[|pre|..|pre| + |lit|] == lit;
    assert lit[|lit| - 1] == '"';
    assert text[|pre| + |lit| - 1] == lit[|lit| - 1];
  }

  lemma AfterLiteral(a: string, i: nat, b: string, j: nat)
    requires 0 < i <= |a| && 0 < j <= |b| && a[i..] == b[j..] && a[i - 1] == b[j - 1]
    ensures Alike(a, i, b, j)
  {
    forall k | i <= k < |a| ensures a[k] == b[k - i + j] { assert a[i..][k - i] == b[j..][k - i]; }
  }

  /**
   Later specs do not depend on a literal's value. In any text whatsoever, once the scan stands
   at the opening quote of `usd_str(value)`, what it ends with is the same for every value.
   */
  lemma LaterSpecsIndependent(pre: string, value: string, other: string, post: string, st: Scan)
    requires Closed(value, post) && Closed(other, post)
    ensures ScanFrom(pre + UsdStr(value) + post, |pre|, st) == ScanFrom(pre + UsdStr(other) + post, |pre|, st)
  {
    hide UsdStr, Next;
    var a, b := pre + UsdStr(value) + post, pre + UsdStr(other) + post;
    LiteralInPlace(pre, value, post);
    LiteralInPlace(pre, other, post);
    LiteralPassed(a, |pre|, value, st);
    LiteralPassed(b, |pre|, other, st);
    var i, j := |pre| + |UsdStr(value)|, |pre| + |UsdStr(other)|;
    AfterLiteral(a, i, b, j);
    ScanLocal(a, i, b, j, st);
  }

  // ---- Malformed text ------------------------------------------------------

  /** A closing parenthesis or brace with nothing to close is passed over. */
  lemma StrayClosers(text: string, i: nat, st: Scan)
    requires i < |text| && st.paren == 0 && (text[i] == ')' || (text[i] == '}' && st.stack == []))
    ensures ScanFrom(text, i, st) == ScanFrom(text, i + 1, st)
  {
    hide Plain, SkipString, SkipAsset, OpenBrace;
  }

  lemma {:induction false} FindMiss(text: string, pattern: string, i: nat)
    requires pattern != "" && forall k: nat :: k >= i ==> !HasAt(text, k, pattern)
    ensures Find(text, pattern, i) == |text|
    decreases |text| - i
  {
    if i + |pattern| <= |text| {
      assert !HasAt(text, i, pattern);
      FindMiss(text, pattern, i + 1);
    }
  }

  lemma {:induction false} SkipMiss(text: string, i: nat, quote: char)
    requires forall k :: i <= k < |text| ==> text[k] != quote
    ensures SkipLiteral(text, i, quote) > |text|
    decreases |text| - i
  {
    if i < |text| { SkipMiss(text, i + (if text[i] == '\\' then 2 else 1), quote); }
  }

  /** What opens the literal or asset path at i, and so must close it. */
  function Opener(text: string, i: nat): string
    requires i < |text|
  {
    var c := text[i];
    if HasAt(text, i, [c, c, c]) then [c, c, c] else [c]
  }

  lemma OpenerAt(text: string, i: nat)
    requires i < |text|
    ensures var m := Opener(text, i); (|m| == 1 || |m| == 3) && i + |m| <= |text|
    ensures Opener(text, i) == [text[i]] ==> !HasAt(text, i, [text[i], text[i], text[i]])
  {}

  lemma OneAt(text: string, k: nat, c: char)
    requires k < |text|
    ensures HasAt(text, k, [c]) <==> text[k] == c
  {
    assert text[k..k + 1] == [text[k]];
  }

  /** A literal or asset path that is never closed swallows the rest of the text. */
  lemma UnclosedSwallows(text: string, i: nat, st: Scan)
    requires i < |text| && (text[i] == '"' || text[i] == '\'' || text[i] == '@')
    requires forall k: nat :: k >= i + |Opener(text, i)| ==> !HasAt(text, k, Opener(text, i))
    ensures ScanFrom(text, i, st) == st
  {
    var m := Opener(text, i);
    OpenerAt(text, i);
    FindMiss(text, m, i + |m|);
    if |m| == 1 {
      forall k | i + 1 <= k < |text| ensures text[k] != text[i] { OneAt(text, k, text[i]); }
      SkipMiss(text, i + 1, text[i]);
    }
    UnclosedNext(text, i, st);
  }

  lemma UnclosedNext(text: string, i: nat, st: Scan)
    requires i < |text| && (text[i] == '"' || text[i] == '\'' || text[i] == '@')
    requires var m := Opener(text, i);
      && Find(text, m, i + |m|) == |text| && (|m| == 1 ==> SkipLiteral(text, i + 1, text[i]) > |text|)
    ensures ScanFrom(text, i, st) == st
  {
    hide Find, SkipLiteral, HasAt, Plain;
    assert Next(text, i, st).0 >= |text| && Next(text, i, st).1 == st;
  }
}
