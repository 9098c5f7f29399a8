/**
 A printed layer as a list of tokens, and the lexical half of the scanner's correctness: a scan
 of the rendered characters is a run of a small machine over the tokens.
 */
module LayerTokens {
  import opened Common
  import opened UsdText
  import opened PrimScanner

  datatype Token =
    | Sym(c: char)
    | Word(w: string)
    | Bare(specifier: string, gap: string, next: char)
    | Quote(value: string)
    | Single(raw: string)
    | Long(quote: char, text: string)
    | Asset(path: string)
    | LongAsset(path: string)
    | Comment(note: string)
    | LParen | RParen | LBrace | RBrace
    | VariantKeyword(isSet: bool)
    | Decl(specifier: string, gap: string, typeName: string, typeGap: string, name: string)

  function Quoted(name: string): string { "\"" + name + "\"" }

  function Triple(c: char): string { [c, c, c] }

  function Render(t: Token): string {
    match t
    case Sym(c) => [c]
    case Word(w) => w
    case Bare(specifier, gap, next) => specifier + (gap + [next])
    case Quote(value) => UsdStr(value)
    case Single(raw) => "'" + (raw + "'")
    case Long(quote, text) => Triple(quote) + (text + Triple(quote))
    case Asset(path) => "@" + path + "@"
    case LongAsset(path) => "@@@" + (path + "@@@")
    case Comment(note) => "#" + note + "\n"
    case LParen => "("
    case RParen => ")"
    case LBrace => "{"
    case RBrace => "}"
    case VariantKeyword(isSet) => if isSet then "variantSet" else "variant"
    case Decl(specifier, gap, typeName, typeGap, name) =>
      specifier + (gap + (if typeName == "" then Quoted(name) else typeName + (typeGap + Quoted(name))))
  }

  function RenderAll(ts: seq<Token>): string {
    if ts == [] then "" else Render(ts[0]) + RenderAll(ts[1..])
  }

  // ---- Well-formed tokens --------------------------------------------------

  predicate All(s: string, p: char -> bool) { forall i :: 0 <= i < |s| ==> p(s[i]) }

  predicate IsSpecifier(w: string) { w == "def" || w == "over" || w == "class" }
  predicate IsKeyword(w: string) { IsSpecifier(w) || w == "variantSet" || w == "variant" }

  /** A character the scan passes over. */
  predicate IsNeutral(c: char) { !IsWord(c) && c !in "\"'@#(){}" }

  predicate NotAt(c: char) { c != '@' }

  /** The inside of a single-quoted literal: a backslash hides the character after it. */
  predicate SingleOk(raw: string) {
    || raw == ""
    || (raw[0] == '\\' && |raw| >= 2 && SingleOk(raw[2..]))
    || (raw[0] != '\\' && raw[0] != '\'' && SingleOk(raw[1..]))
  }

  /** The marker does not occur in the marked text before its end. */
  predicate NoEarly(s: string, marker: string) { forall k :: 0 <= k < |s| ==> !HasAt(s + marker, k, marker) }

  predicate TokenOk(t: Token) {
    match t
    case Sym(c) => IsNeutral(c)
    case Word(w) => w != "" && All(w, IsWord) && !IsKeyword(w)
    case Bare(specifier, gap, next) =>
      IsSpecifier(specifier) && All(gap, IsSpace) && IsNeutral(next) && !IsSpace(next)
    case Single(raw) => SingleOk(raw)
    case Long(quote, text) => (quote == '"' || quote == '\'') && NoEarly(text, Triple(quote))
    case Asset(path) => path != "" && All(path, NotAt)
    case LongAsset(path) => NoEarly(path, "@@@")
    case Comment(note) => All(note, NotNewline)
    case Decl(specifier, gap, typeName, typeGap, name) =>
      && IsSpecifier(specifier) && gap != "" && All(gap, IsSpace) && All(typeGap, IsSpace)
      && name != "" && All(name, NotQuote)
      && (if typeName == "" then typeGap == ""
          else typeGap != "" && IsIdentStart(typeName[0]) && All(typeName, IsWord) && !IsSpecifier(typeName))
    case _ => true
  }

  predicate StartsWord(t: Token) { t.Word? || t.Bare? || t.VariantKeyword? || t.Decl? }
  predicate EndsWord(t: Token) { t.Word? || t.VariantKeyword? }

  /** Neighbours that do not run together once printed. */
  predicate Apart(t: Token, u: Token) {
    && !(EndsWord(t) && StartsWord(u))
    && (EmptyLiteralOf(t, '"') ==> !StartsWith(u, '"')) && (EmptyLiteralOf(t, '\'') ==> !StartsWith(u, '\''))
  }

  predicate EmptyLiteralOf(t: Token, quote: char) {
    (t.Quote? && t.value == "" && quote == '"') || (t.Single? && t.raw == "" && quote == '\'')
  }

  predicate StartsWith(t: Token, quote: char) {
    (t.Quote? && quote == '"') || (t.Single? && quote == '\'') || (t.Long? && t.quote == quote)
  }

  predicate Separated(ts: seq<Token>) {
    (forall i :: 0 <= i < |ts| ==> TokenOk(ts[i])) && (forall i :: 0 <= i < |ts| - 1 ==> Apart(ts[i], ts[i + 1]))
  }

  // ---- The token machine ---------------------------------------------------

  function Play(st: Scan, t: Token): Scan {
    match t
    case LParen => st.(paren := st.paren + 1)
    case RParen => st.(paren := if st.paren == 0 then 0 else st.paren - 1)
    case LBrace => if st.paren > 0 then st else OpenBrace(st)
    case RBrace => if st.paren > 0 then st else CloseBrace(st)
    case VariantKeyword(_) => if st.paren > 0 then st else st.(pendingVariant := true)
    case Decl(specifier, _, typeName, _, name) => Declare(st, specifier, typeName, name)
    case _ => st
  }

  function PlayAll(st: Scan, ts: seq<Token>): Scan
    decreases |ts|
  {
    if ts == [] then st else PlayAll(Play(st, ts[0]), ts[1..])
  }

  /** No declaration sits inside parentheses. */
  predicate DeclsOutside(st: Scan, ts: seq<Token>)
    decreases |ts|
  {
    ts == [] || ((ts[0].Decl? ==> st.paren == 0) && DeclsOutside(Play(st, ts[0]), ts[1..]))
  }

  // ---- Lexing one token ----------------------------------------------------

  /** What a token needs of the characters around it. */
  ghost predicate Bounded(text: string, i: nat, t: Token) {
    && HasAt(text, i, Render(t))
    && (StartsWord(t) ==> i == 0 || !IsWord(text[i - 1]))
    && var e := i + |Render(t)|;
       && (EndsWord(t) ==> e == |text| || !IsWord(text[e]))
       && (EmptyLiteralOf(t, '"') ==> e == |text| || text[e] != '"')
       && (EmptyLiteralOf(t, '\'') ==> e == |text| || text[e] != '\'')
  }

  lemma CharAt(text: string, i: nat, s: string, k: nat)
    requires HasAt(text, i, s) && k < |s|
    ensures i + |s| <= |text| && text[i + k] == s[k]
  {
    assert text[i..i + |s|][k] == s[k];
  }

  /** One loop iteration of the scan. */
  lemma StepBy(text: string, i: nat, st: Scan)
    requires i < |text|
    ensures ScanFrom(text, i, st) == ScanFrom(text, Next(text, i, st).0, Next(text, i, st).1)
  {
    hide Next;
  }

  /** A keyword at i means the maximal word at i is that keyword. */
  lemma KeywordIsWord(text: string, i: nat, w: string, kw: string)
    requires HasAt(text, i, w) && All(w, IsWord) && (i + |w| == |text| || !IsWord(text[i + |w|]))
    requires All(kw, IsWord) && KeywordAt(text, i, kw)
    ensures w == kw
  {
    if |kw| < |w| { CharAt(text, i, w, |kw|); }
    if |w| < |kw| { CharAt(text, i, kw, |w|); }
  }

  lemma NoDeclAtWord(text: string, i: nat, w: string)
    requires HasAt(text, i, w) && All(w, IsWord) && (i + |w| == |text| || !IsWord(text[i + |w|])) && !IsSpecifier(w)
    ensures SpecifierAt(text, i).None? && DeclAt(text, i).None?
  {
    if KeywordAt(text, i, "def") { KeywordIsWord(text, i, w, "def"); }
    if KeywordAt(text, i, "over") { KeywordIsWord(text, i, w, "over"); }
    if KeywordAt(text, i, "class") { KeywordIsWord(text, i, w, "class"); }
  }

  /** The rest of a word, once its first character is behind. */
  lemma {:induction false} WordTail(text: string, i: nat, e: nat, st: Scan)
    requires 0 < i <= e <= |text| && IsWord(text[i - 1]) && forall k :: i <= k < e ==> IsWord(text[k])
    ensures ScanFrom(text, i, st) == ScanFrom(text, e, st)
    decreases e - i
  {
    if i < e {
      assert Next(text, i, st) == (i + 1, st);
      WordTail(text, i + 1, e, st);
    }
  }

  lemma NoVariantAtWord(text: string, i: nat, w: string)
    requires HasAt(text, i, w) && All(w, IsWord) && (i + |w| == |text| || !IsWord(text[i + |w|])) && !IsKeyword(w)
    ensures VariantAt(text, i).None?
  {
    if KeywordAt(text, i, "variantSet") { KeywordIsWord(text, i, w, "variantSet"); }
    if KeywordAt(text, i, "variant") { KeywordIsWord(text, i, w, "variant"); }
  }

  /** A word character with no keyword starting at it is passed over. */
  lemma PassWordChar(text: string, i: nat, st: Scan)
    requires i < |text| && IsWord(text[i]) && DeclAt(text, i).None? && VariantAt(text, i).None?
    ensures ScanFrom(text, i, st) == ScanFrom(text, i + 1, st)
  {
    assert Next(text, i, st) == (i + 1, st);
  }

  lemma LexWord(text: string, i: nat, w: string, st: Scan)
    requires TokenOk(Word(w)) && Bounded(text, i, Word(w))
    ensures ScanFrom(text, i, st) == ScanFrom(text, i + |Render(Word(w))|, st)
  {
    hide ScanFrom, DeclAt, VariantAt, SpecifierAt, IsKeyword, UsdStr;
    WordChars(text, i, w);
    NoKeywordAtWord(text, i, w);
    PassWordChar(text, i, st);
    WordTail(text, i + 1, i + |w|, st);
  }

  lemma WordChars(text: string, i: nat, w: string)
    requires HasAt(text, i, w) && All(w, IsWord)
    ensures i + |w| <= |text| && forall k :: i <= k < i + |w| ==> IsWord(text[k])
  {
    forall k | i <= k < i + |w| ensures IsWord(text[k]) { CharAt(text, i, w, k - i); }
  }

  lemma NoKeywordAtWord(text: string, i: nat, w: string)
    requires HasAt(text, i, w) && All(w, IsWord) && (i + |w| == |text| || !IsWord(text[i + |w|])) && !IsKeyword(w)
    ensures DeclAt(text, i).None? && VariantAt(text, i).None?
  {
    hide DeclAt, VariantAt;
    NoDeclAtWord(text, i, w);
    NoVariantAtWord(text, i, w);
  }

  lemma NoKeywordAt(text: string, i: nat)
    requires i < |text| && !IsWord(text[i])
    ensures DeclAt(text, i).None? && VariantAt(text, i).None?
  {
    if KeywordAt(text, i, "def") { CharAt(text, i, "def", 0); }
    if KeywordAt(text, i, "over") { CharAt(text, i, "over", 0); }
    if KeywordAt(text, i, "class") { CharAt(text, i, "class", 0); }
    if KeywordAt(text, i, "variantSet") { CharAt(text, i, "variantSet", 0); }
    if KeywordAt(text, i, "variant") { CharAt(text, i, "variant", 0); }
  }

  lemma LexNeutral(text: string, i: nat, st: Scan)
    requires i < |text| && IsNeutral(text[i])
    ensures ScanFrom(text, i, st) == ScanFrom(text, i + 1, st)
  {
    NoKeywordAt(text, i);
    assert Next(text, i, st) == (i + 1, st);
  }

  /** A run of characters inside parentheses that the scan passes over one by one. */
  lemma {:induction false} PassInside(text: string, i: nat, e: nat, st: Scan)
    requires i <= e <= |text| && st.paren > 0 && forall k :: i <= k < e ==> IsWord(text[k])
    ensures ScanFrom(text, i, st) == ScanFrom(text, e, st)
    decreases e - i
  {
    if i < e {
      assert Next(text, i, st) == (i + 1, st);
      PassInside(text, i + 1, e, st);
    }
  }

  lemma NextQuote(text: string, i: nat, value: string, st: Scan)
    requires Bounded(text, i, Quote(value))
    ensures i < |text| && Next(text, i, st) == (i + |UsdStr(value)|, st)
  {
    hide UsdStr, SkipLiteral, Find;
    LiteralSkipped(text, i, value);
    EmptyLiteral(value);
    NoTriple(text, i, value);
  }

  lemma NoTriple(text: string, i: nat, value: string)
    requires Bounded(text, i, Quote(value)) && (value == "" ==> |UsdStr(value)| == 2)
    ensures !HasAt(text, i, ['"', '"', '"'])
  {
    hide UsdStr;
    LiteralSkipped(text, i, value);
    if HasAt(text, i, ['"', '"', '"']) {
      CharAt(text, i, ['"', '"', '"'], 1);
      CharAt(text, i, ['"', '"', '"'], 2);
    }
  }

  lemma EmptyLiteral(value: string)
    ensures value == "" ==> |UsdStr(value)| == 2
  {
    EscapesCompose(value);
  }

  lemma {:induction false} FindChar(text: string, c: char, i: nat, e: nat)
    requires i <= e < |text| && text[e] == c && forall k :: i <= k < e ==> text[k] != c
    ensures Find(text, [c], i) == e
    decreases e - i
  {
    assert text[i..i + 1] == [text[i]];
    if i < e { FindChar(text, c, i + 1, e); }
  }

  lemma NextAsset(text: string, i: nat, path: string, st: Scan)
    requires TokenOk(Asset(path)) && HasAt(text, i, Render(Asset(path)))
    ensures i < |text| && Next(text, i, st) == (i + |path| + 2, st)
  {
    var e := i + |path| + 1;
    var r := Render(Asset(path));
    CharAt(text, i, r, 0);
    CharAt(text, i, r, 1);
    CharAt(text, i, r, |path| + 1);
    forall k | i + 1 <= k < e ensures text[k] != '@' {
      CharAt(text, i, r, k - i);
      assert r[k - i] == path[k - i - 1];
    }
    if HasAt(text, i, "@@@") { CharAt(text, i, "@@@", 1); }
    FindChar(text, '@', i + 1, e);
  }

  lemma SkipStep(text: string, i: nat, quote: char)
    requires i < |text| && text[i] != quote
    ensures SkipLiteral(text, i, quote) == SkipLiteral(text, i + (if text[i] == '\\' then 2 else 1), quote)
  {}

  lemma {:induction false} SkipSingle(text: string, i: nat, raw: string)
    requires SingleOk(raw) && HasAt(text, i, raw + "'")
    ensures SkipLiteral(text, i, '\'') == i + |raw| + 1
    decreases |raw|
  {
    if raw == "" {
      CharAt(text, i, raw + "'", 0);
    } else {
      hide HasAt, SkipLiteral;
      var d := if raw[0] == '\\' then 2 else 1;
      assert raw + "'" == raw[..d] + (raw[d..] + "'");
      HasAtSplit(text, i, raw[..d], raw[d..] + "'");
      assert text[i + 0] == raw[..d][0];
      SkipStep(text, i, '\'');
      SkipSingle(text, i + d, raw[d..]);
    }
  }

  lemma SingleSkipped(text: string, i: nat, raw: string)
    requires SingleOk(raw) && HasAt(text, i, "'" + (raw + "'"))
    ensures i + |raw| + 2 <= |text| && text[i] == '\'' && SkipLiteral(text, i + 1, '\'') == i + |raw| + 2
    ensures raw != "" ==> text[i + 1] != '\''
  {
    hide SkipLiteral, HasAt;
    HasAtSplit(text, i, "'", raw + "'");
    assert text[i + 0] == "'"[0];
    if raw != "" { assert text[i + 1 + 0] == (raw + "'")[0]; }
    SkipSingle(text, i + 1, raw);
  }

  lemma NotTriple(text: string, i: nat, c: char)
    requires i + 2 <= |text| && (text[i + 1] != c || i + 2 == |text| || text[i + 2] != c)
    ensures !HasAt(text, i, [c, c, c])
  {
    if HasAt(text, i, [c, c, c]) {
      CharAt(text, i, [c, c, c], 1);
      CharAt(text, i, [c, c, c], 2);
    }
  }

  lemma NextSingle(text: string, i: nat, raw: string, st: Scan)
    requires TokenOk(Single(raw)) && Bounded(text, i, Single(raw))
    ensures i < |text| && Next(text, i, st) == (i + |raw| + 2, st)
  {
    hide SkipLiteral, HasAt, Find, Plain, SingleOk;
    SingleSkipped(text, i, raw);
    NotTriple(text, i, '\'');
  }

  lemma {:induction false} FindMarker(text: string, marker: string, i: nat, e: nat)
    requires i <= e && HasAt(text, e, marker) && forall k :: i <= k < e ==> !HasAt(text, k, marker)
    ensures Find(text, marker, i) == e
    decreases e - i
  {
    if i < e {
      assert !HasAt(text, i, marker);
      FindMarker(text, marker, i + 1, e);
    }
  }

  lemma HasAtInside(text: string, i: nat, s: string, k: nat, m: string)
    requires HasAt(text, i, s) && k + |m| <= |s|
    ensures HasAt(text, i + k, m) <==> HasAt(s, k, m)
  {
    assert i + k + |m| <= |text|;
    var a, b := text[i + k..i + k + |m|], s[k..k + |m|];
    forall j | 0 <= j < |m| ensures a[j] == b[j] { CharAt(text, i, s, k + j); }
    assert a == b;
  }

  /** A text closed by its marker is found to end at the marker. */
  lemma MarkedFound(text: string, i: nat, s: string, marker: string)
    requires HasAt(text, i, s + marker) && NoEarly(s, marker)
    ensures Find(text, marker, i) == i + |s|
  {
    forall k | i <= k < i + |s| ensures !HasAt(text, k, marker) {
      assert !HasAt(s + marker, k - i, marker);
      HasAtInside(text, i, s + marker, k - i, marker);
    }
    HasAtSplit(text, i, s, marker);
    FindMarker(text, marker, i, i + |s|);
  }

  /** A long text between markers, in its place. */
  lemma MarkedInPlace(text: string, i: nat, marker: string, body: string)
    requires HasAt(text, i, marker + (body + marker)) && NoEarly(body, marker) && |marker| == 3
    ensures HasAt(text, i, marker) && text[i] == marker[0]
    ensures i + |body| + 6 <= |text| && Find(text, marker, i + 3) == i + |body| + 3
  {
    hide Find, HasAt, NoEarly;
    HasAtSplit(text, i, marker, body + marker);
    assert text[i + 0] == marker[0];
    HasAtSplit(text, i + 3, body, marker);
    MarkedFound(text, i + 3, body, marker);
  }

  lemma NextLong(text: string, i: nat, quote: char, body: string, st: Scan)
    requires TokenOk(Long(quote, body)) && HasAt(text, i, Render(Long(quote, body)))
    ensures i < |text| && Next(text, i, st) == (i + |body| + 6, st)
  {
    hide Find, HasAt, SkipLiteral, NoEarly, Plain;
    MarkedInPlace(text, i, Triple(quote), body);
  }

  lemma NextLongAsset(text: string, i: nat, path: string, st: Scan)
    requires TokenOk(LongAsset(path)) && HasAt(text, i, Render(LongAsset(path)))
    ensures i < |text| && Next(text, i, st) == (i + |path| + 6, st)
  {
    hide Find, HasAt, SkipLiteral, NoEarly, Plain;
    MarkedInPlace(text, i, "@@@", path);
  }

  lemma {:induction false} SkipRun(text: string, i: nat, e: nat, p: char -> bool)
    requires i <= e <= |text| && (forall k :: i <= k < e ==> p(text[k])) && (e < |text| ==> !p(text[e]))
    ensures SkipWhile(text, i, p) == e
    decreases e - i
  {
    if i < e { SkipRun(text, i + 1, e, p); }
  }

  lemma NextComment(text: string, i: nat, note: string, st: Scan)
    requires TokenOk(Comment(note)) && HasAt(text, i, Render(Comment(note)))
    ensures var e := i + |note| + 1; e < |text| && text[e] == '\n' && Next(text, i, st) == (e, st)
  {
    hide SkipWhile;
    var e := i + |note| + 1;
    var r := Render(Comment(note));
    CharAt(text, i, r, 0);
    CharAt(text, i, r, |note| + 1);
    forall k | i <= k < e ensures NotNewline(text[k]) {
      CharAt(text, i, r, k - i);
      assert k > i ==> r[k - i] == note[k - i - 1];
    }
    SkipRun(text, i, e, NotNewline);
  }

  lemma LexComment(text: string, i: nat, note: string, st: Scan)
    requires TokenOk(Comment(note)) && HasAt(text, i, Render(Comment(note)))
    ensures ScanFrom(text, i, st) == ScanFrom(text, i + |Render(Comment(note))|, st)
  {
    hide ScanFrom, Next, HasAt;
    NextComment(text, i, note, st);
    StepBy(text, i, st);
    LexNeutral(text, i + |note| + 1, st);
  }

  lemma NextVariant(text: string, i: nat, isSet: bool, st: Scan)
    requires Bounded(text, i, VariantKeyword(isSet)) && st.paren == 0
    ensures i < |text| && Next(text, i, st) == (i + |Render(VariantKeyword(isSet))|, st.(pendingVariant := true))
  {
    hide DeclAt, SpecifierAt, VariantAt, HasAt;
    var w := Render(VariantKeyword(isSet));
    CharAt(text, i, w, 0);
    NoDeclAtWord(text, i, w);
    VariantFound(text, i, isSet);
  }

  lemma VariantFound(text: string, i: nat, isSet: bool)
    requires KeywordAt(text, i, Render(VariantKeyword(isSet)))
    ensures VariantAt(text, i) == Some(i + |Render(VariantKeyword(isSet))|)
  {
    hide HasAt;
    var w := Render(VariantKeyword(isSet));
    if !isSet && KeywordAt(text, i, "variantSet") { KeywordIsWord(text, i, w, "variantSet"); }
  }

  lemma LexVariant(text: string, i: nat, isSet: bool, st: Scan)
    requires Bounded(text, i, VariantKeyword(isSet))
    ensures var t := VariantKeyword(isSet);
      ScanFrom(text, i, st) == ScanFrom(text, i + |Render(t)|, Play(st, t))
  {
    hide ScanFrom, Next;
    var w := Render(VariantKeyword(isSet));
    if st.paren > 0 {
      forall k | i <= k < i + |w| ensures IsWord(text[k]) { CharAt(text, i, w, k - i); }
      PassInside(text, i, i + |w|, st);
    } else {
      NextVariant(text, i, isSet, st);
      StepBy(text, i, st);
    }
  }

  // ---- Lexing a declaration ------------------------------------------------

  lemma NameFound(text: string, i: nat, name: string)
    requires name != "" && All(name, NotQuote) && HasAt(text, i, Quoted(name))
    ensures NameAt(text, i) == Some((name, i + |name| + 2))
  {
    var s := Quoted(name);
    var e := i + |name| + 1;
    CharAt(text, i, s, 0);
    CharAt(text, i, s, |name| + 1);
    forall k | i + 1 <= k < e ensures NotQuote(text[k]) {
      CharAt(text, i, s, k - i);
      assert s[k - i] == name[k - i - 1];
    }
    SkipRun(text, i + 1, e, NotQuote);
    assert text[i + 1..e] == name by {
      forall k | 0 <= k < |name| ensures text[i + 1..e][k] == name[k] { CharAt(text, i, s, k + 1); }
    }
  }

  /** A run of a class, followed by a character outside it. */
  lemma RunFound(text: string, i: nat, s: string, p: char -> bool)
    requires HasAt(text, i, s) && All(s, p) && i + |s| < |text| && !p(text[i + |s|])
    ensures SkipWhile(text, i, p) == i + |s|
  {
    forall k | i <= k < i + |s| ensures p(text[k]) { CharAt(text, i, s, k - i); }
    SkipRun(text, i, i + |s|, p);
  }

  lemma SpecifierFound(text: string, i: nat, kw: string)
    requires IsSpecifier(kw) && HasAt(text, i, kw) && i + |kw| < |text| && !IsWord(text[i + |kw|])
    ensures SpecifierAt(text, i) == Some(kw)
  {
    if kw != "def" && KeywordAt(text, i, "def") { KeywordIsWord(text, i, kw, "def"); }
    if kw != "over" && KeywordAt(text, i, "over") { KeywordIsWord(text, i, kw, "over"); }
  }

  /** An optional type with its space, then the quoted name, from index k on. */
  lemma TypedNameFound(text: string, k: nat, typeName: string, gap: string, name: string)
    requires name != "" && All(name, NotQuote) && HasAt(text, k, typeName + (gap + Quoted(name)))
    requires typeName != "" && IsIdentStart(typeName[0]) && All(typeName, IsWord) && !IsSpecifier(typeName)
    requires gap != "" && All(gap, IsSpace)
    ensures var e := k + |typeName|; var w := e + |gap|;
      && w < |text| && IsIdentStart(text[k]) && SpecifierAt(text, k).None? && text[k..e] == typeName
      && SkipWhile(text, k, IsWord) == e && SkipWhile(text, e, IsSpace) == w
      && NameAt(text, w) == Some((name, w + |name| + 2))
  {
    hide NameAt, SpecifierAt, SkipWhile, IsSpecifier, HasAt;
    TypeThenSpace(text, k, typeName, gap, Quoted(name));
    NameFound(text, k + |typeName| + |gap|, name);
  }

  lemma FirstIn(s: string, p: char -> bool)
    requires s != "" && All(s, p)
    ensures p(s[0])
  {}

  lemma ThreeParts(text: string, i: nat, a: string, b: string, c: string)
    requires HasAt(text, i, a + (b + c)) && b != "" && c != ""
    ensures var j := i + |a|; var k := j + |b|;
      && HasAt(text, i, a) && HasAt(text, j, b) && HasAt(text, k, c)
      && k < |text| && text[j] == b[0] && text[k] == c[0]
  {
    HasAtSplit(text, i, a, b + c);
    HasAtSplit(text, i + |a|, b, c);
    CharAt(text, i + |a|, b, 0);
    CharAt(text, i + |a| + |b|, c, 0);
  }

  /** The type and the space after it, followed by something that is not space. */
  lemma TypeThenSpace(text: string, k: nat, typeName: string, gap: string, tail: string)
    requires typeName != "" && IsIdentStart(typeName[0]) && All(typeName, IsWord) && !IsSpecifier(typeName)
    requires gap != "" && All(gap, IsSpace) && tail != "" && !IsSpace(tail[0])
    requires HasAt(text, k, typeName + (gap + tail))
    ensures var e := k + |typeName|; var w := e + |gap|;
      && w < |text| && IsIdentStart(text[k]) && SpecifierAt(text, k).None? && text[k..e] == typeName
      && SkipWhile(text, k, IsWord) == e && SkipWhile(text, e, IsSpace) == w && HasAt(text, w, tail)
  {
    hide SpecifierAt, SkipWhile, IsSpecifier, HasAt, All, IsSpace, IsWord, IsIdentStart;
    ThreeParts(text, k, typeName, gap, tail);
    FirstIn(gap, IsSpace);
    TypeFound(text, k, typeName, gap[0]);
    SpaceFound(text, k + |typeName|, gap, tail[0]);
  }

  lemma TypeFound(text: string, k: nat, typeName: string, next: char)
    requires typeName != "" && IsIdentStart(typeName[0]) && All(typeName, IsWord) && !IsSpecifier(typeName)
    requires HasAt(text, k, typeName) && k + |typeName| < |text| && text[k + |typeName|] == next && IsSpace(next)
    ensures IsIdentStart(text[k]) && SpecifierAt(text, k).None? && text[k..k + |typeName|] == typeName
    ensures SkipWhile(text, k, IsWord) == k + |typeName|
  {
    CharAt(text, k, typeName, 0);
    hide SpecifierAt, DeclAt, SkipWhile, IsSpecifier;
    RunFound(text, k, typeName, IsWord);
    NoDeclAtWord(text, k, typeName);
  }

  lemma SpaceFound(text: string, j: nat, gap: string, next: char)
    requires gap != "" && All(gap, IsSpace) && HasAt(text, j, gap)
    requires j + |gap| < |text| && text[j + |gap|] == next && !IsSpace(next)
    ensures SkipWhile(text, j, IsSpace) == j + |gap|
  {
    hide SkipWhile, HasAt;
    RunFound(text, j, gap, IsSpace);
  }

  /** The specifier and the space after it, followed by something that is not space. */
  lemma SpecifierThenSpace(text: string, i: nat, specifier: string, gap: string, tail: string)
    requires IsSpecifier(specifier) && gap != "" && All(gap, IsSpace) && tail != "" && !IsSpace(tail[0])
    requires HasAt(text, i, specifier + (gap + tail))
    ensures var j := i + |specifier|; var k := j + |gap|;
      && k < |text| && text[k] == tail[0] && IsWord(text[i]) && HasAt(text, k, tail)
      && SpecifierAt(text, i) == Some(specifier) && SkipWhile(text, j, IsSpace) == k
  {
    hide SpecifierAt, SkipWhile, HasAt, IsSpecifier;
    ThreeParts(text, i, specifier, gap, tail);
    SpecifierWord(specifier);
    CharAt(text, i, specifier, 0);
    SpaceFound(text, i + |specifier|, gap, tail[0]);
    SpecifierFound(text, i, specifier);
  }

  lemma SpecifierWord(kw: string)
    requires IsSpecifier(kw)
    ensures kw != "" && IsWord(kw[0])
  {}

  // ---- A specifier word that declares nothing -----------------------------

  /** What follows the word and its space is neither a type nor a name. */
  lemma NoDeclAtBare(text: string, i: nat, specifier: string, gap: string, next: char)
    requires TokenOk(Bare(specifier, gap, next))
    requires HasAt(text, i, specifier) && HasAt(text, i + |specifier|, gap)
    requires var k := i + |specifier| + |gap|; k < |text| && text[k] == next
    ensures !IsWord(text[i + |specifier|]) && DeclAt(text, i).None?
  {
    hide HasAt, SkipWhile, IsSpecifier, SpecifierAt;
    var j := i + |specifier|;
    if gap != "" {
      CharAt(text, j, gap, 0);
      FirstIn(gap, IsSpace);
    }
    SpecifierFound(text, i, specifier);
    RunFound(text, j, gap, IsSpace);
  }

  lemma NoVariantAtSpecifier(text: string, i: nat, kw: string)
    requires IsSpecifier(kw) && HasAt(text, i, kw) && i + |kw| < |text| && !IsWord(text[i + |kw|])
    ensures VariantAt(text, i).None?
  {
    hide HasAt;
    if KeywordAt(text, i, "variantSet") { KeywordIsWord(text, i, kw, "variantSet"); }
    if KeywordAt(text, i, "variant") { KeywordIsWord(text, i, kw, "variant"); }
  }

  lemma {:induction false} PassNeutral(text: string, i: nat, e: nat, st: Scan)
    requires i <= e <= |text| && forall k :: i <= k < e ==> IsNeutral(text[k])
    ensures ScanFrom(text, i, st) == ScanFrom(text, e, st)
    decreases e - i
  {
    hide ScanFrom;
    if i < e {
      LexNeutral(text, i, st);
      PassNeutral(text, i + 1, e, st);
    }
  }

  lemma SpecifierChars(kw: string)
    requires IsSpecifier(kw)
    ensures kw != "" && All(kw, IsWord)
  {}

  lemma BareParts(text: string, i: nat, specifier: string, gap: string, next: char)
    requires HasAt(text, i, specifier + (gap + [next]))
    ensures HasAt(text, i, specifier) && HasAt(text, i + |specifier|, gap)
    ensures var k := i + |specifier| + |gap|; k < |text| && text[k] == next
  {
    hide HasAt;
    HasAtSplit(text, i, specifier, gap + [next]);
    HasAtSplit(text, i + |specifier|, gap, [next]);
    assert text[i + |specifier| + |gap| + 0] == [next][0];
  }

  lemma LexBare(text: string, i: nat, specifier: string, gap: string, next: char, st: Scan)
    requires TokenOk(Bare(specifier, gap, next)) && HasAt(text, i, specifier + (gap + [next]))
    ensures ScanFrom(text, i, st) == ScanFrom(text, i + |specifier| + |gap| + 1, st)
  {
    hide ScanFrom, HasAt, DeclAt, VariantAt, IsSpecifier;
    var j := i + |specifier|;
    var e := j + |gap| + 1;
    BareParts(text, i, specifier, gap, next);
    NoDeclAtBare(text, i, specifier, gap, next);
    NoVariantAtSpecifier(text, i, specifier);
    SpecifierChars(specifier);
    WordChars(text, i, specifier);
    PassWordChar(text, i, st);
    WordTail(text, i + 1, j, st);
    forall k | j <= k < e ensures IsNeutral(text[k]) {
      if k < j + |gap| { CharAt(text, j, gap, k - j); }
    }
    PassNeutral(text, j, e, st);
  }

  /**
   A bare specifier never swallows a declaration that follows it as its type: the scan goes on at the
   second specifier, in any text.
   */
  lemma BareSwallowsNothing(text: string, i: nat, first: string, gap: string, second: string, st: Scan)
    requires IsSpecifier(first) && IsSpecifier(second) && gap != "" && All(gap, IsSpace)
    requires KeywordAt(text, i + |first| + |gap|, second) && HasAt(text, i, first + gap)
    requires i == 0 || !IsWord(text[i - 1])
    ensures ScanFrom(text, i, st) == ScanFrom(text, i + |first| + |gap|, st)
  {
    hide ScanFrom, DeclAt, VariantAt, IsSpecifier, HasAt;
    var j := i + |first|;
    var k := j + |gap|;
    HasAtSplit(text, i, first, gap);
    CharAt(text, j, gap, 0);
    FirstIn(gap, IsSpace);
    SpecifierChars(first);
    SpecifierChars(second);
    CharAt(text, k, second, 0);
    NoDeclBeforeSpecifier(text, i, first, gap, second);
    NoVariantAtSpecifier(text, i, first);
    WordChars(text, i, first);
    PassWordChar(text, i, st);
    WordTail(text, i + 1, j, st);
    forall l | j <= l < k ensures IsNeutral(text[l]) { CharAt(text, j, gap, l - j); }
    PassNeutral(text, j, k, st);
  }

  lemma NoDeclBeforeSpecifier(text: string, i: nat, first: string, gap: string, second: string)
    requires IsSpecifier(first) && IsSpecifier(second) && gap != "" && All(gap, IsSpace)
    requires HasAt(text, i, first) && HasAt(text, i + |first|, gap)
    requires i + |first| < |text| && !IsWord(text[i + |first|])
    requires var k := i + |first| + |gap|; k < |text| && IsWord(text[k]) && KeywordAt(text, k, second)
    ensures DeclAt(text, i).None?
  {
    hide HasAt, SkipWhile, IsSpecifier, SpecifierAt, KeywordAt;
    SpecifierFound(text, i, first);
    RunFound(text, i + |first|, gap, IsSpace);
    SpecifierThere(text, i + |first| + |gap|, second);
  }

  lemma SpecifierThere(text: string, i: nat, kw: string)
    requires IsSpecifier(kw) && KeywordAt(text, i, kw)
    ensures SpecifierAt(text, i).Some?
  {}

  lemma BareLength(t: Token)
    requires t.Bare?
    ensures Render(t) == t.specifier + (t.gap + [t.next]) && |Render(t)| == |t.specifier| + |t.gap| + 1
  {}

  lemma DeclTyped(text: string, i: nat, specifier: string, gap: string, typeName: string, typeGap: string, name: string)
    requires TokenOk(Decl(specifier, gap, typeName, typeGap, name)) && typeName != ""
    requires HasAt(text, i, specifier + (gap + (typeName + (typeGap + Quoted(name)))))
    ensures i < |text| && IsWord(text[i])
    ensures DeclAt(text, i) == Some(Head(specifier, typeName, name,
      i + |specifier| + |gap| + |typeName| + |typeGap| + |name| + 2))
  {
    hide HasAt, SpecifierAt, SkipWhile, NameAt, IsSpecifier, Quoted;
    SpecifierThenSpace(text, i, specifier, gap, typeName + (typeGap + Quoted(name)));
    TypedNameFound(text, i + |specifier| + |gap|, typeName, typeGap, name);
  }

  lemma DeclUntyped(text: string, i: nat, specifier: string, gap: string, name: string)
    requires TokenOk(Decl(specifier, gap, "", "", name))
    requires HasAt(text, i, specifier + (gap + Quoted(name)))
    ensures i < |text| && IsWord(text[i])
    ensures DeclAt(text, i) == Some(Head(specifier, "", name, i + |specifier| + |gap| + |name| + 2))
  {
    hide HasAt, SpecifierAt, SkipWhile, NameAt, IsSpecifier;
    SpecifierThenSpace(text, i, specifier, gap, Quoted(name));
    NameFound(text, i + |specifier| + |gap|, name);
  }

  lemma DeclLength(t: Token)
    requires t.Decl? && TokenOk(t)
    ensures |Render(t)| == |t.specifier| + |t.gap| + |t.typeName| + |t.typeGap| + |t.name| + 2
  {}

  lemma DeclFound(text: string, i: nat, t: Token)
    requires t.Decl? && TokenOk(t) && HasAt(text, i, Render(t))
    ensures i < |text| && IsWord(text[i])
    ensures DeclAt(text, i) == Some(Head(t.specifier, t.typeName, t.name, i + |Render(t)|))
  {
    hide HasAt, DeclAt, IsSpecifier;
    DeclLength(t);
    if t.typeName != "" {
      DeclTyped(text, i, t.specifier, t.gap, t.typeName, t.typeGap, t.name);
    } else {
      DeclUntyped(text, i, t.specifier, t.gap, t.name);
    }
  }

  // ---- Exactly what counts as a declaration --------------------------------

  lemma HasAtJoin(text: string, i: nat, a: string, b: string)
    requires HasAt(text, i, a) && HasAt(text, i + |a|, b)
    ensures HasAt(text, i, a + b)
  {
    var m, e := i + |a|, i + |a| + |b|;
    assert text[i..e] == text[i..m] + text[m..e];
  }

  /** The run of a class from i on, as a piece of the text. */
  lemma RunMeans(text: string, i: nat, p: char -> bool)
    requires i <= |text|
    ensures var e := SkipWhile(text, i, p);
      i <= e <= |text| && HasAt(text, i, text[i..e]) && All(text[i..e], p) && (e < |text| ==> !p(text[e]))
  {
    hide SkipWhile;
  }

  lemma NameMeans(text: string, i: nat)
    requires NameAt(text, i).Some?
    ensures var (name, end) := NameAt(text, i).value;
      name != "" && All(name, NotQuote) && end == i + |name| + 2 && HasAt(text, i, Quoted(name))
  {
    hide SkipWhile;
    var (name, end) := NameAt(text, i).value;
    var j := SkipWhile(text, i + 1, NotQuote);
    RunMeans(text, i + 1, NotQuote);
    assert text[i..i + 1] == "\"" && text[j..j + 1] == "\"";
    hide NameAt;
    HasAtJoin(text, i, "\"", name);
    HasAtJoin(text, i, "\"" + name, "\"");
  }

  lemma TypeMeans(text: string, k: nat)
    requires k < |text| && IsIdentStart(text[k]) && SpecifierAt(text, k).None?
    ensures var e := SkipWhile(text, k, IsWord);
      k < e <= |text| && IsIdentStart(text[k..e][0]) && All(text[k..e], IsWord) && !IsSpecifier(text[k..e])
  {
    hide SkipWhile;
    RunMeans(text, k, IsWord);
    var e := SkipWhile(text, k, IsWord);
    assert KeywordAt(text, k, text[k..e]);
  }

  lemma SpecifierMeans(text: string, i: nat)
    requires SpecifierAt(text, i).Some?
    ensures IsSpecifier(SpecifierAt(text, i).value) && KeywordAt(text, i, SpecifierAt(text, i).value)
  {}

  lemma TailMeans(text: string, i: nat, specifier: string, gap: string, tail: string)
    requires HasAt(text, i, specifier) && HasAt(text, i + |specifier|, gap)
    requires HasAt(text, i + |specifier| + |gap|, tail)
    ensures HasAt(text, i, specifier + (gap + tail))
  {
    hide HasAt;
    HasAtJoin(text, i + |specifier|, gap, tail);
    HasAtJoin(text, i, specifier, gap + tail);
  }

  lemma DeclMeansTyped(text: string, i: nat, k: nat) returns (t: Token)
    requires SpecifierAt(text, i).Some? && k == SkipWhile(text, i + |SpecifierAt(text, i).value|, IsSpace)
    requires k > i + |SpecifierAt(text, i).value| && k < |text| && IsIdentStart(text[k]) && SpecifierAt(text, k).None?
    requires DeclAt(text, i).Some?
    ensures t.Decl? && TokenOk(t) && HasAt(text, i, Render(t))
    ensures DeclAt(text, i).value == Head(t.specifier, t.typeName, t.name, i + |Render(t)|)
  {
    hide SkipWhile, SpecifierAt, NameAt, HasAt, IsSpecifier, KeywordAt, DeclAt, All, IsIdentStart, Quoted;
    var kw := SpecifierAt(text, i).value;
    var e := SkipWhile(text, k, IsWord);
    var w := SkipWhile(text, e, IsSpace);
    SpecifierMeans(text, i);
    KeywordHas(text, i, kw);
    RunMeans(text, i + |kw|, IsSpace);
    TypeMeans(text, k);
    RunMeans(text, k, IsWord);
    RunMeans(text, e, IsSpace);
    TypedHead(text, i, k);
    NameMeans(text, w);
    var (name, end) := NameAt(text, w).value;
    t := Decl(kw, text[i + |kw|..k], text[k..e], text[e..w], name);
    TailMeans(text, k, text[k..e], text[e..w], Quoted(name));
    TailMeans(text, i, kw, text[i + |kw|..k], text[k..e] + (text[e..w] + Quoted(name)));
    DeclLength(t);
  }

  lemma TypedHead(text: string, i: nat, k: nat)
    requires SpecifierAt(text, i).Some? && k == SkipWhile(text, i + |SpecifierAt(text, i).value|, IsSpace)
    requires k > i + |SpecifierAt(text, i).value| && k < |text| && IsIdentStart(text[k]) && SpecifierAt(text, k).None?
    requires DeclAt(text, i).Some?
    ensures var e := SkipWhile(text, k, IsWord); var w := SkipWhile(text, e, IsSpace);
      && e < w && e <= |text| && NameAt(text, w).Some?
      && DeclAt(text, i).value
           == Head(SpecifierAt(text, i).value, text[k..e], NameAt(text, w).value.0, NameAt(text, w).value.1)
  {
    hide SkipWhile, SpecifierAt, NameAt;
  }

  lemma KeywordHas(text: string, i: nat, kw: string)
    requires KeywordAt(text, i, kw)
    ensures HasAt(text, i, kw) && i + |kw| <= |text|
  {}

  lemma DeclMeansUntyped(text: string, i: nat, k: nat) returns (t: Token)
    requires SpecifierAt(text, i).Some? && k == SkipWhile(text, i + |SpecifierAt(text, i).value|, IsSpace)
    requires k > i + |SpecifierAt(text, i).value|
    requires !(k < |text| && IsIdentStart(text[k]) && SpecifierAt(text, k).None?)
    requires DeclAt(text, i).Some?
    ensures t.Decl? && TokenOk(t) && HasAt(text, i, Render(t))
    ensures DeclAt(text, i).value == Head(t.specifier, t.typeName, t.name, i + |Render(t)|)
  {
    hide SkipWhile, SpecifierAt, NameAt, HasAt, IsSpecifier, KeywordAt, DeclAt, All, IsIdentStart, Quoted;
    var kw := SpecifierAt(text, i).value;
    SpecifierMeans(text, i);
    KeywordHas(text, i, kw);
    RunMeans(text, i + |kw|, IsSpace);
    UntypedHead(text, i, k);
    NameMeans(text, k);
    var (name, end) := NameAt(text, k).value;
    t := Decl(kw, text[i + |kw|..k], "", "", name);
    NoneInEmpty(IsSpace);
    TailMeans(text, i, kw, text[i + |kw|..k], Quoted(name));
    DeclLength(t);
  }

  lemma NoneInEmpty(p: char -> bool)
    ensures All("", p)
  {}

  lemma UntypedHead(text: string, i: nat, k: nat)
    requires SpecifierAt(text, i).Some? && k == SkipWhile(text, i + |SpecifierAt(text, i).value|, IsSpace)
    requires k > i + |SpecifierAt(text, i).value|
    requires !(k < |text| && IsIdentStart(text[k]) && SpecifierAt(text, k).None?)
    requires DeclAt(text, i).Some?
    ensures NameAt(text, k).Some?
    ensures DeclAt(text, i).value
      == Head(SpecifierAt(text, i).value, "", NameAt(text, k).value.0, NameAt(text, k).value.1)
  {
    hide SkipWhile, SpecifierAt, NameAt;
  }

  /**
   Exactly what counts as a declaration, at any place of any text: a match there is a well-formed
   declaration with those parts, standing there and ending there. `DeclFound` is the converse.
   */
  lemma DeclMeans(text: string, i: nat) returns (t: Token)
    requires DeclAt(text, i).Some?
    ensures t.Decl? && TokenOk(t) && HasAt(text, i, Render(t))
    ensures DeclAt(text, i).value == Head(t.specifier, t.typeName, t.name, i + |Render(t)|)
  {
    hide SkipWhile, SpecifierAt, NameAt;
    var k := SkipWhile(text, i + |SpecifierAt(text, i).value|, IsSpace);
    if k < |text| && IsIdentStart(text[k]) && SpecifierAt(text, k).None? {
      t := DeclMeansTyped(text, i, k);
    } else {
      t := DeclMeansUntyped(text, i, k);
    }
  }

  lemma NextDecl(text: string, i: nat, t: Token, st: Scan)
    requires t.Decl? && TokenOk(t) && Bounded(text, i, t) && st.paren == 0
    ensures i < |text| && Next(text, i, st) == (i + |Render(t)|, Play(st, t))
  {
    hide DeclAt, Render;
    DeclFound(text, i, t);
  }

  // ---- Lexing a list -------------------------------------------------------

  lemma NextPunctuation(text: string, i: nat, t: Token, st: Scan)
    requires (t.LParen? || t.RParen? || t.LBrace? || t.RBrace?) && HasAt(text, i, Render(t))
    ensures i < |text| && Next(text, i, st) == (i + 1, Play(st, t))
  {
    CharAt(text, i, Render(t), 0);
  }

  lemma LexToken(text: string, i: nat, t: Token, st: Scan)
    requires TokenOk(t) && Bounded(text, i, t) && (t.Decl? ==> st.paren == 0)
    ensures ScanFrom(text, i, st) == ScanFrom(text, i + |Render(t)|, Play(st, t))
  {
    hide ScanFrom, Next, Render, TokenOk, Bounded, HasAt;
    if t.Sym? || t.Word? || t.Bare? || t.Comment? {
      LexRun(text, i, t, st);
    } else if t.VariantKeyword? {
      LexVariant(text, i, t.isSet, st);
    } else {
      NextToken(text, i, t, st);
      StepBy(text, i, st);
    }
  }

  lemma LexSym(text: string, i: nat, c: char, st: Scan)
    requires TokenOk(Sym(c)) && HasAt(text, i, Render(Sym(c)))
    ensures ScanFrom(text, i, st) == ScanFrom(text, i + |Render(Sym(c))|, st)
  {
    hide ScanFrom;
    CharAt(text, i, [c], 0);
    LexNeutral(text, i, st);
  }

  lemma LexRun(text: string, i: nat, t: Token, st: Scan)
    requires (t.Sym? || t.Word? || t.Bare? || t.Comment?) && TokenOk(t) && Bounded(text, i, t)
    ensures ScanFrom(text, i, st) == ScanFrom(text, i + |Render(t)|, st)
  {
    hide ScanFrom, Next, Render, HasAt;
    if t.Sym? {
      LexSym(text, i, t.c, st);
    } else if t.Word? {
      LexWord(text, i, t.w, st);
    } else if t.Bare? {
      BareLength(t);
      LexBare(text, i, t.specifier, t.gap, t.next, st);
    } else {
      LexComment(text, i, t.note, st);
    }
  }

  lemma NextToken(text: string, i: nat, t: Token, st: Scan)
    requires !t.Sym? && !t.Word? && !t.Bare? && !t.Comment? && !t.VariantKeyword?
    requires TokenOk(t) && Bounded(text, i, t) && (t.Decl? ==> st.paren == 0)
    ensures i < |text| && Next(text, i, st) == (i + |Render(t)|, Play(st, t))
  {
    hide Next, Render, TokenOk;
    if t.Quote? || t.Single? || t.Long? || t.Asset? || t.LongAsset? {
      NextText(text, i, t, st);
    } else if t.Decl? {
      NextDecl(text, i, t, st);
    } else {
      hide Bounded;
      BoundedHas(text, i, t);
      NextPunctuation(text, i, t, st);
      PunctuationLength(t);
    }
  }

  lemma PunctuationLength(t: Token)
    requires t.LParen? || t.RParen? || t.LBrace? || t.RBrace?
    ensures |Render(t)| == 1
  {}

  lemma NextText(text: string, i: nat, t: Token, st: Scan)
    requires t.Quote? || t.Single? || t.Long? || t.Asset? || t.LongAsset?
    requires TokenOk(t) && Bounded(text, i, t)
    ensures i < |text| && Next(text, i, st) == (i + |Render(t)|, st)
  {
    hide Next, TokenOk, Bounded, UsdStr;
    BoundedHas(text, i, t);
    if t.Quote? {
      NextQuote(text, i, t.value, st);
    } else if t.Single? {
      NextSingle(text, i, t.raw, st);
    } else if t.Long? {
      NextLong(text, i, t.quote, t.text, st);
    } else if t.Asset? {
      NextAsset(text, i, t.path, st);
    } else {
      NextLongAsset(text, i, t.path, st);
    }
  }

  lemma FirstChar(t: Token)
    requires TokenOk(t)
    ensures Render(t) != ""
    ensures !StartsWord(t) ==> !IsWord(Render(t)[0])
    ensures !StartsWith(t, '"') ==> Render(t)[0] != '"'
    ensures !StartsWith(t, '\'') ==> Render(t)[0] != '\''
  {}

  lemma LastChar(t: Token)
    requires TokenOk(t) && !EndsWord(t)
    ensures Render(t) != "" && !IsWord(Render(t)[|Render(t)| - 1])
  {}

  /** The rest of a printed list starts with a character its neighbour allows. */
  lemma NextChar(ts: seq<Token>)
    requires Separated(ts) && |ts| >= 2
    ensures var rest := RenderAll(ts[1..]);
      && rest != "" && (EndsWord(ts[0]) ==> !IsWord(rest[0]))
      && (EmptyLiteralOf(ts[0], '"') ==> rest[0] != '"') && (EmptyLiteralOf(ts[0], '\'') ==> rest[0] != '\'')
  {
    assert Apart(ts[0], ts[0 + 1]);
    FirstChar(ts[1]);
    assert RenderAll(ts[1..])[0] == Render(ts[1])[0];
  }

  /** The first token of a printed list, in its place in the text. */
  lemma FirstInPlace(text: string, i: nat, ts: seq<Token>)
    requires i <= |text| && text[i..] == RenderAll(ts) && Separated(ts) && ts != []
    requires StartsWord(ts[0]) ==> i == 0 || !IsWord(text[i - 1])
    ensures var e := i + |Render(ts[0])|;
      Bounded(text, i, ts[0]) && i < e <= |text| && text[e..] == RenderAll(ts[1..])
  {
    hide Render;
    var t := ts[0];
    var e := i + |Render(t)|;
    assert text[i..] == Render(t) + RenderAll(ts[1..]);
    assert |text| - i == |Render(t)| + |RenderAll(ts[1..])|;
    assert text[i..e] == text[i..][..|Render(t)|] == Render(t);
    assert text[e..] == text[i..][|Render(t)|..] == RenderAll(ts[1..]);
    FirstChar(t);
    if |ts| >= 2 {
      NextChar(ts);
      assert text[e] == text[e..][0];
    }
  }

  /** The token after it starts where it may. */
  lemma SecondInPlace(text: string, i: nat, ts: seq<Token>)
    requires Separated(ts) && |ts| >= 2 && StartsWord(ts[1]) && HasAt(text, i, Render(ts[0]))
    ensures var e := i + |Render(ts[0])|; i < e <= |text| && !IsWord(text[e - 1])
  {
    hide Render;
    assert Apart(ts[0], ts[0 + 1]);
    LastChar(ts[0]);
    CharAt(text, i, Render(ts[0]), |Render(ts[0])| - 1);
  }

  lemma ScanEnd(text: string, st: Scan)
    ensures ScanFrom(text, |text|, st) == st
  {}

  /** Scanning a printed token list is playing it on the token machine. */
  lemma {:induction false} ScanPlays(text: string, i: nat, ts: seq<Token>, st: Scan)
    requires i <= |text| && text[i..] == RenderAll(ts) && Separated(ts) && DeclsOutside(st, ts)
    requires ts != [] && StartsWord(ts[0]) ==> i == 0 || !IsWord(text[i - 1])
    ensures ScanFrom(text, i, st) == PlayAll(st, ts)
    decreases |ts|
  {
    hide ScanFrom, Render, Bounded, TokenOk, Apart, Play;
    if ts == [] {
      ScanEnd(text, st);
    } else {
      FirstInPlace(text, i, ts);
      BoundedHas(text, i, ts[0]);
      LexToken(text, i, ts[0], st);
      if |ts| >= 2 && StartsWord(ts[1]) { SecondInPlace(text, i, ts); }
      ScanPlays(text, i + |Render(ts[0])|, ts[1..], Play(st, ts[0]));
    }
  }

  lemma BoundedHas(text: string, i: nat, t: Token)
    requires Bounded(text, i, t)
    ensures HasAt(text, i, Render(t))
  {}
}
