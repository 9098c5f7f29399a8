/**
 `_prim_specs`: the structural scan of a USD text layer for prim declarations, without a USD
 parser. Word characters are the ASCII ones.
 */
module PrimScanner {
  import opened Common
  import opened UsdText

  datatype Spec = Spec(specifier: string, typeName: string, path: string)
  datatype Scope = PrimScope(name: string) | VariantScope

  /** The variables of the scan loop. */
  datatype Scan = Scan(specs: seq<Spec>, stack: seq<Scope>, pending: Option<string>, pendingVariant: bool, paren: nat)

  const START := Scan([], [], None, false, 0)

  // ---- Lexical helpers -----------------------------------------------------

  predicate IsIdentStart(c: char) { 'a' <= c <= 'z' || 'A' <= c <= 'Z' || c == '_' }
  predicate IsWord(c: char) { IsIdentStart(c) || '0' <= c <= '9' }
  predicate IsSpace(c: char) { c == ' ' || c == '\t' || c == '\r' || c == '\n' }

  /** Characters next to each other in the code table. */
  predicate Consecutive(s: string) { forall i :: 0 <= i < |s| ==> s[i] as int == s[0] as int + i }

  lemma InRange(s: string, c: char)
    requires s != "" && Consecutive(s)
    ensures c in s <==> s[0] <= c <= s[|s| - 1]
  {
    if s[0] <= c <= s[|s| - 1] { assert s[c as int - s[0] as int] == c; }
  }

  const LOWER := "abcdefghijklmnopqrstuvwxyz"
  const UPPER := "ABCDEFGHIJKLMNOPQRSTUVWXYZ"
  const DIGITS := "0123456789"

  lemma LowerCase(c: char)
    ensures c in LOWER <==> 'a' <= c <= 'z'
  {
    InRange(LOWER, c);
  }

  lemma UpperCase(c: char)
    ensures c in UPPER <==> 'A' <= c <= 'Z'
  {
    InRange(UPPER, c);
  }

  lemma Digit(c: char)
    ensures c in DIGITS <==> '0' <= c <= '9'
  {
    InRange(DIGITS, c);
  }

  /** The character classes, spelled out. */
  lemma CharacterClasses(c: char)
    ensures IsSpace(c) <==> c in " \t\r\n"
    ensures IsIdentStart(c) <==> c in LOWER || c in UPPER || c == '_'
    ensures IsWord(c) <==> c in LOWER || c in UPPER || c == '_' || c in DIGITS
  {
    LowerCase(c);
    UpperCase(c);
    Digit(c);
  }

  predicate NotQuote(c: char) { c != '"' }
  predicate NotNewline(c: char) { c != '\n' }

  /** `text.find(pattern, i)`, with |text| for a miss. */
  function Find(text: string, pattern: string, i: nat): (j: nat)
    ensures j >= i || j == |text|
    decreases |text| - i
  {
    if i + |pattern| > |text| then |text|
    else if text[i..i + |pattern|] == pattern then i
    else Find(text, pattern, i + 1)
  }

  /** The end of the run of characters of a class that starts at i. */
  function SkipWhile(text: string, i: nat, p: char -> bool): (j: nat)
    ensures i <= j && (i <= |text| ==> j <= |text|)
    ensures forall k :: i <= k < j && k < |text| ==> p(text[k])
    ensures j < |text| ==> !p(text[j])
    decreases |text| - i
  {
    if i < |text| && p(text[i]) then SkipWhile(text, i + 1, p) else i
  }

  /** A keyword followed by a word boundary. */
  predicate KeywordAt(text: string, i: nat, kw: string) {
    HasAt(text, i, kw) && (i + |kw| == |text| || !IsWord(text[i + |kw|]))
  }

  function SpecifierAt(text: string, i: nat): Option<string> {
    if KeywordAt(text, i, "def") then Some("def")
    else if KeywordAt(text, i, "over") then Some("over")
    else if KeywordAt(text, i, "class") then Some("class")
    else None
  }

  /** A quoted, non-empty, quote-free name: the name and the index past its closing quote. */
  function NameAt(text: string, i: nat): Option<(string, nat)> {
    if i >= |text| || text[i] != '"' then None else
      var j := SkipWhile(text, i + 1, NotQuote);
      if j >= |text| || j == i + 1 then None else Some((text[i + 1..j], j + 1))
  }

  datatype Head = Head(specifier: string, typeName: string, name: string, end: nat)

  /** The prim declaration pattern: specifier, optional type that is no specifier, quoted name. */
  function DeclAt(text: string, i: nat): Option<Head> {
    var kw := SpecifierAt(text, i);
    if kw.None? then None else
      var j := i + |kw.value|;
      var k := SkipWhile(text, j, IsSpace);
      if k == j then None
      else if k < |text| && IsIdentStart(text[k]) && SpecifierAt(text, k).None? then
        var e := SkipWhile(text, k, IsWord);
        var w := SkipWhile(text, e, IsSpace);
        if w == e || e > |text| then None else
          (match NameAt(text, w)
           case None => None
           case Some((name, end)) => Some(Head(kw.value, text[k..e], name, end)))
      else
        match NameAt(text, k)
        case None => None
        case Some((name, end)) => Some(Head(kw.value, "", name, end))
  }

  /** The end of a `variantSet` or `variant` keyword. */
  function VariantAt(text: string, i: nat): Option<nat> {
    if KeywordAt(text, i, "variantSet") then Some(i + 10)
    else if KeywordAt(text, i, "variant") then Some(i + 7)
    else None
  }

  // ---- Paths ---------------------------------------------------------------

  function PrimNames(stack: seq<Scope>): seq<string> {
    if stack == [] then [] else
      var names := PrimNames(stack[..|stack| - 1]);
      match stack[|stack| - 1] case PrimScope(name) => names + [name] case VariantScope => names
  }

  /** "/" joined over the names. */
  function Path(names: seq<string>): string {
    if names == [] then "" else Path(names[..|names| - 1]) + "/" + names[|names| - 1]
  }

  lemma PathSnoc(names: seq<string>, name: string)
    ensures Path(names + [name]) == Path(names) + ("/" + name)
  {
    assert (names + [name])[..|names|] == names;
    Assoc(Path(names), "/", name);
  }

  /** A path is its names, each after a slash. */
  lemma {:induction false} PathJoins(a: seq<string>, b: seq<string>)
    ensures Path(a + b) == Path(a) + Path(b)
    decreases |b|
  {
    if b == [] {
      assert a + b == a;
    } else {
      hide Path;
      var init, last := b[..|b| - 1], b[|b| - 1];
      PathJoins(a, init);
      PathSnoc(a + init, last);
      PathSnoc(init, last);
      assert b == init + [last];
      assert a + b == a + init + [last];
      Assoc(Path(a), Path(init), "/" + last);
    }
  }

  lemma PathOfOne(name: string)
    ensures Path([name]) == "/" + name && Path([]) == ""
  {
    assert [name][..0] == [];
    assert "" + "/" + name == "/" + name;
  }

  // ---- One round of the loop -----------------------------------------------

  function OpenBrace(st: Scan): Scan {
    if st.pending.Some? then st.(stack := st.stack + [PrimScope(st.pending.value)], pending := None)
    else if st.pendingVariant then st.(stack := st.stack + [VariantScope], pendingVariant := false)
    else if st.stack != [] && st.stack[|st.stack| - 1].VariantScope? then st.(stack := st.stack + [VariantScope])
    else st.(stack := st.stack + [PrimScope("")])
  }

  function CloseBrace(st: Scan): Scan {
    if st.stack == [] then st else st.(stack := st.stack[..|st.stack| - 1])
  }

  function Declare(st: Scan, specifier: string, typeName: string, name: string): Scan {
    st.(specs := st.specs + [Spec(specifier, typeName, Path(PrimNames(st.stack) + [name]))],
        pending := Some(name), pendingVariant := false)
  }

  predicate LeftOk(text: string, i: nat)
    requires i < |text|
  {
    i == 0 || !IsWord(text[i - 1])
  }

  function SkipString(text: string, i: nat): nat
    requires i < |text|
  {
    var c := text[i];
    if HasAt(text, i, [c, c, c]) then
      var end := Find(text, [c, c, c], i + 3);
      if end >= |text| then |text| else end + 3
    else SkipLiteral(text, i + 1, c)
  }

  function SkipAsset(text: string, i: nat): nat
    requires i < |text|
  {
    var marker := if HasAt(text, i, "@@@") then "@@@" else "@";
    var end := Find(text, marker, i + |marker|);
    if end >= |text| then |text| else end + |marker|
  }

  /** At a character outside literals, comments, parentheses and braces. */
  function Plain(text: string, i: nat, st: Scan): (nat, Scan)
    requires i < |text|
  {
    if !LeftOk(text, i) then (i + 1, st) else
      match DeclAt(text, i)
      case Some(h) => (h.end, Declare(st, h.specifier, h.typeName, h.name))
      case None =>
        match VariantAt(text, i)
        case Some(end) => (end, st.(pendingVariant := true))
        case None => (i + 1, st)
  }

  /** One iteration of the while loop: the next index and the new variables. */
  function Next(text: string, i: nat, st: Scan): (nat, Scan)
    requires i < |text|
  {
    var c := text[i];
    if c == '"' || c == '\'' then (SkipString(text, i), st)
    else if c == '@' then (SkipAsset(text, i), st)
    else if c == '#' then (SkipWhile(text, i, NotNewline), st)
    else if c == '(' then (i + 1, st.(paren := st.paren + 1))
    else if c == ')' then (i + 1, st.(paren := if st.paren == 0 then 0 else st.paren - 1))
    else if st.paren > 0 then (i + 1, st)
    else if c == '{' then (i + 1, OpenBrace(st))
    else if c == '}' then (i + 1, CloseBrace(st))
    else Plain(text, i, st)
  }

  lemma {:induction false} SkipLiteralAdvances(text: string, i: nat, quote: char)
    ensures SkipLiteral(text, i, quote) > i
    decreases |text| - i
  {
    if i < |text| && text[i] != quote {
      SkipLiteralAdvances(text, i + (if text[i] == '\\' then 2 else 1), quote);
    }
  }

  lemma DeclAdvances(text: string, i: nat)
    ensures DeclAt(text, i).Some? ==> DeclAt(text, i).value.end > i
  {
    hide KeywordAt, Find, SkipLiteral;
  }

  lemma VariantAdvances(text: string, i: nat)
    ensures VariantAt(text, i).Some? ==> VariantAt(text, i).value > i
  {}

  lemma PlainAdvances(text: string, i: nat, st: Scan)
    requires i < |text|
    ensures Plain(text, i, st).0 > i
  {
    DeclAdvances(text, i);
    VariantAdvances(text, i);
    hide DeclAt, VariantAt;
  }

  lemma NextAdvances(text: string, i: nat, st: Scan)
    requires i < |text|
    ensures Next(text, i, st).0 > i
  {
    SkipLiteralAdvances(text, i + 1, text[i]);
    PlainAdvances(text, i, st);
    hide Plain, SkipLiteral;
  }

  /** The scan from index i to the end of the text. */
  function ScanFrom(text: string, i: nat, st: Scan): Scan
    decreases |text| - i
  {
    if i >= |text| then st else
      NextAdvances(text, i, st);
      var (j, st') := Next(text, i, st);
      ScanFrom(text, j, st')
  }

  function PrimSpecs(text: string): seq<Spec> { ScanFrom(text, 0, START).specs }

  // ---- The loop as written -------------------------------------------------

  method SkipStringLoop(text: string, start: nat) returns (i: nat)
    requires start < |text|
    ensures i == SkipString(text, start)
  {
    var c := text[start];
    i := start;
    if HasAt(text, i, [c, c, c]) {
      var end := Find(text, [c, c, c], i + 3);
      i := if end >= |text| then |text| else end + 3;
    } else {
      i := i + 1;
      while i < |text| && text[i] != c
        invariant SkipLiteral(text, i, c) == SkipLiteral(text, start + 1, c)
        decreases |text| - i
      {
        i := i + (if text[i] == '\\' then 2 else 1);
      }
      i := i + 1;
    }
  }

  method ScanLayer(text: string) returns (specs: seq<Spec>)
    ensures specs == PrimSpecs(text)
  {
    var st := START;
    var i := 0;
    while i < |text|
      invariant ScanFrom(text, i, st) == ScanFrom(text, 0, START)
      decreases |text| - i
    {
      NextAdvances(text, i, st);
      var c := text[i];
      if c == '"' || c == '\'' {
        i := SkipStringLoop(text, i);
      } else if c == '@' {
        i := SkipAsset(text, i);
      } else if c == '#' {
        i := SkipWhile(text, i, NotNewline);
      } else if c == '(' {
        st := st.(paren := st.paren + 1);
        i := i + 1;
      } else if c == ')' {
        st := st.(paren := if st.paren == 0 then 0 else st.paren - 1);
        i := i + 1;
      } else if st.paren > 0 {
        i := i + 1;
      } else if c == '{' {
        st := OpenBrace(st);
        i := i + 1;
      } else if c == '}' {
        st := CloseBrace(st);
        i := i + 1;
      } else {
        var leftOk := i == 0 || !IsWord(text[i - 1]);
        var decl := if leftOk then DeclAt(text, i) else None;
        var variant := if leftOk then VariantAt(text, i) else None;
        if decl.Some? {
          st := Declare(st, decl.value.specifier, decl.value.typeName, decl.value.name);
          i := decl.value.end;
        } else if variant.Some? {
          st := st.(pendingVariant := true);
          i := variant.value;
        } else {
          i := i + 1;
        }
      }
    }
    specs := st.specs;
  }
}
