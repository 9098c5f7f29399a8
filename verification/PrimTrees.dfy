/**
 Prim trees and their printed layers. The scanner inverts the printer: it returns exactly the
 preorder list of the prims printed, with their paths.
 */
module PrimTrees {
  import opened Common
  import opened UsdText
  import opened PrimScanner
  import opened LayerTokens

  /** A prim: its declaration, metadata or space before its brace, and its body. */
  datatype Prim = Prim(head: Token, meta: seq<Token>, body: seq<Item>)

  datatype Item =
    | Attribute(tokens: seq<Token>)
    | Child(prim: Prim)
    | VariantSet(lead: seq<Token>, variants: seq<Variant>)
    | Block(lead: seq<Token>, items: seq<Item>)
    | Stray(isSet: bool, gap: seq<Token>, prim: Prim)

  /** A variant's lead and body. */
  datatype Variant = Variant(lead: seq<Token>, body: seq<Item>)

  // ---- Printing ------------------------------------------------------------

  function PrimTokens(p: Prim): seq<Token>
    decreases p, 1
  {
    [p.head] + (p.meta + ([LBrace] + (ItemsTokens(p.body) + [RBrace])))
  }

  function ItemTokens(it: Item): seq<Token>
    decreases it, 1
  {
    match it
    case Attribute(tokens) => tokens
    case Child(prim) => PrimTokens(prim)
    case VariantSet(lead, variants) =>
      [VariantKeyword(true)] + (lead + ([LBrace] + (VariantsTokens(variants) + [RBrace])))
    case Block(lead, items) => lead + ([LBrace] + (ItemsTokens(items) + [RBrace]))
    case Stray(isSet, gap, prim) => [VariantKeyword(isSet)] + (gap + PrimTokens(prim))
  }

  function ItemsTokens(items: seq<Item>): seq<Token>
    decreases items, 0
  {
    if items == [] then [] else ItemTokens(items[0]) + ItemsTokens(items[1..])
  }

  function VariantsTokens(vs: seq<Variant>): seq<Token>
    decreases vs, 0
  {
    if vs == [] then [] else
      (vs[0].lead + ([LBrace] + (ItemsTokens(vs[0].body) + [RBrace]))) + VariantsTokens(vs[1..])
  }

  // ---- The specs a layer declares ------------------------------------------

  function PrimPreorder(p: Prim, names: seq<string>): seq<Spec>
    requires PrimOk(p)
    decreases p, 1
  {
    [Spec(p.head.specifier, p.head.typeName, Path(names + [p.head.name]))]
    + ItemsPreorder(p.body, names + [p.head.name], false)
  }

  /**
   A variant scope adds no path segment, and directly inside one neither does a brace that belongs to
   nothing; elsewhere such a brace adds a nameless segment.
   */
  function ItemPreorder(it: Item, names: seq<string>, inVariant: bool): seq<Spec>
    requires ItemOk(it)
    decreases it, 1
  {
    match it
    case Attribute(_) => []
    case Child(prim) => PrimPreorder(prim, names)
    case VariantSet(_, variants) => VariantsPreorder(variants, names)
    case Block(_, items) => ItemsPreorder(items, if inVariant then names else names + [""], inVariant)
    case Stray(_, _, prim) => PrimPreorder(prim, names)
  }

  function ItemsPreorder(items: seq<Item>, names: seq<string>, inVariant: bool): seq<Spec>
    requires ItemsOk(items)
    decreases items, 0
  {
    if items == [] then []
    else ItemPreorder(items[0], names, inVariant) + ItemsPreorder(items[1..], names, inVariant)
  }

  function VariantsPreorder(vs: seq<Variant>, names: seq<string>): seq<Spec>
    requires VariantsOk(vs)
    decreases vs, 0
  {
    if vs == [] then [] else ItemsPreorder(vs[0].body, names, true) + VariantsPreorder(vs[1..], names)
  }

  // ---- Inert text ----------------------------------------------------------

  /** Metadata or a lead: tokens that declare and open nothing, with braces only inside balanced parentheses. */
  predicate Inert(ts: seq<Token>, depth: nat) {
    if ts == [] then depth == 0
    else match ts[0]
      case LParen => Inert(ts[1..], depth + 1)
      case RParen => depth > 0 && Inert(ts[1..], depth - 1)
      case LBrace => depth > 0 && Inert(ts[1..], depth)
      case RBrace => depth > 0 && Inert(ts[1..], depth)
      case VariantKeyword(_) => depth > 0 && Inert(ts[1..], depth)
      case Decl(_, _, _, _, _) => false
      case _ => Inert(ts[1..], depth)
  }

  /**
   Tokens that declare nothing and close every brace they open: an attribute, dictionary-valued ones
   included. The scan opens a nameless scope for each of their braces.
   */
  predicate Quiet(ts: seq<Token>, depth: nat, braces: nat) {
    if ts == [] then depth == 0 && braces == 0
    else match ts[0]
      case LParen => Quiet(ts[1..], depth + 1, braces)
      case RParen => depth > 0 && Quiet(ts[1..], depth - 1, braces)
      case LBrace => Quiet(ts[1..], depth, if depth > 0 then braces else braces + 1)
      case RBrace =>
        if depth > 0 then Quiet(ts[1..], depth, braces) else braces > 0 && Quiet(ts[1..], depth, braces - 1)
      case VariantKeyword(_) => depth > 0 && Quiet(ts[1..], depth, braces)
      case Decl(_, _, _, _, _) => false
      case _ => Quiet(ts[1..], depth, braces)
  }

  predicate PrimOk(p: Prim)
    decreases p, 1
  {
    p.head.Decl? && Inert(p.meta, 0) && ItemsOk(p.body)
  }

  predicate ItemOk(it: Item)
    decreases it, 1
  {
    match it
    case Attribute(tokens) => Quiet(tokens, 0, 0)
    case Child(prim) => PrimOk(prim)
    case VariantSet(lead, variants) => Inert(lead, 0) && VariantsOk(variants)
    case Block(lead, items) => Inert(lead, 0) && ItemsOk(items)
    case Stray(_, gap, prim) => Inert(gap, 0) && PrimOk(prim)
  }

  predicate ItemsOk(items: seq<Item>)
    decreases items, 0
  {
    items == [] || (ItemOk(items[0]) && ItemsOk(items[1..]))
  }

  predicate VariantsOk(vs: seq<Variant>)
    decreases vs, 0
  {
    vs == [] || (Inert(vs[0].lead, 0) && ItemsOk(vs[0].body) && VariantsOk(vs[1..]))
  }

  // ---- Playing a tree ------------------------------------------------------

  lemma {:induction false} PlayConcat(st: Scan, a: seq<Token>, b: seq<Token>)
    ensures PlayAll(st, a + b) == PlayAll(PlayAll(st, a), b)
    ensures DeclsOutside(st, a + b) <==> DeclsOutside(st, a) && DeclsOutside(PlayAll(st, a), b)
    decreases |a|
  {
    if a == [] {
      assert a + b == b;
    } else {
      assert (a + b)[1..] == a[1..] + b;
      PlayConcat(Play(st, a[0]), a[1..], b);
    }
  }

  lemma PlayOne(st: Scan, t: Token)
    ensures PlayAll(st, [t]) == Play(st, t) && (DeclsOutside(st, [t]) <==> (t.Decl? ==> st.paren == 0))
  {
    assert [t][1..] == [];
  }

  lemma {:induction false} PlayInert(st: Scan, ts: seq<Token>)
    requires Inert(ts, st.paren)
    ensures PlayAll(st, ts) == st.(paren := 0) && DeclsOutside(st, ts)
    decreases |ts|
  {
    if ts != [] { PlayInert(Play(st, ts[0]), ts[1..]); }
  }

  /** Nothing awaits a brace. */
  predicate NothingPending(st: Scan) { st.pending.None? && !st.pendingVariant }

  /** Between declarations. */
  predicate Idle(st: Scan) { st.paren == 0 && NothingPending(st) }

  /** The scan with the innermost scopes closed. */
  function Cut(st: Scan, braces: nat): Scan
    requires braces <= |st.stack|
  {
    st.(paren := 0, stack := st.stack[..|st.stack| - braces])
  }

  lemma BraceCut(st: Scan, braces: nat)
    requires NothingPending(st) && st.paren == 0 && braces <= |st.stack|
    ensures var inside := OpenBrace(st);
      && NothingPending(inside) && inside.paren == 0 && |inside.stack| == |st.stack| + 1
      && Cut(inside, braces + 1) == Cut(st, braces)
    ensures braces > 0 ==>
      |CloseBrace(st).stack| == |st.stack| - 1 && Cut(CloseBrace(st), braces - 1) == Cut(st, braces)
  {
    assert OpenBrace(st).stack[..|st.stack| - braces] == st.stack[..|st.stack| - braces];
    if braces > 0 {
      assert CloseBrace(st).stack[..|st.stack| - braces] == st.stack[..|st.stack| - braces];
    }
  }

  /** An attribute leaves the scan as it was, every scope it opened closed again. */
  lemma {:induction false} PlayQuiet(st: Scan, ts: seq<Token>, braces: nat)
    requires Quiet(ts, st.paren, braces) && NothingPending(st) && braces <= |st.stack|
    ensures PlayAll(st, ts) == Cut(st, braces) && DeclsOutside(st, ts)
    decreases |ts|
  {
    if ts == [] {
      assert st.stack[..|st.stack|] == st.stack;
    } else if st.paren == 0 && (ts[0].LBrace? || ts[0].RBrace?) {
      BraceCut(st, braces);
      hide Cut, OpenBrace, CloseBrace;
      PlayQuiet(Play(st, ts[0]), ts[1..], if ts[0].LBrace? then braces + 1 else braces - 1);
    } else {
      PlayQuiet(Play(st, ts[0]), ts[1..], braces);
    }
  }

  /** What playing tokens does to an idle scan: it only adds specs. */
  ghost predicate Adds(st: Scan, ts: seq<Token>, specs: seq<Spec>) {
    PlayAll(st, ts) == st.(specs := st.specs + specs) && DeclsOutside(st, ts)
  }

  lemma AddsConcat(st: Scan, a: seq<Token>, x: seq<Spec>, b: seq<Token>, y: seq<Spec>)
    requires Adds(st, a, x) && Adds(st.(specs := st.specs + x), b, y)
    ensures Adds(st, a + b, x + y)
  {
    PlayConcat(st, a, b);
    assert st.specs + x + y == st.specs + (x + y);
  }

  /** A braced body, once its opening brace has pushed a scope. */
  lemma PlayBraced(st: Scan, inside: Scan, body: seq<Token>, specs: seq<Spec>)
    requires st.paren == 0 && inside == OpenBrace(st) && inside.paren == 0
    requires Adds(inside, body, specs) && inside.stack != []
    ensures PlayAll(st, [LBrace] + (body + [RBrace]))
      == inside.(specs := inside.specs + specs, stack := inside.stack[..|inside.stack| - 1])
    ensures DeclsOutside(st, [LBrace] + (body + [RBrace]))
  {
    PlayOne(st, LBrace);
    PlayConcat(st, [LBrace], body + [RBrace]);
    PlayConcat(inside, body, [RBrace]);
    PlayOne(PlayAll(inside, body), RBrace);
  }

  /** A lead or metadata, then a braced body. */
  lemma PlayLabelled(st: Scan, lead: seq<Token>, body: seq<Token>, specs: seq<Spec>)
    requires st.paren == 0 && Inert(lead, 0) && Adds(OpenBrace(st), body, specs)
    ensures var inside := OpenBrace(st);
      && inside.stack != []
      && PlayAll(st, lead + ([LBrace] + (body + [RBrace])))
           == inside.(specs := inside.specs + specs, stack := inside.stack[..|inside.stack| - 1])
      && DeclsOutside(st, lead + ([LBrace] + (body + [RBrace])))
  {
    PlayInert(st, lead);
    PlayConcat(st, lead, [LBrace] + (body + [RBrace]));
    PlayBraced(st, OpenBrace(st), body, specs);
  }

  lemma NamesOpened(stack: seq<Scope>, scope: Scope)
    ensures PrimNames(stack + [scope])
      == match scope case PrimScope(name) => PrimNames(stack) + [name] case VariantScope => PrimNames(stack)
  {
    assert (stack + [scope])[..|stack|] == stack;
  }

  /** The innermost scope is a variant's. */
  predicate InVariant(st: Scan) { st.stack != [] && st.stack[|st.stack| - 1].VariantScope? }

  /** A declared prim's scope, and the scan once it is closed again. */
  lemma PrimScopeOpened(st: Scan, h: Token)
    requires Idle(st) && h.Decl?
    ensures var inside := OpenBrace(Play(st, h));
      && Idle(inside) && PrimNames(inside.stack) == PrimNames(st.stack) + [h.name]
      && inside.specs == st.specs + [Spec(h.specifier, h.typeName, Path(PrimNames(st.stack) + [h.name]))]
      && !InVariant(inside) && inside.stack != []
      && inside.(specs := st.specs, stack := inside.stack[..|inside.stack| - 1]) == st
  {
    hide Path;
    NamesOpened(st.stack, PrimScope(h.name));
    var inside := OpenBrace(Play(st, h));
    assert inside.stack == st.stack + [PrimScope(h.name)];
    assert inside.stack[..|inside.stack| - 1] == st.stack;
  }

  /** A head, then whatever its braces hold. */
  lemma AddsAfterHead(st: Scan, h: Token, rest: seq<Token>, inside: Scan, head: Spec, inner: seq<Spec>)
    requires st.paren == 0 && inside.specs == st.specs + [head] && inside.stack != []
    requires inside.(specs := st.specs, stack := inside.stack[..|inside.stack| - 1]) == st
    requires PlayAll(Play(st, h), rest)
      == inside.(specs := inside.specs + inner, stack := inside.stack[..|inside.stack| - 1])
    requires DeclsOutside(Play(st, h), rest)
    ensures Adds(st, [h] + rest, [head] + inner)
  {
    PlayOne(st, h);
    PlayConcat(st, [h], rest);
    hide PlayAll, DeclsOutside, Play;
    assert st.specs + [head] + inner == st.specs + ([head] + inner);
  }

  lemma {:induction false} PlayPrim(st: Scan, p: Prim)
    requires Idle(st) && PrimOk(p)
    ensures Adds(st, PrimTokens(p), PrimPreorder(p, PrimNames(st.stack)))
    decreases p, 1
  {
    hide PlayAll, Play, DeclsOutside, OpenBrace, PrimNames, Path;
    hide Inert, ItemsOk, ItemsTokens, ItemsPreorder, Adds, Idle;
    var h := p.head;
    var declared := Play(st, h);
    var inside := OpenBrace(declared);
    PrimScopeOpened(st, h);
    DeclaredIdle(st, h);
    PlayItems(inside, p.body);
    var inner := ItemsPreorder(p.body, PrimNames(inside.stack), false);
    PlayLabelled(declared, p.meta, ItemsTokens(p.body), inner);
    AddsAfterHead(st, h, p.meta + ([LBrace] + (ItemsTokens(p.body) + [RBrace])), inside,
      Spec(h.specifier, h.typeName, Path(PrimNames(st.stack) + [h.name])), inner);
  }

  lemma DeclaredIdle(st: Scan, h: Token)
    requires Idle(st) && h.Decl?
    ensures st.paren == 0 && Play(st, h).paren == 0
  {}

  lemma {:induction false} PlayItem(st: Scan, it: Item)
    requires Idle(st) && ItemOk(it)
    ensures Adds(st, ItemTokens(it), ItemPreorder(it, PrimNames(st.stack), InVariant(st)))
    decreases it, 1
  {
    match it
    case Attribute(tokens) =>
      PlayQuiet(st, tokens, 0);
      assert st.specs + [] == st.specs && st.stack[..|st.stack|] == st.stack;
    case Child(prim) => PlayPrim(st, prim);
    case VariantSet(lead, variants) =>
      var marked := Play(st, VariantKeyword(true));
      var inside := OpenBrace(marked);
      NamesOpened(st.stack, VariantScope);
      PlayVariants(inside, variants);
      PlayLabelled(marked, lead, VariantsTokens(variants), VariantsPreorder(variants, PrimNames(st.stack)));
      PlayOne(st, VariantKeyword(true));
      PlayConcat(st, [VariantKeyword(true)], lead + ([LBrace] + (VariantsTokens(variants) + [RBrace])));
      assert inside.stack[..|inside.stack| - 1] == st.stack;
    case Block(lead, items) =>
      NamelessOpened(st);
      PlayItems(OpenBrace(st), items);
      PlayNameless(st, lead, items);
    case Stray(isSet, gap, prim) =>
      PlayPrim(st, prim);
      PlayStray(st, isSet, gap, prim);
  }

  /** A variant keyword that opens nothing is forgotten at the next declaration. */
  lemma PlayStray(st: Scan, isSet: bool, gap: seq<Token>, p: Prim)
    requires Idle(st) && Inert(gap, 0) && PrimOk(p)
    requires Adds(st, PrimTokens(p), PrimPreorder(p, PrimNames(st.stack)))
    ensures Adds(st, [VariantKeyword(isSet)] + (gap + PrimTokens(p)), PrimPreorder(p, PrimNames(st.stack)))
  {
    var marked := Play(st, VariantKeyword(isSet));
    PlayOne(st, VariantKeyword(isSet));
    PlayInert(marked, gap);
    PlayConcat(st, [VariantKeyword(isSet)], gap + PrimTokens(p));
    PlayConcat(marked, gap, PrimTokens(p));
    var rest := p.meta + ([LBrace] + (ItemsTokens(p.body) + [RBrace]));
    assert PrimTokens(p) == [p.head] + rest;
    hide PrimPreorder, PrimTokens, ItemsTokens, Inert, PrimOk;
    FirstPlayed(st, p.head, rest);
    FirstPlayed(marked, p.head, rest);
  }

  lemma FirstPlayed(st: Scan, t: Token, rest: seq<Token>)
    ensures PlayAll(st, [t] + rest) == PlayAll(Play(st, t), rest)
    ensures DeclsOutside(st, [t] + rest) <==> (t.Decl? ==> st.paren == 0) && DeclsOutside(Play(st, t), rest)
  {
    hide Play;
    PlayOne(st, t);
    PlayConcat(st, [t], rest);
  }

  /** A brace that belongs to nothing. */
  lemma NamelessOpened(st: Scan)
    requires Idle(st)
    ensures var inside := OpenBrace(st);
      && Idle(inside) && InVariant(inside) == InVariant(st) && inside.specs == st.specs
      && PrimNames(inside.stack) == (if InVariant(st) then PrimNames(st.stack) else PrimNames(st.stack) + [""])
      && inside.stack != [] && inside.(stack := inside.stack[..|inside.stack| - 1]) == st
  {
    var scope := if InVariant(st) then VariantScope else PrimScope("");
    NamesOpened(st.stack, scope);
    assert OpenBrace(st).stack == st.stack + [scope];
    assert (st.stack + [scope])[..|st.stack|] == st.stack;
  }

  lemma PlayNameless(st: Scan, lead: seq<Token>, items: seq<Item>)
    requires Idle(st) && Inert(lead, 0) && ItemsOk(items)
    requires var inside := OpenBrace(st);
      Adds(inside, ItemsTokens(items), ItemsPreorder(items, PrimNames(inside.stack), InVariant(inside)))
    ensures Adds(st, lead + ([LBrace] + (ItemsTokens(items) + [RBrace])),
      ItemsPreorder(items, if InVariant(st) then PrimNames(st.stack) else PrimNames(st.stack) + [""], InVariant(st)))
  {
    hide ItemsTokens, ItemsPreorder, ItemsOk, Inert, PlayAll, DeclsOutside;
    NamelessOpened(st);
    var inside := OpenBrace(st);
    var specs := ItemsPreorder(items, PrimNames(inside.stack), InVariant(inside));
    PlayLabelled(st, lead, ItemsTokens(items), specs);
    hide OpenBrace, PrimNames, InVariant;
  }

  lemma {:induction false} PlayItems(st: Scan, items: seq<Item>)
    requires Idle(st) && ItemsOk(items)
    ensures Adds(st, ItemsTokens(items), ItemsPreorder(items, PrimNames(st.stack), InVariant(st)))
    decreases items, 0
  {
    if items == [] {
      assert st.specs + [] == st.specs;
    } else {
      var x := ItemPreorder(items[0], PrimNames(st.stack), InVariant(st));
      PlayItem(st, items[0]);
      PlayItems(st.(specs := st.specs + x), items[1..]);
      AddsConcat(st, ItemTokens(items[0]), x, ItemsTokens(items[1..]),
        ItemsPreorder(items[1..], PrimNames(st.stack), InVariant(st)));
    }
  }

  lemma {:induction false} PlayVariants(st: Scan, vs: seq<Variant>)
    requires Idle(st) && VariantsOk(vs) && InVariant(st)
    ensures Adds(st, VariantsTokens(vs), VariantsPreorder(vs, PrimNames(st.stack)))
    decreases vs, 0
  {
    if vs == [] {
      assert st.specs + [] == st.specs;
    } else {
      var v := vs[0];
      var inside := OpenBrace(st);
      NamesOpened(st.stack, VariantScope);
      var x := ItemsPreorder(v.body, PrimNames(st.stack), true);
      PlayItems(inside, v.body);
      PlayLabelled(st, v.lead, ItemsTokens(v.body), x);
      assert inside.stack[..|inside.stack| - 1] == st.stack;
      PlayVariants(st.(specs := st.specs + x), vs[1..]);
      AddsConcat(st, v.lead + ([LBrace] + (ItemsTokens(v.body) + [RBrace])), x,
        VariantsTokens(vs[1..]), VariantsPreorder(vs[1..], PrimNames(st.stack)));
    }
  }

  /**
   The scanner inverts the printer. For every layer of prims, attributes and variant sets whose
   printed tokens do not run together, `_prim_specs` of the text is the preorder list of the
   declared prims, a variant scope adds no path segment, and a stray brace a nameless one.
   */
  lemma ScannerInvertsPrinter(layer: seq<Item>)
    requires ItemsOk(layer) && Separated(ItemsTokens(layer))
    ensures PrimSpecs(RenderAll(ItemsTokens(layer))) == ItemsPreorder(layer, [], false)
  {
    var ts := ItemsTokens(layer);
    var text := RenderAll(ts);
    PlayItems(START, layer);
    assert text[0..] == text;
    ScanPlays(text, 0, ts, START);
    assert [] + ItemsPreorder(layer, [], false) == ItemsPreorder(layer, [], false);
  }

  /** What a string literal holds never changes the specs found around it. */
  lemma LiteralsDoNotMatter(before: seq<Token>, value: string, other: string, after: seq<Token>)
    requires Separated(before + [Quote(value)] + after) && Separated(before + [Quote(other)] + after)
    requires DeclsOutside(START, before + [Quote(value)] + after)
    ensures PrimSpecs(RenderAll(before + [Quote(value)] + after))
      == PrimSpecs(RenderAll(before + [Quote(other)] + after))
  {
    var a, b := before + [Quote(value)], before + [Quote(other)];
    PlayConcat(START, a, after);
    PlayConcat(START, b, after);
    PlayConcat(START, before, [Quote(value)]);
    PlayConcat(START, before, [Quote(other)]);
    PlayOne(PlayAll(START, before), Quote(value));
    PlayOne(PlayAll(START, before), Quote(other));
    var s, t := RenderAll(a + after), RenderAll(b + after);
    assert s[0..] == s && t[0..] == t;
    ScanPlays(s, 0, a + after, START);
    ScanPlays(t, 0, b + after, START);
  }
}
