/** The scan of a written module for its interface cookie: which subtrees it hashes, and
    what a change of the module must touch to change the cookie. */
module NifInterface {
  import opened NifTokens
  import opened NifCookie

  // A definition's children are its name, its marker and thirteen fields, of which the
  // first is the symbol's kind and the tenth its ast; an ast's children are its flags, its
  // type and its sons, of which the body is number 6.
  const KIND_FIELD := 2
  const FIELD_COUNT := 13
  const AST_FIELD := 11
  const BODY_SON := 8

  /** The marked tags whose subtrees are hashed as a whole. The registration of a pure enum is
      not among them. */
  predicate HashedWhole(tag: Tag)
  {
    tag.Replay? || (tag.Registration? && !tag.op.PureEnumEntry?) || (tag.KindTag? &&
      (tag.node.NkExportStmt? || tag.node.NkExportExceptStmt? || tag.node.NkIncludeStmt? || tag.node.NkImportStmt?))
  }

  predicate Exported(kids: seq<Tree>)
  {
    |kids| >= 2 && kids[0].Atom? && kids[0].tok.SymDef? && kids[1] == Atom(Ident("x"))
  }

  /** An exported definition has all its fields, with the symbol's kind in front. */
  predicate SdShape(kids: seq<Tree>)
  {
    Exported(kids) ==> |kids| >= 2 + FIELD_COUNT && kids[KIND_FIELD].Branch? && kids[KIND_FIELD].tag.SymKindTag?
  }

  predicate HasBody(kids: seq<Tree>)
    requires SdShape(kids) && Exported(kids)
  {
    kids[KIND_FIELD].tag.sym.SkRoutine? && kids[AST_FIELD].Branch? && |kids[AST_FIELD].kids| > BODY_SON
  }

  /** A definition without the body of its routine. */
  function Signature(kids: seq<Tree>): seq<Tree>
    requires SdShape(kids) && Exported(kids)
  {
    if HasBody(kids)
    then var ast := kids[AST_FIELD];
         kids[AST_FIELD := Branch(ast.tag, ast.kids[..BODY_SON] + ast.kids[BODY_SON + 1..])]
    else kids
  }

  /** All definitions that the scan reaches have their fields. */
  predicate Shaped(t: Tree)
    decreases t, 0
  {
    match t
    case Atom(_) => true
    case Branch(tag, kids) =>
      if tag.SymDefTag? then SdShape(kids)
      else tag.Implementation? || HashedWhole(tag) || AllShaped(kids)
  }

  predicate AllShaped(ts: seq<Tree>)
    decreases ts, 1
  {
    ts == [] || (Shaped(ts[0]) && AllShaped(ts[1..]))
  }

  /** What one subtree contributes to the cookie. */
  function ScanTree(s: Surface, digest: Digest, t: Tree): seq<HashAtom>
    requires Shaped(t)
    decreases t, 0
  {
    match t
    case Atom(_) => []
    case Branch(tag, kids) =>
      if tag.SymDefTag? then
        if Exported(kids) then Atoms(s, digest, Flat(Branch(tag, Signature(kids))), true, {}) else []
      else if tag.Implementation? then []
      else if HashedWhole(tag) then Atoms(s, digest, Flat(t), false, {})
      else ScanTrees(s, digest, kids)
  }

  function ScanTrees(s: Surface, digest: Digest, ts: seq<Tree>): seq<HashAtom>
    requires AllShaped(ts)
    decreases ts, 1
  {
    if ts == [] then [] else ScanTree(s, digest, ts[0]) + ScanTrees(s, digest, ts[1..])
  }

  // ---------- the type definitions of a module ----------

  type Tds = map<string, seq<Tok>>

  /** The type definitions with those of a subtree added; the first one of a name stays. */
  function AddTds(t: Tree, tds: Tds): Tds
    decreases t, 0
  {
    match t
    case Atom(_) => tds
    case Branch(tag, kids) => AddAllTds(kids, AddTd(t, tds))
  }

  function AddAllTds(ts: seq<Tree>, tds: Tds): Tds
    decreases ts, 1
  {
    if ts == [] then tds else AddAllTds(ts[1..], AddTds(ts[0], tds))
  }

  function AddTd(t: Tree, tds: Tds): Tds
    requires t.Branch?
  {
    if t.tag.TypeDefTag? && t.kids != [] && t.kids[0].Atom? && t.kids[0].tok.SymDef? && t.kids[0].tok.name !in tds
    then tds[t.kids[0].tok.name := Flat(t)]
    else tds
  }

  function SurfaceOf(self: string, ts: seq<Tree>): Surface
  {
    Surface(self, AddAllTds(ts, map[]))
  }

  /** The hash input that a written module gives for its interface. */
  function InterfaceAtoms(self: string, digest: Digest, ts: seq<Tree>): seq<HashAtom>
    requires AllShaped(ts)
  {
    ScanTrees(SurfaceOf(self, ts), digest, ts)
  }

  // ---------- the scanning methods ----------

  /** What a scan of the flat tokens still has before it. */
  datatype Item = Whole(tree: Tree) | Closing

  function Items(ts: seq<Tree>): seq<Item>
  {
    seq(|ts|, i requires 0 <= i < |ts| => Whole(ts[i]))
  }

  function FlatItems(items: seq<Item>): seq<Tok>
  {
    if items == [] then [] else
    (if items[0].Whole? then Flat(items[0].tree) else [ParRi]) + FlatItems(items[1..])
  }

  predicate AreItems(items: seq<Item>)
  {
    forall item | item in items :: item.Whole? ==> IsTree(item.tree)
  }

  lemma ItemsAre(ts: seq<Tree>)
    requires AreTrees(ts)
    ensures AreItems(Items(ts))
  {
    forall item | item in Items(ts) ensures IsTree(item.tree) {
      var i :| 0 <= i < |ts| && item == Whole(ts[i]);
      TreeAmong(ts, i);
    }
  }

  lemma {:induction false} FlatItemsOf(ts: seq<Tree>, rest: seq<Item>)
    ensures FlatItems(Items(ts) + rest) == FlatAll(ts) + FlatItems(rest)
    decreases |ts|
  {
    hide Flat;
    if ts == [] {
      assert Items(ts) + rest == rest;
    } else {
      FlatItemsOf(ts[1..], rest);
      assert (Items(ts) + rest)[1..] == Items(ts[1..]) + rest;
      assert (Items(ts) + rest)[0] == Whole(ts[0]);
      Regroup(Flat(ts[0]), FlatAll(ts[1..]), FlatItems(rest));
    }
  }

  /** Reading on over an opened subtree, its children and closing bracket come next. */
  lemma OpenItem(items: seq<Item>)
    requires AreItems(items) && items != [] && items[0].Whole? && items[0].tree.Branch?
    ensures var t, inner := items[0].tree, Items(items[0].tree.kids) + ([Closing] + items[1..]);
      FlatItems(items) == [ParLe(t.tag)] + FlatItems(inner) && AreItems(inner)
  {
    hide FlatAll;
    var t, rest := items[0].tree, [Closing] + items[1..];
    assert items[0] in items;
    FlatItemsOf(t.kids, rest);
    ItemsAre(t.kids);
    assert rest[1..] == items[1..] && FlatItems(rest) == [ParRi] + FlatItems(items[1..]);
    assert FlatItems(items) == [ParLe(t.tag)] + (FlatAll(t.kids) + FlatItems(rest));
    hide FlatItems;
    forall item | item in Items(t.kids) + rest ensures item.Whole? ==> IsTree(item.tree) {
      assert item in Items(t.kids) || item == Closing || item in items;
    }
  }

  function AddItems(items: seq<Item>, tds: Tds): Tds
  {
    if items == [] then tds
    else AddItems(items[1..], if items[0].Whole? then AddTds(items[0].tree, tds) else tds)
  }

  lemma {:induction false} AddItemsOf(ts: seq<Tree>, rest: seq<Item>, tds: Tds)
    ensures AddItems(Items(ts) + rest, tds) == AddItems(rest, AddAllTds(ts, tds))
    decreases |ts|
  {
    hide AddTds;
    if ts == [] {
      assert Items(ts) + rest == rest;
    } else {
      AddItemsOf(ts[1..], rest, AddTds(ts[0], tds));
      assert (Items(ts) + rest)[1..] == Items(ts[1..]) + rest;
      assert (Items(ts) + rest)[0] == Whole(ts[0]);
    }
  }

  /** The recorded starts are where the tokens of the type definitions stand. */
  ghost predicate StartsAre(flat: seq<Tok>, starts: map<string, nat>, tds: Tds)
  {
    && starts.Keys == tds.Keys
    && forall name | name in starts ::
         starts[name] < |flat| && flat[starts[name]..TreeEnd(flat, starts[name])] == tds[name]
  }

  lemma StartsGrow(flat: seq<Tok>, i: nat, t: Tree, starts: map<string, nat>, tds: Tds)
    requires IsTree(t) && t.Branch? && At(flat, i, Flat(t)) && StartsAre(flat, starts, tds)
    requires t.tag.TypeDefTag? && t.kids != [] && t.kids[0].Atom? && t.kids[0].tok.SymDef?
    requires t.kids[0].tok.name !in starts
    ensures i < |flat| && StartsAre(flat, starts[t.kids[0].tok.name := i], AddTd(t, tds))
  {
    TreeEndOfTree(flat, i, t);
  }

  /** The second token of a branch tells whether its first child is a definition. */
  lemma SecondToken(flat: seq<Tok>, i: nat, t: Tree)
    requires IsTree(t) && t.Branch? && At(flat, i, Flat(t))
    ensures i + 1 < |flat| && flat[i] == ParLe(t.tag)
    ensures flat[i + 1].SymDef? <==> t.kids != [] && t.kids[0].Atom? && t.kids[0].tok.SymDef?
    ensures t.kids != [] && t.kids[0].Atom? ==> flat[i + 1] == t.kids[0].tok
  {
    AtIndex(flat, i, Flat(t), 0);
    AtIndex(flat, i, Flat(t), 1);
    if t.kids != [] {
      assert Flat(t)[1] == FlatAll(t.kids)[0] == Flat(t.kids[0])[0];
    }
  }

  lemma RestAt(flat: seq<Tok>, i: nat, a: seq<Tok>, b: seq<Tok>)
    requires i <= |flat| && flat[i..] == a + b
    ensures i + |a| <= |flat| && At(flat, i, a) && flat[i + |a|..] == b
  {
    assert flat[i + |a|..] == flat[i..][|a|..];
    assert flat[i..i + |a|] == flat[i..][..|a|];
  }

  /** The pre-pass: the first definition of every type name, wherever it is embedded. */
  method TdStarts(flat: seq<Tok>, ghost ts: seq<Tree>) returns (starts: map<string, nat>)
    requires AreTrees(ts) && flat == FlatAll(ts)
    ensures StartsAre(flat, starts, AddAllTds(ts, map[]))
  {
    starts := map[];
    var i := 0;
    ghost var todo, tds: Tds := Items(ts), map[];
    FlatItemsOf(ts, []);
    ItemsAre(ts);
    AddItemsOf(ts, [], map[]);
    assert Items(ts) + [] == Items(ts);
    while i < |flat|
      invariant i <= |flat| && AreItems(todo) && flat[i..] == FlatItems(todo)
      invariant StartsAre(flat, starts, tds)
      invariant AddItems(todo, tds) == AddAllTds(ts, map[])
    {
      ghost var item := todo[0];
      assert item in todo;
      if flat[i].ParLe? {
        assert item.Whole? && item.tree.Branch?;
        RestAt(flat, i, Flat(item.tree), FlatItems(todo[1..]));
        SecondToken(flat, i, item.tree);
        if flat[i].tag.TypeDefTag? && i + 1 < |flat| && flat[i + 1].SymDef? && flat[i + 1].name !in starts {
          StartsGrow(flat, i, item.tree, starts, tds);
          starts := starts[flat[i + 1].name := i];
        }
        OpenItem(todo);
        RestAt(flat, i, [ParLe(item.tree.tag)], FlatItems(Items(item.tree.kids) + ([Closing] + todo[1..])));
        tds := AddTd(item.tree, tds);
        AddItemsOf(item.tree.kids, [Closing] + todo[1..], tds);
        assert ([Closing] + todo[1..])[1..] == todo[1..];
        todo := Items(item.tree.kids) + ([Closing] + todo[1..]);
      } else {
        RestAt(flat, i, [flat[i]], FlatItems(todo[1..]));
        todo := todo[1..];
      }
      i := i + 1;
    }
  }

  /** The tokens of a branch around its child number `k`. */
  function Before(t: Tree, k: nat): seq<Tok>
    requires t.Branch? && k < |t.kids|
  {
    [ParLe(t.tag)] + FlatAll(t.kids[..k])
  }

  function After(t: Tree, k: nat): seq<Tok>
    requires t.Branch? && k < |t.kids|
  {
    FlatAll(t.kids[k + 1..]) + [ParRi]
  }

  lemma Around(t: Tree, k: nat)
    requires t.Branch? && k < |t.kids|
    ensures Flat(t) == Before(t, k) + Flat(t.kids[k]) + After(t, k)
  {
    var a, x, c := FlatAll(t.kids[..k]), Flat(t.kids[k]), FlatAll(t.kids[k + 1..]);
    FlatAllSplit(t.kids, k);
    Regroup(a, x, c);
    assert Flat(t) == [ParLe(t.tag)] + (a + x + c) + [ParRi];
    hide *;
    Reglue([ParLe(t.tag)], a, x, c, [ParRi]);
  }

  lemma AroundReplaced(t: Tree, k: nat, kid: Tree)
    requires t.Branch? && k < |t.kids|
    ensures Flat(Branch(t.tag, t.kids[k := kid])) == Before(t, k) + Flat(kid) + After(t, k)
  {
    var t' := Branch(t.tag, t.kids[k := kid]);
    assert t'.kids[..k] == t.kids[..k] && t'.kids[k + 1..] == t.kids[k + 1..];
    Around(t', k);
  }

  lemma AroundRemoved(t: Tree, k: nat)
    requires t.Branch? && k < |t.kids|
    ensures Flat(Branch(t.tag, t.kids[..k] + t.kids[k + 1..])) == Before(t, k) + After(t, k)
  {
    FlatAllAppend(t.kids[..k], t.kids[k + 1..]);
  }

  /** A definition with a body, cut into what stands before, in and after the body. */
  lemma SignatureParts(t: Tree) returns (before: seq<Tok>, after: seq<Tok>)
    requires t.Branch? && SdShape(t.kids) && Exported(t.kids) && HasBody(t.kids)
    ensures Flat(t) == before + Flat(t.kids[AST_FIELD].kids[BODY_SON]) + after
    ensures Flat(Branch(t.tag, Signature(t.kids))) == before + after
    ensures |before| == KidAt(KidAt(0, t.kids, AST_FIELD), t.kids[AST_FIELD].kids, BODY_SON)
  {
    var ast := t.kids[AST_FIELD];
    var cut := Branch(ast.tag, ast.kids[..BODY_SON] + ast.kids[BODY_SON + 1..]);
    var a, b, c, d := Before(t, AST_FIELD), Before(ast, BODY_SON), After(ast, BODY_SON), After(t, AST_FIELD);
    before, after := a + b, c + d;
    Around(t, AST_FIELD);
    Around(ast, BODY_SON);
    AroundRemoved(ast, BODY_SON);
    AroundReplaced(t, AST_FIELD, cut);
    assert |a| == KidAt(0, t.kids, AST_FIELD) && |b| == 1 + |FlatAll(ast.kids[..BODY_SON])|;
    hide FlatAll, Flat, Before, After;
    Reglue(a, b, Flat(ast.kids[BODY_SON]), c, d);
    Reglue(a, b, [], c, d);
    assert b + [] == b && a + b + [] == a + b;
  }

  lemma Reglue<T>(a: seq<T>, b: seq<T>, x: seq<T>, c: seq<T>, d: seq<T>)
    ensures a + (b + x + c) + d == a + b + x + (c + d)
  {
  }

  /** The starts of an exported definition's fields. */
  method FieldStarts(flat: seq<Tok>, start: nat, ghost t: Tree) returns (fields: array<nat>)
    requires IsTree(t) && t.Branch? && At(flat, start, Flat(t)) && SdShape(t.kids) && Exported(t.kids)
    ensures fresh(fields) && fields.Length == FIELD_COUNT
    ensures forall f | 0 <= f < FIELD_COUNT :: fields[f] == KidAt(start, t.kids, 2 + f)
  {
    fields := new nat[FIELD_COUNT];
    ghost var kids := t.kids;
    FirstFields(flat, start, t);
    hide SdShape, Exported, IsTree, KidAt;
    var i := start + 3;
    for f := 0 to FIELD_COUNT
      invariant i == KidAt(start, kids, 2 + f)
      invariant forall g | 0 <= g < f :: fields[g] == KidAt(start, kids, 2 + g)
    {
      KidsStand(flat, start, t, 2 + f);
      TreeEndOfTree(flat, i, kids[2 + f]);
      fields[f] := i;
      i := NextTree(flat, i);
    }
  }

  /** The name and the marker of an exported definition are one token each. */
  lemma FirstFields(flat: seq<Tok>, i: nat, t: Tree)
    requires IsTree(t) && t.Branch? && At(flat, i, Flat(t)) && SdShape(t.kids) && Exported(t.kids)
    ensures KidAt(i, t.kids, 2) == i + 3
    ensures i + 2 < |flat| && flat[i + 1] == t.kids[0].tok && flat[i + 2] == t.kids[1].tok
  {
    KidsEnd(i, t);
    KidsStand(flat, i, t, 0);
    KidsStand(flat, i, t, 1);
    AtIndex(flat, i + 1, Flat(t.kids[0]), 0);
    AtIndex(flat, i + 2, Flat(t.kids[1]), 0);
  }

  /** Where the body of an exported routine stands, if the definition has one; -1 for none. */
  method FindBody(flat: seq<Tok>, start: nat, ghost t: Tree) returns (skipFrom: int, skipTo: int)
    requires IsTree(t) && t.Branch? && At(flat, start, Flat(t)) && SdShape(t.kids) && Exported(t.kids)
    ensures !HasBody(t.kids) ==> skipFrom == -1
    ensures HasBody(t.kids) ==>
      var ast := KidAt(start, t.kids, AST_FIELD);
      skipFrom == KidAt(ast, t.kids[AST_FIELD].kids, BODY_SON) && skipTo == KidAt(ast, t.kids[AST_FIELD].kids, BODY_SON + 1)
  {
    skipFrom, skipTo := -1, -1;
    var fields := FieldStarts(flat, start, t);
    var kind, ast := fields[0], fields[AST_FIELD - 2];
    KidsStand(flat, start, t, KIND_FIELD);
    KidsStand(flat, start, t, AST_FIELD);
    AtIndex(flat, kind, Flat(t.kids[KIND_FIELD]), 0);
    AtIndex(flat, ast, Flat(t.kids[AST_FIELD]), 0);
    ghost var node := t.kids[AST_FIELD];
    if flat[kind].tag.SymKindTag? && flat[kind].tag.sym.SkRoutine? && flat[ast].ParLe? {
      var p := FindBodySon(flat, ast, node);
      if p >= 0 {
        skipFrom := p;
        skipTo := NextTree(flat, p);
      }
    }
  }

  /** Walks over the flags, the type and the sons before the body; -1 if an ast ends before
      its body. */
  method FindBodySon(flat: seq<Tok>, ast: nat, ghost node: Tree) returns (r: int)
    requires IsTree(node) && node.Branch? && At(flat, ast, Flat(node))
    ensures |node.kids| <= BODY_SON ==> r == -1
    ensures |node.kids| > BODY_SON ==>
      r == KidAt(ast, node.kids, BODY_SON) < |flat| && TreeEnd(flat, r) == KidAt(ast, node.kids, BODY_SON + 1)
  {
    TreeEndOfTree(flat, ast, node);
    KidsEnd(ast, node);
    var astEnd := NextTree(flat, ast);
    hide KidAt, IsTree, At;
    var p := ast + 1;
    for k := 0 to BODY_SON
      invariant k < |node.kids| || (k == 0 && |node.kids| == 0)
      invariant p == KidAt(ast, node.kids, k) < |flat|
    {
      if k < |node.kids| {
        KidsStand(flat, ast, node, k);
        TreeEndOfTree(flat, p, node.kids[k]);
        if k + 1 < |node.kids| { KidsStand(flat, ast, node, k + 1); }
      }
      p := NextTree(flat, p);
      if p >= astEnd - 1 {
        return -1;
      }
    }
    KidsStand(flat, ast, node, BODY_SON);
    TreeEndOfTree(flat, p, node.kids[BODY_SON]);
    return p;
  }

  /** The third token of a definition tells whether it is exported. */
  lemma MarkerToken(flat: seq<Tok>, i: nat, t: Tree)
    requires IsTree(t) && t.Branch? && At(flat, i, Flat(t)) && i + 1 < |flat| && flat[i + 1].SymDef?
    ensures i + 2 < |flat|
    ensures Exported(t.kids) <==> flat[i + 2] == Ident("x")
  {
    SecondToken(flat, i, t);
    KidsEnd(i, t);
    KidsStand(flat, i, t, 0);
    BranchStands(flat, i, t.tag, t.kids);
    if |t.kids| >= 2 {
      KidsStand(flat, i, t, 1);
      AtIndex(flat, i + 2, Flat(t.kids[1]), 0);
    } else {
      assert t.kids[..1] == t.kids;
    }
  }

  /** The contribution of one definition. */
  method CookieSd(ctx: CookieCtx, start: nat, ghost t: Tree, ghost rank: string -> nat, ghost vouch: bool)
    returns (atoms: seq<HashAtom>, next: nat)
    requires ctx.Valid() && ctx.expanding == {}
    requires IsTree(t) && t.Branch? && t.tag.SymDefTag? && At(ctx.flat, start, Flat(t)) && SdShape(t.kids)
    requires vouch ==> Ranked(ctx.surface, rank) && ctx.Sound()
    modifies ctx`memo, ctx`expanding
    ensures ctx.expanding == {} && next == start + |Flat(t)|
    ensures vouch ==> ctx.Sound()
    ensures vouch ==> atoms == ScanTree(ctx.surface, ctx.digest, t)
  {
    TreeEndOfTree(ctx.flat, start, t);
    SecondToken(ctx.flat, start, t);
    next := NextTree(ctx.flat, start);
    atoms := [];
    if !ctx.flat[start + 1].SymDef? { return; }
    MarkerToken(ctx.flat, start, t);
    if ctx.flat[start + 2] != Ident("x") { return; }
    var skipFrom, skipTo := FindBody(ctx.flat, start, t);
    SkippedRegion(ctx.flat, start, t, skipFrom, skipTo);
    hide Ranked, Region, SdShape, Exported, Signature, IsTree;
    atoms := ctx.HashRegion(start, next, skipFrom, skipTo, true, rank, vouch);
  }

  lemma SkippedRegion(flat: seq<Tok>, i: nat, t: Tree, skipFrom: int, skipTo: int)
    requires IsTree(t) && t.Branch? && At(flat, i, Flat(t)) && SdShape(t.kids) && Exported(t.kids)
    requires !HasBody(t.kids) ==> skipFrom == -1
    requires HasBody(t.kids) ==>
      var ast := KidAt(i, t.kids, AST_FIELD);
      skipFrom == KidAt(ast, t.kids[AST_FIELD].kids, BODY_SON) && skipTo == KidAt(ast, t.kids[AST_FIELD].kids, BODY_SON + 1)
    ensures RegionOk(flat, i, i + |Flat(t)|, skipFrom, skipTo)
    ensures Region(flat, i, i + |Flat(t)|, skipFrom, skipTo) == Flat(Branch(t.tag, Signature(t.kids)))
  {
    if HasBody(t.kids) {
      var ast := t.kids[AST_FIELD];
      var before, after := SignatureParts(t);
      var body := Flat(ast.kids[BODY_SON]);
      KidsStand(flat, i, t, AST_FIELD);
      KidsStand(flat, KidAt(i, t.kids, AST_FIELD), ast, BODY_SON);
      assert skipFrom == i + |before| && skipTo == skipFrom + |body|;
      hide SdShape, Exported, HasBody, IsTree, Flat, FlatAll, Signature, KidAt;
      AtSplit(flat, i, before + body, after);
      AtSplit(flat, i, before, body);
    }
  }

  predicate ShapedItems(items: seq<Item>)
  {
    forall item | item in items :: item.Whole? ==> Shaped(item.tree)
  }

  function ScanItems(s: Surface, digest: Digest, items: seq<Item>): seq<HashAtom>
    requires ShapedItems(items)
  {
    if items == [] then []
    else
      assert items[0] in items && forall item | item in items[1..] :: item in items;
      (if items[0].Whole? then ScanTree(s, digest, items[0].tree) else []) + ScanItems(s, digest, items[1..])
  }

  lemma {:induction false} ScanItemsOf(s: Surface, digest: Digest, ts: seq<Tree>, rest: seq<Item>)
    requires AllShaped(ts) && ShapedItems(rest)
    ensures ShapedItems(Items(ts) + rest)
    ensures ScanItems(s, digest, Items(ts) + rest) == ScanTrees(s, digest, ts) + ScanItems(s, digest, rest)
    decreases |ts|
  {
    hide ScanTree, Shaped;
    if ts == [] {
      assert Items(ts) + rest == rest;
    } else {
      ScanItemsOf(s, digest, ts[1..], rest);
      var all := Items(ts) + rest;
      assert all[1..] == Items(ts[1..]) + rest && all[0] == Whole(ts[0]);
      forall item | item in all ensures item.Whole? ==> Shaped(item.tree) {
        assert item == all[0] || item in all[1..];
      }
      Regroup(ScanTree(s, digest, ts[0]), ScanTrees(s, digest, ts[1..]), ScanItems(s, digest, rest));
    }
  }

  /** The scan over the whole module. */
  method ScanStmts(ctx: CookieCtx, ghost ts: seq<Tree>, ghost rank: string -> nat, ghost vouch: bool)
    returns (atoms: seq<HashAtom>)
    requires ctx.Valid() && ctx.expanding == {} && AreTrees(ts) && AllShaped(ts) && ctx.flat == FlatAll(ts)
    requires vouch ==> Ranked(ctx.surface, rank) && ctx.Sound()
    modifies ctx`memo, ctx`expanding
    ensures vouch ==> atoms == ScanTrees(ctx.surface, ctx.digest, ts)
  {
    atoms := [];
    var i := 0;
    ghost var todo := Items(ts);
    FlatItemsOf(ts, []);
    ItemsAre(ts);
    ScanItemsOf(ctx.surface, ctx.digest, ts, []);
    assert Items(ts) + [] == Items(ts);
    while i < |ctx.flat|
      invariant i <= |ctx.flat| && AreItems(todo) && ShapedItems(todo) && ctx.flat[i..] == FlatItems(todo)
      invariant ctx.expanding == {}
      invariant vouch ==> ctx.Sound()
      invariant vouch ==> atoms + ScanItems(ctx.surface, ctx.digest, todo) == ScanTrees(ctx.surface, ctx.digest, ts)
    {
      var more, next;
      more, next, todo := ScanStep(ctx, i, todo, rank, vouch);
      if vouch { Regroup(atoms, more, ScanItems(ctx.surface, ctx.digest, todo)); }
      atoms, i := atoms + more, next;
    }
  }

  method ScanStep(ctx: CookieCtx, i: nat, ghost todo: seq<Item>, ghost rank: string -> nat, ghost vouch: bool)
    returns (atoms: seq<HashAtom>, next: nat, ghost todo': seq<Item>)
    requires ctx.Valid() && ctx.expanding == {} && i < |ctx.flat|
    requires AreItems(todo) && ShapedItems(todo) && ctx.flat[i..] == FlatItems(todo)
    requires vouch ==> Ranked(ctx.surface, rank) && ctx.Sound()
    modifies ctx`memo, ctx`expanding
    ensures i < next <= |ctx.flat| && AreItems(todo') && ShapedItems(todo') && ctx.flat[next..] == FlatItems(todo')
    ensures ctx.expanding == {}
    ensures vouch ==> ctx.Sound()
    ensures vouch ==> atoms + ScanItems(ctx.surface, ctx.digest, todo') == ScanItems(ctx.surface, ctx.digest, todo)
  {
    hide Ranked, AreItems, ShapedItems, FlatItems, ScanItems, Items, Flat, Shaped, ScanTree;
    HeadItem(ctx.surface, ctx.digest, ctx.flat, i, todo);
    atoms, todo', next := [], todo[1..], i + 1;
    if ctx.flat[i].ParLe? {
      var tag := ctx.flat[i].tag;
      if tag.SymDefTag? || tag.Implementation? || HashedWhole(tag) {
        atoms, next := ScanMarked(ctx, i, todo[0].tree, rank, vouch);
      } else {
        todo' := Items(todo[0].tree.kids) + ([Closing] + todo[1..]);
        OpenItem(todo);
        RestAt(ctx.flat, i, [ParLe(tag)], FlatItems(todo'));
        ScanOpens(ctx.surface, ctx.digest, todo);
      }
    }
  }

  /** The item at the next token: a subtree, or a token that contributes nothing. */
  lemma HeadItem(s: Surface, digest: Digest, flat: seq<Tok>, i: nat, todo: seq<Item>)
    requires AreItems(todo) && ShapedItems(todo) && i < |flat| && flat[i..] == FlatItems(todo)
    ensures todo != [] && AreItems(todo[1..]) && ShapedItems(todo[1..])
    ensures if flat[i].ParLe? then
        && todo[0].Whole? && todo[0].tree.Branch? && flat[i] == ParLe(todo[0].tree.tag)
        && IsTree(todo[0].tree) && Shaped(todo[0].tree) && At(flat, i, Flat(todo[0].tree))
        && i + |Flat(todo[0].tree)| <= |flat| && flat[i + |Flat(todo[0].tree)|..] == FlatItems(todo[1..])
        && i < i + |Flat(todo[0].tree)|
        && ScanItems(s, digest, todo) == ScanTree(s, digest, todo[0].tree) + ScanItems(s, digest, todo[1..])
      else flat[i + 1..] == FlatItems(todo[1..]) && ScanItems(s, digest, todo) == ScanItems(s, digest, todo[1..])
  {
    hide FlatAll, Shaped, ScanTrees;
    var item, rest := todo[0], todo[1..];
    assert item in todo && forall other | other in rest :: other in todo;
    RestAt(flat, i, if item.Whole? then Flat(item.tree) else [ParRi], FlatItems(rest));
    if flat[i].ParLe? { SecondToken(flat, i, item.tree); }
  }

  /** Descending into a subtree that is not marked contributes what its children do. */
  lemma ScanOpens(s: Surface, digest: Digest, todo: seq<Item>)
    requires ShapedItems(todo) && todo != [] && todo[0].Whole? && todo[0].tree.Branch?
    requires var tag := todo[0].tree.tag; !tag.SymDefTag? && !tag.Implementation? && !HashedWhole(tag)
    ensures var todo' := Items(todo[0].tree.kids) + ([Closing] + todo[1..]);
      ShapedItems(todo') && ScanItems(s, digest, todo') == ScanItems(s, digest, todo)
  {
    var t, rest := todo[0].tree, [Closing] + todo[1..];
    assert todo[0] in todo && Shaped(t) && AllShaped(t.kids);
    assert ScanTree(s, digest, t) == ScanTrees(s, digest, t.kids);
    hide Shaped, AllShaped, ScanTree, ScanTrees, Items;
    assert forall other | other in rest :: other == Closing || other in todo;
    ScanItemsOf(s, digest, t.kids, rest);
    assert rest[1..] == todo[1..];
    assert ScanItems(s, digest, rest) == ScanItems(s, digest, todo[1..]);
  }

  /** A subtree that the scan does not descend into. */
  method ScanMarked(ctx: CookieCtx, i: nat, ghost t: Tree, ghost rank: string -> nat, ghost vouch: bool)
    returns (atoms: seq<HashAtom>, next: nat)
    requires ctx.Valid() && ctx.expanding == {}
    requires IsTree(t) && t.Branch? && At(ctx.flat, i, Flat(t)) && Shaped(t) && i < |ctx.flat| && ctx.flat[i] == ParLe(t.tag)
    requires t.tag.SymDefTag? || t.tag.Implementation? || HashedWhole(t.tag)
    requires vouch ==> Ranked(ctx.surface, rank) && ctx.Sound()
    modifies ctx`memo, ctx`expanding
    ensures ctx.expanding == {} && next == i + |Flat(t)|
    ensures vouch ==> ctx.Sound()
    ensures vouch ==> atoms == ScanTree(ctx.surface, ctx.digest, t)
  {
    atoms := [];
    var tag := ctx.flat[i].tag;
    if tag.SymDefTag? {
      atoms, next := CookieSd(ctx, i, t, rank, vouch);
    } else {
      TreeEndOfTree(ctx.flat, i, t);
      next := NextTree(ctx.flat, i);
      if HashedWhole(tag) {
        assert Region(ctx.flat, i, next, -1, -1) == Flat(t);
        hide Ranked, Region, IsTree;
        atoms := ctx.HashRegion(i, next, -1, -1, false, rank, vouch);
      }
    }
  }

  /** The hash input for the interface of the module whose tokens are `flat`. */
  method InterfaceInput(self: string, digest: Digest, flat: seq<Tok>, ghost ts: seq<Tree>, ghost rank: string -> nat)
    returns (atoms: seq<HashAtom>)
    requires AreTrees(ts) && AllShaped(ts) && flat == FlatAll(ts)
    ensures Ranked(SurfaceOf(self, ts), rank) ==> atoms == InterfaceAtoms(self, digest, ts)
  {
    var starts := TdStarts(flat, ts);
    var ctx := new CookieCtx(self, flat, starts, digest, SurfaceOf(self, ts));
    atoms := ScanStmts(ctx, ts, rank, Ranked(SurfaceOf(self, ts), rank));
  }

  // ---------- renaming a whole module ----------

  function RenameTree(r: Renaming, t: Tree): Tree
    decreases t, 0
  {
    match t
    case Atom(tok) => Atom(RenameTok(r, tok))
    case Branch(tag, kids) => Branch(tag, RenameTrees(r, kids))
  }

  function RenameTrees(r: Renaming, ts: seq<Tree>): seq<Tree>
    decreases ts, 1
  {
    seq(|ts|, i requires 0 <= i < |ts| => RenameTree(r, ts[i]))
  }

  lemma RenameToksAppend(r: Renaming, a: seq<Tok>, b: seq<Tok>)
    ensures RenameToks(r, a + b) == RenameToks(r, a) + RenameToks(r, b)
  {
  }

  lemma {:induction false} FlatRenamed(r: Renaming, t: Tree)
    ensures Flat(RenameTree(r, t)) == RenameToks(r, Flat(t))
    decreases t, 0
  {
    match t
    case Atom(tok) =>
    case Branch(tag, kids) =>
      FlatAllRenamed(r, kids);
      RenameToksAppend(r, [ParLe(tag)] + FlatAll(kids), [ParRi]);
      RenameToksAppend(r, [ParLe(tag)], FlatAll(kids));
      assert RenameToks(r, [ParLe(tag)]) == [ParLe(tag)] && RenameToks(r, [ParRi]) == [ParRi];
  }

  lemma {:induction false} FlatAllRenamed(r: Renaming, ts: seq<Tree>)
    ensures FlatAll(RenameTrees(r, ts)) == RenameToks(r, FlatAll(ts))
    decreases ts, 1
  {
    if ts != [] {
      FlatRenamed(r, ts[0]);
      FlatAllRenamed(r, ts[1..]);
      RenameToksAppend(r, Flat(ts[0]), FlatAll(ts[1..]));
      assert RenameTrees(r, ts)[1..] == RenameTrees(r, ts[1..]);
    }
  }

  /** The renaming only touches names that the hashed regions define or expand. */
  ghost predicate HarmlessTree(r: Renaming, s: Surface, t: Tree)
    requires Shaped(t)
    decreases t, 0
  {
    match t
    case Atom(_) => true
    case Branch(tag, kids) =>
      if tag.SymDefTag? then Exported(kids) ==> Harmless(r, s, Flat(Branch(tag, Signature(kids))), true)
      else if tag.Implementation? then true
      else if HashedWhole(tag) then Harmless(r, s, Flat(t), false)
      else HarmlessTrees(r, s, kids)
  }

  ghost predicate HarmlessTrees(r: Renaming, s: Surface, ts: seq<Tree>)
    requires AllShaped(ts)
    decreases ts, 1
  {
    ts == [] || (HarmlessTree(r, s, ts[0]) && HarmlessTrees(r, s, ts[1..]))
  }

  lemma {:induction false} SdRenamed(r: Renaming, kids: seq<Tree>)
    requires SdShape(kids)
    ensures SdShape(RenameTrees(r, kids)) && (Exported(RenameTrees(r, kids)) <==> Exported(kids))
    ensures Exported(kids) ==> Signature(RenameTrees(r, kids)) == RenameTrees(r, Signature(kids))
  {
    var kids' := RenameTrees(r, kids);
    assert forall i | 0 <= i < |kids| :: kids'[i] == RenameTree(r, kids[i]);
    if Exported(kids) {
      assert kids'[KIND_FIELD] == RenameTree(r, kids[KIND_FIELD]);
      assert kids'[AST_FIELD] == RenameTree(r, kids[AST_FIELD]);
      if HasBody(kids) {
        var ast := kids[AST_FIELD];
        var cut := Branch(ast.tag, ast.kids[..BODY_SON] + ast.kids[BODY_SON + 1..]);
        var sons := RenameTrees(r, ast.kids);
        assert RenameTrees(r, cut.kids) == sons[..BODY_SON] + sons[BODY_SON + 1..];
        assert kids'[AST_FIELD] == Branch(ast.tag, sons) && HasBody(kids');
        assert Signature(kids') == kids'[AST_FIELD := RenameTree(r, cut)];
        assert RenameTrees(r, Signature(kids)) == RenameTrees(r, kids)[AST_FIELD := RenameTree(r, cut)];
      }
    }
  }

  lemma NamesInParts(a: seq<Tok>, b: seq<Tok>, names: set<string>)
    ensures NamesAmong(a + b, names) <==> NamesAmong(a, names) && NamesAmong(b, names)
  {
    assert forall t | t in a || t in b :: t in a + b;
  }

  lemma NamesInBranch(t: Tree, names: set<string>)
    requires t.Branch? && NamesAmong(Flat(t), names)
    ensures NamesAmong(FlatAll(t.kids), names)
  {
    NamesInParts([ParLe(t.tag)] + FlatAll(t.kids), [ParRi], names);
    NamesInParts([ParLe(t.tag)], FlatAll(t.kids), names);
  }

  lemma NamesInSignature(t: Tree, names: set<string>)
    requires t.Branch? && SdShape(t.kids) && Exported(t.kids) && NamesAmong(Flat(t), names)
    ensures NamesAmong(Flat(Branch(t.tag, Signature(t.kids))), names)
  {
    if HasBody(t.kids) {
      var before, after := SignatureParts(t);
      var body := Flat(t.kids[AST_FIELD].kids[BODY_SON]);
      NamesInParts(before + body, after, names);
      NamesInParts(before, body, names);
      NamesInParts(before, after, names);
    }
  }

  lemma {:induction false} ScanTreeRenamed(r: Renaming, s: Surface, s': Surface, names: set<string>, digest: Digest,
                                           rank: string -> nat, t: Tree)
    requires Renames(r, s, s', names) && Ranked(s, rank)
    requires forall n | n in names && n in s.tds :: Harmless(r, s, s.tds[n], false)
    requires Shaped(t) && HarmlessTree(r, s, t) && NamesAmong(Flat(t), names)
    ensures Shaped(RenameTree(r, t)) && ScanTree(s', digest, RenameTree(r, t)) == ScanTree(s, digest, t)
    decreases t, 0
  {
    hide Renames, Ranked, Harmless, NamesAmong, SdShape, Exported, Signature, Flat, RenameToks;
    match t
    case Atom(_) =>
    case Branch(tag, kids) =>
      if tag.SymDefTag? {
        SdRenamed(r, kids);
        if Exported(kids) {
          NamesInSignature(t, names);
          FlatRenamed(r, Branch(tag, Signature(kids)));
          Unbusy(s, r, names, Flat(Branch(tag, Signature(kids))), true, rank);
          AtomsRenamed(r, s, s', names, digest, rank, Flat(Branch(tag, Signature(kids))), true, {}, {});
        }
      } else if tag.Implementation? {
      } else if HashedWhole(tag) {
        FlatRenamed(r, t);
        Unbusy(s, r, names, Flat(t), false, rank);
        AtomsRenamed(r, s, s', names, digest, rank, Flat(t), false, {}, {});
      } else {
        NamesInBranch(t, names);
        ScanTreesRenamed(r, s, s', names, digest, rank, kids);
      }
  }

  lemma Unbusy(s: Surface, r: Renaming, names: set<string>, toks: seq<Tok>, keep: bool, rank: string -> nat)
    ensures RegionRanked(s, toks, keep, rank, {}) && ImageOf(r, names, {}, {})
  {
  }

  lemma {:induction false} ScanTreesRenamed(r: Renaming, s: Surface, s': Surface, names: set<string>, digest: Digest,
                                            rank: string -> nat, ts: seq<Tree>)
    requires Renames(r, s, s', names) && Ranked(s, rank)
    requires forall n | n in names && n in s.tds :: Harmless(r, s, s.tds[n], false)
    requires AllShaped(ts) && HarmlessTrees(r, s, ts) && NamesAmong(FlatAll(ts), names)
    ensures AllShaped(RenameTrees(r, ts)) && ScanTrees(s', digest, RenameTrees(r, ts)) == ScanTrees(s, digest, ts)
    decreases ts, 1
  {
    hide Renames, Ranked, Harmless, NamesAmong, Flat, Shaped, ScanTree, HarmlessTree;
    if ts != [] {
      NamesInParts(Flat(ts[0]), FlatAll(ts[1..]), names);
      ScanTreeRenamed(r, s, s', names, digest, rank, ts[0]);
      ScanTreesRenamed(r, s, s', names, digest, rank, ts[1..]);
      assert RenameTrees(r, ts)[1..] == RenameTrees(r, ts[1..]);
    }
  }

  // ---------- the type definitions of a renamed module ----------

  ghost predicate TdsImage(r: Renaming, names: set<string>, tds: Tds, tds': Tds)
  {
    forall n | n in names ::
      && (n in tds <==> r(n) in tds')
      && (n in tds ==> NamesAmong(tds[n], names) && tds'[r(n)] == RenameToks(r, tds[n]))
  }

  lemma {:induction false} AddTdsRenamed(r: Renaming, names: set<string>, t: Tree, tds: Tds, tds': Tds)
    requires InjectiveOn(r, names) && NamesAmong(Flat(t), names) && TdsImage(r, names, tds, tds')
    ensures TdsImage(r, names, AddTds(t, tds), AddTds(RenameTree(r, t), tds'))
    decreases t, 0
  {
    match t
    case Atom(_) =>
    case Branch(tag, kids) =>
      AddTdRenamed(r, names, t, tds, tds');
      NamesInBranch(t, names);
      AddAllTdsRenamed(r, names, kids, AddTd(t, tds), AddTd(RenameTree(r, t), tds'));
  }

  lemma AddTdRenamed(r: Renaming, names: set<string>, t: Tree, tds: Tds, tds': Tds)
    requires t.Branch? && InjectiveOn(r, names) && NamesAmong(Flat(t), names) && TdsImage(r, names, tds, tds')
    ensures TdsImage(r, names, AddTd(t, tds), AddTd(RenameTree(r, t), tds'))
  {
    if t.tag.TypeDefTag? && t.kids != [] && t.kids[0].Atom? && t.kids[0].tok.SymDef? {
      FlatRenamed(r, t);
      assert RenameTrees(r, t.kids)[0] == RenameTree(r, t.kids[0]);
      assert Flat(t)[1] == t.kids[0].tok by {
        assert FlatAll(t.kids)[0] == Flat(t.kids[0])[0];
      }
      assert t.kids[0].tok in Flat(t);
    } else if t.kids != [] {
      assert RenameTrees(r, t.kids)[0] == RenameTree(r, t.kids[0]);
    }
  }

  lemma {:induction false} AddAllTdsRenamed(r: Renaming, names: set<string>, ts: seq<Tree>, tds: Tds, tds': Tds)
    requires InjectiveOn(r, names) && NamesAmong(FlatAll(ts), names) && TdsImage(r, names, tds, tds')
    ensures TdsImage(r, names, AddAllTds(ts, tds), AddAllTds(RenameTrees(r, ts), tds'))
    decreases ts, 1
  {
    if ts != [] {
      NamesInParts(Flat(ts[0]), FlatAll(ts[1..]), names);
      assert RenameTrees(r, ts)[1..] == RenameTrees(r, ts[1..]);
      hide TdsImage, NamesAmong, InjectiveOn;
      AddTdsRenamed(r, names, ts[0], tds, tds');
      AddAllTdsRenamed(r, names, ts[1..], AddTds(ts[0], tds), AddTds(RenameTree(r, ts[0]), tds'));
    }
  }

  /** Alpha-invariance of the interface cookie. A consistent, injective renaming of a whole
      module leaves the hash input identical, if it renames nothing but names that the
      hashed regions define themselves and types that they expand, and if the definitions
      of types refer to each other without a cycle. */
  lemma InterfaceIgnoresRenaming(r: Renaming, self: string, names: set<string>, digest: Digest,
                                 rank: string -> nat, ts: seq<Tree>)
    requires AllShaped(ts) && NamesAmong(FlatAll(ts), names) && InjectiveOn(r, names)
    requires forall n | n in names :: ModuleLocal(self, r(n)) == ModuleLocal(self, n) && TypeLike(r(n)) == TypeLike(n)
    requires Ranked(SurfaceOf(self, ts), rank)
    requires HarmlessTrees(r, SurfaceOf(self, ts), ts)
    requires forall n | n in SurfaceOf(self, ts).tds :: Harmless(r, SurfaceOf(self, ts), SurfaceOf(self, ts).tds[n], false)
    ensures AllShaped(RenameTrees(r, ts))
    ensures InterfaceAtoms(self, digest, RenameTrees(r, ts)) == InterfaceAtoms(self, digest, ts)
  {
    AddAllTdsRenamed(r, names, ts, map[], map[]);
    ScanTreesRenamed(r, SurfaceOf(self, ts), SurfaceOf(self, RenameTrees(r, ts)), names, digest, rank, ts);
  }

  // ---------- editing bodies ----------

  function AddTdList(tds: Tds, list: seq<Tree>): Tds
    requires forall t | t in list :: t.Branch?
    decreases |list|
  {
    if list == [] then tds else AddTdList(AddTd(list[0], tds), list[1..])
  }

  lemma {:induction false} AddTdListAppend(tds: Tds, a: seq<Tree>, b: seq<Tree>)
    requires forall t | t in a || t in b :: t.Branch?
    ensures AddTdList(tds, a + b) == AddTdList(AddTdList(tds, a), b)
    decreases |a|
  {
    if a == [] {
      assert a + b == b;
    } else {
      AddTdListAppend(AddTd(a[0], tds), a[1..], b);
      assert (a + b)[1..] == a[1..] + b;
    }
  }

  /** The table of type definitions depends on nothing but the definitions. */
  lemma {:induction false} AddTdsByList(t: Tree, tds: Tds)
    ensures forall d | d in TdList(t) :: d.Branch?
    ensures AddTds(t, tds) == AddTdList(tds, TdList(t))
    decreases t, 0
  {
    match t
    case Atom(_) =>
    case Branch(tag, kids) =>
      AddAllTdsByList(kids, AddTd(t, tds));
      if tag.TypeDefTag? {
        AddTdListAppend(tds, [t], TdLists(kids));
        assert AddTdList(tds, [t]) == AddTd(t, tds);
      } else {
        assert TdList(t) == TdLists(kids);
      }
  }

  lemma {:induction false} AddAllTdsByList(ts: seq<Tree>, tds: Tds)
    ensures forall d | d in TdLists(ts) :: d.Branch?
    ensures AddAllTds(ts, tds) == AddTdList(tds, TdLists(ts))
    decreases ts, 1
  {
    if ts != [] {
      AddTdsByList(ts[0], tds);
      AddAllTdsByList(ts[1..], AddTds(ts[0], tds));
      AddTdListAppend(tds, TdList(ts[0]), TdLists(ts[1..]));
    }
  }

  /** Two definitions of the same exported routine that differ in nothing but its body. */
  predicate BodyEdit(a: seq<Tree>, b: seq<Tree>)
  {
    && SdShape(a) && SdShape(b) && Exported(a) && Exported(b) && HasBody(a) && HasBody(b)
    && |a| == |b| && a[..AST_FIELD] == b[..AST_FIELD] && a[AST_FIELD + 1..] == b[AST_FIELD + 1..]
    && var x, y := a[AST_FIELD], b[AST_FIELD];
       x.tag == y.tag && |x.kids| == |y.kids|
       && x.kids[..BODY_SON] == y.kids[..BODY_SON] && x.kids[BODY_SON + 1..] == y.kids[BODY_SON + 1..]
  }

  /** `b` is `a` with bodies of exported routines replaced, and with private definitions and
      the implementation section changed, but no type definition added or removed. */
  predicate Edited(a: Tree, b: Tree)
    decreases a, 0
  {
    match a
    case Atom(_) => a == b
    case Branch(tag, kids) =>
      b.Branch? && b.tag == tag &&
      if tag.SymDefTag? then
        a == b || (TdList(a) == TdList(b) && (BodyEdit(kids, b.kids) || (!Exported(kids) && !Exported(b.kids))))
      else if tag.Implementation? then TdList(a) == TdList(b)
      else if HashedWhole(tag) || tag.TypeDefTag? then a == b
      else AllEdited(kids, b.kids)
  }

  predicate AllEdited(xs: seq<Tree>, ys: seq<Tree>)
    decreases xs, 1
  {
    |xs| == |ys| && (xs == [] || (Edited(xs[0], ys[0]) && AllEdited(xs[1..], ys[1..])))
  }

  lemma {:induction false} EditKeepsTds(a: Tree, b: Tree)
    requires Edited(a, b)
    ensures TdList(a) == TdList(b)
    decreases a, 0
  {
    if a != b && !a.tag.SymDefTag? && !a.tag.Implementation? {
      EditsKeepTds(a.kids, b.kids);
    }
  }

  lemma {:induction false} EditsKeepTds(xs: seq<Tree>, ys: seq<Tree>)
    requires AllEdited(xs, ys)
    ensures TdLists(xs) == TdLists(ys)
    decreases xs, 1
  {
    if xs != [] {
      EditKeepsTds(xs[0], ys[0]);
      EditsKeepTds(xs[1..], ys[1..]);
    }
  }

  lemma {:induction false} EditKeepsScan(s: Surface, digest: Digest, a: Tree, b: Tree)
    requires Shaped(a) && Shaped(b) && Edited(a, b)
    ensures ScanTree(s, digest, a) == ScanTree(s, digest, b)
    decreases a, 0
  {
    match a
    case Atom(_) =>
    case Branch(tag, kids) =>
      if tag.SymDefTag? {
        if a != b && Exported(kids) {
          assert Signature(kids) == Signature(b.kids) by { SameSignature(kids, b.kids); }
        }
      } else if a != b && !tag.Implementation? {
        EditsKeepScan(s, digest, kids, b.kids);
      }
  }

  lemma SameSignature(a: seq<Tree>, b: seq<Tree>)
    requires BodyEdit(a, b)
    ensures Signature(a) == Signature(b)
  {
    assert forall i | 0 <= i < |a| && i != AST_FIELD :: a[i] == b[i] by {
      forall i | 0 <= i < |a| && i != AST_FIELD ensures a[i] == b[i] {
        if i < AST_FIELD { assert a[i] == a[..AST_FIELD][i]; } else { assert a[i] == a[AST_FIELD + 1..][i - AST_FIELD - 1]; }
      }
    }
  }

  lemma {:induction false} EditsKeepScan(s: Surface, digest: Digest, xs: seq<Tree>, ys: seq<Tree>)
    requires AllShaped(xs) && AllShaped(ys) && AllEdited(xs, ys)
    ensures ScanTrees(s, digest, xs) == ScanTrees(s, digest, ys)
    decreases xs, 1
  {
    if xs != [] {
      EditKeepsScan(s, digest, xs[0], ys[0]);
      EditsKeepScan(s, digest, xs[1..], ys[1..]);
    }
  }

  /** The interface cookie ignores bodies: it stays the same when the bodies of exported
      routines and whole private definitions are replaced, for every module. */
  lemma InterfaceIgnoresBodies(self: string, digest: Digest, xs: seq<Tree>, ys: seq<Tree>)
    requires AllShaped(xs) && AllShaped(ys) && AllEdited(xs, ys)
    ensures InterfaceAtoms(self, digest, xs) == InterfaceAtoms(self, digest, ys)
  {
    EditsKeepTds(xs, ys);
    AddAllTdsByList(xs, map[]);
    AddAllTdsByList(ys, map[]);
    EditsKeepScan(SurfaceOf(self, xs), digest, xs, ys);
  }

  // ---------- what the hash input depends on ----------

  /** The tokens of one hashed region. */
  datatype Piece = Piece(toks: seq<Tok>, keepFirst: bool)

  /** The regions that a subtree contributes. */
  function Pieces(t: Tree): seq<Piece>
    requires Shaped(t)
    decreases t, 0
  {
    match t
    case Atom(_) => []
    case Branch(tag, kids) =>
      if tag.SymDefTag? then if Exported(kids) then [Piece(Flat(Branch(tag, Signature(kids))), true)] else []
      else if tag.Implementation? then []
      else if HashedWhole(tag) then [Piece(Flat(t), false)]
      else AllPieces(kids)
  }

  function AllPieces(ts: seq<Tree>): seq<Piece>
    requires AllShaped(ts)
    decreases ts, 1
  {
    if ts == [] then [] else Pieces(ts[0]) + AllPieces(ts[1..])
  }

  function PieceAtoms(s: Surface, digest: Digest, ps: seq<Piece>): seq<HashAtom>
  {
    if ps == [] then [] else Atoms(s, digest, ps[0].toks, ps[0].keepFirst, {}) + PieceAtoms(s, digest, ps[1..])
  }

  lemma {:induction false} PieceAtomsAppend(s: Surface, digest: Digest, a: seq<Piece>, b: seq<Piece>)
    ensures PieceAtoms(s, digest, a + b) == PieceAtoms(s, digest, a) + PieceAtoms(s, digest, b)
    decreases |a|
  {
    hide Atoms;
    if a == [] {
      assert a + b == b;
    } else {
      PieceAtomsAppend(s, digest, a[1..], b);
      assert (a + b)[1..] == a[1..] + b;
      Regroup(Atoms(s, digest, a[0].toks, a[0].keepFirst, {}), PieceAtoms(s, digest, a[1..]), PieceAtoms(s, digest, b));
    }
  }

  lemma {:induction false} ScanByPieces(s: Surface, digest: Digest, t: Tree)
    requires Shaped(t)
    ensures ScanTree(s, digest, t) == PieceAtoms(s, digest, Pieces(t))
    decreases t, 0
  {
    hide Atoms, SdShape, Signature;
    match t
    case Atom(_) =>
    case Branch(tag, kids) =>
      if !tag.SymDefTag? && !tag.Implementation? && !HashedWhole(tag) {
        ScansByPieces(s, digest, kids);
      } else if Pieces(t) != [] {
        assert Pieces(t)[1..] == [];
      }
  }

  lemma {:induction false} ScansByPieces(s: Surface, digest: Digest, ts: seq<Tree>)
    requires AllShaped(ts)
    ensures ScanTrees(s, digest, ts) == PieceAtoms(s, digest, AllPieces(ts))
    decreases ts, 1
  {
    hide Atoms, PieceAtoms, Shaped, Pieces, ScanTree;
    if ts != [] {
      ScanByPieces(s, digest, ts[0]);
      ScansByPieces(s, digest, ts[1..]);
      PieceAtomsAppend(s, digest, Pieces(ts[0]), AllPieces(ts[1..]));
    } else {
      NoPieces(s, digest);
    }
  }

  lemma NoPieces(s: Surface, digest: Digest)
    ensures PieceAtoms(s, digest, []) == []
  {
  }

  /** The hash input depends on nothing but the hashed regions and the list of type
      definitions: whatever else of a module is edited, on the top level or inside
      definitions, leaves it identical. */
  lemma InterfaceDependsOn(self: string, digest: Digest, xs: seq<Tree>, ys: seq<Tree>)
    requires AllShaped(xs) && AllShaped(ys) && AllPieces(xs) == AllPieces(ys) && TdLists(xs) == TdLists(ys)
    ensures InterfaceAtoms(self, digest, xs) == InterfaceAtoms(self, digest, ys)
  {
    AddAllTdsByList(xs, map[]);
    AddAllTdsByList(ys, map[]);
    ScansByPieces(SurfaceOf(self, xs), digest, xs);
    ScansByPieces(SurfaceOf(self, ys), digest, ys);
  }
}
