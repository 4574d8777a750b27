/** The file of a module: a header section that importers replay, and below it a section
    that is loaded symbol by symbol. One writer fills both. */
module NifModule {
  import opened NifTokens
  import opened NifGraph
  import opened NifLoader
  import opened NifDefinitions
  import opened NifInventory
  import opened NifAssembly
  import opened NifRows
  import opened NifWriter
  import opened NifParser
  import opened Options

  // The statement kinds that the writer tells apart on the top level.
  const NK_STMT_LIST := NkInner(0)
  const NK_STMT_LIST_EXPR := NkInner(1)
  const NK_TYPE_SECTION := NkInner(2)
  const NK_COMMENT_STMT := NkInner(3)
  const NK_MIXIN_STMT := NkInner(4)
  const NK_BIND_STMT := NkInner(5)
  const NK_USING_STMT := NkInner(6)
  const NK_CONST_SECTION := NkInner(7)
  const NK_LET_SECTION := NkInner(8)
  const NK_VAR_SECTION := NkInner(9)
  const NK_IDENT_DEFS := NkInner(10)
  const NK_CONST_DEF := NkInner(11)
  const NK_VAR_TUPLE := NkInner(12)
  const NK_POSTFIX := NkInner(13)
  const NK_PRAGMA_EXPR := NkInner(14)

  // ---------- several sections ----------

  function Join(parts: seq<seq<Tok>>): seq<Tok>
  {
    if parts == [] then [] else parts[0] + Join(parts[1..])
  }

  /** The sections together contain what Delta says of one piece of text. */
  ghost predicate Sections(g: Graph, env: Env, w0: set<Key>, w1: set<Key>, parts: seq<seq<Tok>>)
    requires GraphOk(g)
  {
    && w0 <= w1 && Counted(g, w0, w1, Join(parts))
    && (forall i | 0 <= i < |parts| :: Closed(g, w1, parts[i]))
    && (forall k | Tracked(g, k) && k in w1 && k !in w0 :: exists i :: 0 <= i < |parts| && DefinedIn(g, env, k, parts[i]))
  }

  lemma {:induction false} JoinGrows(parts: seq<seq<Tok>>, i: nat, more: seq<Tok>)
    requires i < |parts|
    ensures multiset(Join(parts[i := parts[i] + more])) == multiset(Join(parts)) + multiset(more)
  {
    var grown := parts[i := parts[i] + more];
    if i == 0 {
      assert grown[1..] == parts[1..];
    } else {
      assert grown[1..] == parts[1..][i - 1 := parts[i] + more];
      JoinGrows(parts[1..], i - 1, more);
    }
  }

  lemma SectionGrows(g: Graph, env: Env, w0: set<Key>, w1: set<Key>, w2: set<Key>, parts: seq<seq<Tok>>, i: nat, more: seq<Tok>)
    requires GraphOk(g) && i < |parts| && Sections(g, env, w0, w1, parts) && Delta(g, env, w1, w2, more)
    ensures Sections(g, env, w0, w2, parts[i := parts[i] + more])
  {
    hide GraphOk, DefinedIn, KeyName, Tracked, Join;
    var grown := parts[i := parts[i] + more];
    JoinGrows(parts, i, more);
    assert Counted(g, w0, w2, Join(grown));
    forall k | Tracked(g, k) && k in w2 && k !in w0 ensures exists j :: 0 <= j < |grown| && DefinedIn(g, env, k, grown[j]) {
      if k in w1 {
        var j :| 0 <= j < |parts| && DefinedIn(g, env, k, parts[j]);
        if j == i {
          DefinedStays(g, env, k, parts[i], more);
        }
        assert DefinedIn(g, env, k, grown[j]);
      } else {
        DefinedStays(g, env, k, parts[i], more);
        assert DefinedIn(g, env, k, grown[i]);
      }
    }
  }

  lemma {:induction false} DefinedInPart(g: Graph, env: Env, k: Key, parts: seq<seq<Tok>>, i: nat)
    requires GraphOk(g) && Tracked(g, k) && i < |parts| && DefinedIn(g, env, k, parts[i])
    ensures DefinedIn(g, env, k, Join(parts))
    decreases |parts|
  {
    hide GraphOk, DefinedIn, KeyName, Tracked;
    if i > 0 {
      assert parts[1..][i - 1] == parts[i];
      DefinedInPart(g, env, k, parts[1..], i - 1);
    }
    DefinedStays(g, env, k, parts[0], Join(parts[1..]));
  }

  lemma {:induction false} ClosedParts(g: Graph, w: set<Key>, parts: seq<seq<Tok>>)
    requires forall i | 0 <= i < |parts| :: Closed(g, w, parts[i])
    ensures Closed(g, w, Join(parts))
    decreases |parts|
  {
    if parts != [] {
      ClosedParts(g, w, parts[1..]);
      assert Closed(g, w, parts[0]);
    }
  }

  /** Sections that are put one after the other make one text. */
  lemma SectionsJoin(g: Graph, env: Env, w0: set<Key>, w1: set<Key>, parts: seq<seq<Tok>>)
    requires GraphOk(g) && Sections(g, env, w0, w1, parts)
    ensures Delta(g, env, w0, w1, Join(parts))
  {
    hide GraphOk, DefinedIn, KeyName, Tracked, Closed, Counted, Join;
    ClosedParts(g, w1, parts);
    forall k | Tracked(g, k) && k in w1 && k !in w0 ensures DefinedIn(g, env, k, Join(parts)) {
      var i :| 0 <= i < |parts| && DefinedIn(g, env, k, parts[i]);
      DefinedInPart(g, env, k, parts, i);
    }
  }

  // ---------- what may stand on the top level ----------

  /** A declaration from which the writer takes the declared symbols. */
  predicate GlobalOk(g: Graph, n: Node)
  {
    match n
    case InnerNode(kind, _, _, sons) =>
      if kind == NK_VAR_TUPLE then NodeOk(g, n, false)
      else if kind == NK_IDENT_DEFS || kind == NK_CONST_DEF then forall i | 0 <= i < |sons| :: GlobalOk(g, sons[i])
      else if kind == NK_POSTFIX then |sons| > 1 && GlobalOk(g, sons[1])
      else if kind == NK_PRAGMA_EXPR then |sons| > 0 && GlobalOk(g, sons[0])
      else true
    case SymNode(_, _, _, sym) => sym in g.syms
    case _ => true
  }

  predicate TopLevelOk(g: Graph, n: Node)
  {
    match n
    case InnerNode(kind, _, typ, sons) =>
      if kind == NK_STMT_LIST || kind == NK_STMT_LIST_EXPR then forall i | 0 <= i < |sons| :: TopLevelOk(g, sons[i])
      else if kind == NK_CONST_SECTION || kind == NK_LET_SECTION || kind == NK_VAR_SECTION then
        TypOk(g, typ) && forall i | 0 <= i < |sons| :: GlobalOk(g, sons[i])
      else NodeOk(g, n, false)
    case _ => NodeOk(g, n, false)
  }

  predicate IsSection(k: NodeKind) { k == NK_CONST_SECTION || k == NK_LET_SECTION || k == NK_VAR_SECTION }

  /** Purely declarative statements go to the section that is loaded symbol by symbol. */
  predicate IsDeclarative(k: NodeKind)
  {
    k.NkRoutineDef? || k == NK_TYPE_SECTION || k == NK_COMMENT_STMT || k == NK_MIXIN_STMT || k == NK_BIND_STMT || k == NK_USING_STMT
  }

  // ---------- what a section is made of ----------

  /** What a declaration contributes: a symbol, or a tuple declaration as it stands. */
  datatype Decl = Tuple(n: Node) | Symbol(s: SymId)

  function Declared(n: Node): seq<Decl>
    decreases n, 1
  {
    match n
    case InnerNode(kind, _, _, sons) =>
      if kind == NK_VAR_TUPLE then [Tuple(n)]
      else if kind == NK_IDENT_DEFS || kind == NK_CONST_DEF then DeclaredBy(n, if |sons| < 2 then 0 else |sons| - 2)
      else if kind == NK_POSTFIX && |sons| > 1 then Declared(sons[1])
      else if kind == NK_PRAGMA_EXPR && |sons| > 0 then Declared(sons[0])
      else []
    case SymNode(_, _, _, sym) => [Symbol(sym)]
    case _ => []
  }

  function DeclaredBy(n: Node, k: nat): seq<Decl>
    requires n.InnerNode? && k <= |n.sons|
    decreases n, 0, k
  {
    if k == 0 then [] else DeclaredBy(n, k - 1) + Declared(n.sons[k - 1])
  }

  /** The tree in a symbol's place is read as the symbol. */
  predicate NamesSym(g: Graph, s: SymId, t: Tree)
  {
    s in g.syms && LoadSymRef(t) == Some(Some(g.syms[s].name))
  }

  ghost predicate DeclReads(g: Graph, env: Env, d: Decl, t: Tree)
    requires GraphOk(g)
  {
    match d
    case Tuple(n) => NodeOk(g, n, false) && NodeReads(g, env, n, false, t)
    case Symbol(s) => NamesSym(g, s, t)
  }

  ghost predicate DeclsRead(g: Graph, env: Env, ds: seq<Decl>, ts: seq<Tree>)
    requires GraphOk(g)
  {
    |ds| == |ts| && forall i | 0 <= i < |ds| :: DeclReads(g, env, ds[i], ts[i])
  }

  /** What a section of the file contains: a statement, or the symbols of a declaration
      section. */
  datatype Item = Statement(n: Node) | Declaration(n: Node)

  // The sections in the order of the file.
  const REPLAY := 0
  const OPS := 1
  const CONTENT := 2
  const BOTTOM := 3

  function Only(here: bool, item: Item): seq<Item>
  {
    if here then [item] else []
  }

  /** The items that a top-level statement contributes to a section. */
  function Items(n: Node, part: nat): seq<Item>
    decreases n, 1
  {
    match n
    case EmptyNode(_, _) => []
    case InnerNode(kind, _, _, sons) =>
      if kind == NK_STMT_LIST || kind == NK_STMT_LIST_EXPR then ItemsOf(n, |sons|, part)
      else if IsDeclarative(kind) then Only(part == BOTTOM, Statement(n))
      else if kind == NK_CONST_SECTION then Only(part == BOTTOM, Declaration(n))
      else if kind == NK_LET_SECTION || kind == NK_VAR_SECTION then Only(part == CONTENT, Declaration(n))
      else Only(part == CONTENT, Statement(n))
    case _ => Only(part == CONTENT, Statement(n))
  }

  function ItemsOf(n: Node, k: nat, part: nat): seq<Item>
    requires n.InnerNode? && k <= |n.sons|
    decreases n, 0, k
  {
    if k == 0 then [] else ItemsOf(n, k - 1, part) + Items(n.sons[k - 1], part)
  }

  predicate GoesBelow(n: Node)
  {
    n.InnerNode? && (IsDeclarative(n.kind) || n.kind == NK_CONST_SECTION)
  }

  predicate GoesAbove(n: Node)
  {
    !n.EmptyNode? && (n.InnerNode? ==> n.kind != NK_STMT_LIST && n.kind != NK_STMT_LIST_EXPR && !GoesBelow(n))
  }

  lemma NotAbove(n: Node)
    requires n.EmptyNode? || (GoesBelow(n) && n.kind != NK_STMT_LIST && n.kind != NK_STMT_LIST_EXPR)
    ensures Items(n, CONTENT) == []
  {
  }

  lemma NotBelow(n: Node)
    requires n.EmptyNode? || GoesAbove(n)
    ensures Items(n, BOTTOM) == []
  {
  }

  lemma ItemsOfList(n: Node, part: nat)
    requires n.InnerNode? && (n.kind == NK_STMT_LIST || n.kind == NK_STMT_LIST_EXPR)
    ensures Items(n, part) == ItemsOf(n, |n.sons|, part)
  {
  }

  ghost predicate ItemReads(g: Graph, env: Env, item: Item, t: Tree)
    requires GraphOk(g)
  {
    match item
    case Statement(n) => NodeOk(g, n, false) && NodeReads(g, env, n, false, t)
    case Declaration(n) =>
      && n.InnerNode? && TypOk(g, n.typ) && t.Branch? && t.tag == KindTag(n.kind) && |t.kids| >= 2
      && HeadReads(g, n.flags, n.typ, t.kids[..2]) && DeclsRead(g, env, DeclaredBy(n, |n.sons|), t.kids[2..])
  }

  ghost predicate ItemsRead(g: Graph, env: Env, items: seq<Item>, ts: seq<Tree>)
    requires GraphOk(g)
  {
    |items| == |ts| && forall i | 0 <= i < |items| :: ItemReads(g, env, items[i], ts[i])
  }

  ghost predicate NodesRead(g: Graph, env: Env, ns: seq<Node>, ts: seq<Tree>)
    requires GraphOk(g)
  {
    |ns| == |ts| && forall i | 0 <= i < |ns| :: NodeOk(g, ns[i], false) && NodeReads(g, env, ns[i], false, ts[i])
  }

  /** An entry of the module's log: a registration under a key, of a symbol. An instance of a
      generic is in the log only to have its symbol written. */
  datatype Op = Op(kind: OpKind, key: string, sym: SymId)

  function OpTrees(g: Graph, op: Op): seq<Tree>
    requires op.sym in g.syms
  {
    if op.kind.GenericInstEntry? then [] else [Branch(Registration(op.kind), [Atom(Str(op.key)), Atom(Sym(g.syms[op.sym].name))])]
  }

  predicate OpsOk(g: Graph, ops: seq<Op>)
  {
    forall i | 0 <= i < |ops| :: ops[i].sym in g.syms && g.syms[ops[i].sym].cls.Ordinary?
  }

  function OpsTrees(g: Graph, ops: seq<Op>): seq<Tree>
    requires OpsOk(g, ops)
  {
    if ops == [] then [] else OpsTrees(g, ops[..|ops| - 1]) + OpTrees(g, ops[|ops| - 1])
  }

  lemma AtomsAre(a: Tree, b: Tree)
    requires a.Atom? && b.Atom? && IsTree(a) && IsTree(b)
    ensures FlatAll([a, b]) == [a.tok, b.tok] && AreTrees([a, b])
  {
    OneTree(a);
    OneTree(b);
    assert [a, b] == [a] + [b];
    FlatAllAppend([a], [b]);
    AreTreesAppend([a], [b]);
  }

  lemma OpFlat(g: Graph, op: Op)
    requires op.sym in g.syms
    ensures FlatAll(OpTrees(g, op)) == if op.kind.GenericInstEntry? then []
      else [ParLe(Registration(op.kind)), Str(op.key)] + ([Sym(g.syms[op.sym].name)] + [ParRi])
    ensures AreTrees(OpTrees(g, op)) && TdLists(OpTrees(g, op)) == SdLists(OpTrees(g, op)) == []
  {
    if !op.kind.GenericInstEntry? {
      var kids := [Atom(Str(op.key)), Atom(Sym(g.syms[op.sym].name))];
      AtomsAre(kids[0], kids[1]);
      AtomsDefineNothing(kids);
      ListsOfOne(Branch(Registration(op.kind), kids));
      OneTree(Branch(Registration(op.kind), kids));
    }
  }

  lemma {:induction false} OpsAreTrees(g: Graph, ops: seq<Op>)
    requires OpsOk(g, ops)
    ensures AreTrees(OpsTrees(g, ops)) && TdLists(OpsTrees(g, ops)) == SdLists(OpsTrees(g, ops)) == []
    decreases |ops|
  {
    hide OpTrees;
    if ops != [] {
      var front, last := OpsTrees(g, ops[..|ops| - 1]), OpTrees(g, ops[|ops| - 1]);
      OpsAreTrees(g, ops[..|ops| - 1]);
      OpFlat(g, ops[|ops| - 1]);
      AreTreesAppend(front, last);
      ListsAppend(front, last);
    }
  }

  lemma MoreOps(g: Graph, ops: seq<Op>, i: nat)
    requires OpsOk(g, ops) && i < |ops|
    ensures var op := ops[i];
      FlatAll(OpsTrees(g, ops[..i + 1])) == FlatAll(OpsTrees(g, ops[..i])) +
        if op.kind.GenericInstEntry? then [] else [ParLe(Registration(op.kind)), Str(op.key)] + ([Sym(g.syms[op.sym].name)] + [ParRi])
  {
    hide FlatAll, OpTrees;
    assert ops[..i + 1][..i] == ops[..i];
    OpFlat(g, ops[i]);
    FlatAllAppend(OpsTrees(g, ops[..i]), OpTrees(g, ops[i]));
  }

  /** The registrations refer to written symbols only. */
  lemma {:induction false} OpsDelta(g: Graph, env: Env, w: set<Key>, ops: seq<Op>)
    requires GraphOk(g) && NamesDistinct(g) && OpsOk(g, ops) && forall i | 0 <= i < |ops| :: SymKey(ops[i].sym) in w
    ensures Delta(g, env, w, w, FlatAll(OpsTrees(g, ops)))
    decreases |ops|
  {
    hide GraphOk, NamesDistinct, Delta, OpTrees, FlatAll;
    if ops == [] {
      NoTokens();
      DeltaPlain(g, env, w, []);
    } else {
      var op := ops[|ops| - 1];
      OpsDelta(g, env, w, ops[..|ops| - 1]);
      OpDelta(g, env, w, op);
      DeltaCompose(g, env, w, w, w, FlatAll(OpsTrees(g, ops[..|ops| - 1])), FlatAll(OpTrees(g, op)));
      FlatAllAppend(OpsTrees(g, ops[..|ops| - 1]), OpTrees(g, op));
    }
  }

  lemma OpDelta(g: Graph, env: Env, w: set<Key>, op: Op)
    requires GraphOk(g) && NamesDistinct(g) && op.sym in g.syms && SymKey(op.sym) in w
    ensures Delta(g, env, w, w, FlatAll(OpTrees(g, op)))
  {
    hide GraphOk, NamesDistinct, Delta, OpTrees, FlatAll;
    OpFlat(g, op);
    DeltaPlain(g, env, w, []);
    if !op.kind.GenericInstEntry? {
      DeltaPlain(g, env, w, [ParLe(Registration(op.kind)), Str(op.key)]);
      UnclaimedSettled(g, op.sym, w);
      SettledUse(g, env, w, g.syms[op.sym].name);
      DeltaPlain(g, env, w, [ParRi]);
      DeltaCompose(g, env, w, w, w, [Sym(g.syms[op.sym].name)], [ParRi]);
      DeltaCompose(g, env, w, w, w, [ParLe(Registration(op.kind)), Str(op.key)], [Sym(g.syms[op.sym].name)] + [ParRi]);
    }
  }

  lemma NoTokens()
    ensures FlatAll([]) == []
  {
  }

  lemma SettledUse(g: Graph, env: Env, w: set<Key>, name: string)
    requires GraphOk(g) && Settled(g, w, name)
    ensures Delta(g, env, w, w, [Sym(name)])
  {
    hide GraphOk, Delta;
    DeltaUse(g, env, w, name);
  }

  lemma WroteDelta(g: Graph, env: Env, s0: State, s1: State, ts: seq<Tree>)
    requires GraphOk(g) && Wrote(g, env, s0, s1, ts)
    ensures s1.dest == s0.dest + FlatAll(ts) && Delta(g, env, s0.written, s1.written, FlatAll(ts))
    ensures s0.written <= s1.written && AreTrees(ts) && NoMarks(ts) && Inventory(g, s0.written, s1.written, ts)
  {
    hide GraphOk, Counted, Closed, Found, InOrder, SymsListed, NoMarks;
  }

  /** The definitions inside trees, in any order. */
  ghost function TdBag(ts: seq<Tree>): multiset<Tree> { multiset(TdLists(ts)) }

  ghost function SdBag(ts: seq<Tree>): multiset<Tree> { multiset(SdLists(ts)) }

  lemma BagAppend(a: seq<Tree>, b: seq<Tree>)
    ensures TdBag(a + b) == TdBag(a) + TdBag(b) && SdBag(a + b) == SdBag(a) + SdBag(b)
    ensures AreTrees(a + b) <==> AreTrees(a) && AreTrees(b)
    ensures NoMarks(a + b) <==> NoMarks(a) && NoMarks(b)
  {
    ListsAppend(a, b);
    AreTreesAppend(a, b);
    NoMarksAppend(a, b);
  }

  lemma BagBoth(cs: seq<Tree>, bs: seq<Tree>, moreCs: seq<Tree>, moreBs: seq<Tree>)
    requires AreTrees(cs + bs) && AreTrees(moreCs + moreBs)
    ensures TdBag(cs + moreCs + (bs + moreBs)) == TdBag(cs + bs) + TdBag(moreCs + moreBs)
    ensures SdBag(cs + moreCs + (bs + moreBs)) == SdBag(cs + bs) + SdBag(moreCs + moreBs)
    ensures AreTrees(cs + moreCs + (bs + moreBs))
    ensures NoMarks(cs + bs) && NoMarks(moreCs + moreBs) ==> NoMarks(cs + moreCs + (bs + moreBs))
  {
    hide TdBag, SdBag, AreTrees, NoMarks;
    BagAppend(cs, bs);
    BagAppend(moreCs, moreBs);
    BagAppend(cs, moreCs);
    BagAppend(bs, moreBs);
    BagAppend(cs + moreCs, bs + moreBs);
  }

  lemma BagBranch(tag: Tag, kids: seq<Tree>)
    requires !tag.TypeDefTag? && !tag.SymDefTag?
    ensures TdBag([Branch(tag, kids)]) == TdBag(kids) && SdBag([Branch(tag, kids)]) == SdBag(kids)
    ensures AreTrees([Branch(tag, kids)]) <==> AreTrees(kids)
    ensures !IsMark(tag) && NoMarks(kids) ==> NoMarks([Branch(tag, kids)])
  {
    ListsOfOne(Branch(tag, kids));
    assert TdList(Branch(tag, kids)) == TdLists(kids) && SdList(Branch(tag, kids)) == SdLists(kids);
    assert [Branch(tag, kids)][1..] == [];
  }

  lemma SumUp(r: multiset<Tree>, c: multiset<Tree>, b: multiset<Tree>, o: multiset<Tree>, f: multiset<Tree>)
    ensures multiset{} + r + (c + b) + o + f == multiset{} + r + c + b + (o + f)
  {
  }

  lemma BagNothing()
    ensures TdBag([]) == SdBag([]) == multiset{} && AreTrees([]) && NoMarks([])
  {
  }

  /** A section with more tokens at its end. */
  function Extend(parts: seq<seq<Tok>>, part: nat, more: seq<Tok>): (r: seq<seq<Tok>>)
    requires part < |parts|
    ensures |r| == |parts|
  {
    parts[part := parts[part] + more]
  }

  lemma ExtendTwice(parts: seq<seq<Tok>>, part: nat, ts: seq<Tree>, more: seq<Tree>)
    requires part < |parts|
    ensures Extend(Extend(parts, part, FlatAll(ts)), part, FlatAll(more)) == Extend(parts, part, FlatAll(ts + more))
  {
    FlatAllAppend(ts, more);
    hide FlatAll;
    Regroup(parts[part], FlatAll(ts), FlatAll(more));
  }

  lemma ExtendBranch(parts: seq<seq<Tok>>, part: nat, tag: Tag, kids: seq<Tree>)
    requires part < |parts|
    ensures Extend(Extend(Extend(parts, part, [ParLe(tag)]), part, FlatAll(kids)), part, [ParRi])
         == Extend(parts, part, FlatAll([Branch(tag, kids)]))
  {
    OneTree(Branch(tag, kids));
    hide FlatAll;
    assert parts[part] + [ParLe(tag)] + FlatAll(kids) + [ParRi] == parts[part] + ([ParLe(tag)] + FlatAll(kids) + [ParRi]);
  }

  lemma ExtendNothing(parts: seq<seq<Tok>>, part: nat)
    requires part < |parts|
    ensures Extend(parts, part, FlatAll([])) == parts == Extend(parts, part, [])
  {
    assert parts[part] + [] == parts[part];
  }

  lemma ExtendBoth(parts: seq<seq<Tok>>, cs: seq<Tree>, bs: seq<Tree>, moreCs: seq<Tree>, moreBs: seq<Tree>)
    requires |parts| == 4
    ensures Extend(Extend(Extend(Extend(parts, CONTENT, FlatAll(cs)), BOTTOM, FlatAll(bs)), CONTENT, FlatAll(moreCs)), BOTTOM, FlatAll(moreBs))
         == Extend(Extend(parts, CONTENT, FlatAll(cs + moreCs)), BOTTOM, FlatAll(bs + moreBs))
  {
    FlatAllAppend(cs, moreCs);
    FlatAllAppend(bs, moreBs);
    hide FlatAll;
    Regroup(parts[CONTENT], FlatAll(cs), FlatAll(moreCs));
    Regroup(parts[BOTTOM], FlatAll(bs), FlatAll(moreBs));
  }

  lemma NoItems(g: Graph, env: Env)
    requires GraphOk(g)
    ensures ItemsRead(g, env, [], [])
  {
    hide GraphOk;
  }

  lemma MoreItems(g: Graph, env: Env, items: seq<Item>, ts: seq<Tree>, more: seq<Item>, moreTs: seq<Tree>)
    requires GraphOk(g) && ItemsRead(g, env, items, ts) && ItemsRead(g, env, more, moreTs)
    ensures ItemsRead(g, env, items + more, ts + moreTs)
  {
    hide GraphOk, ItemReads;
  }

  lemma HeadCount(g: Graph, flags: NodeFlags, typ: Option<TypeId>, hs: seq<Tree>)
    requires TypOk(g, typ) && HeadReads(g, flags, typ, hs)
    ensures |hs| == 2 && hs[..2] == hs && hs[2..] == []
  {
  }

  lemma JoinFour(a: seq<Tok>, b: seq<Tok>, c: seq<Tok>, d: seq<Tok>)
    ensures Join([a, b, c, d]) == a + b + c + d
  {
    assert [a, b, c, d][1..] == [b, c, d] && [b, c, d][1..] == [c, d] && [c, d][1..] == [d];
    assert Join([d]) == d + Join([]) == d;
    assert Join([c, d]) == c + d;
    assert Join([b, c, d]) == b + (c + d);
    Regroup(b, c, d);
    Regroup(a, b + c, d);
    Regroup(a, b, c);
  }

  /** What the steps of writing a module put into its sections. */
  lemma FileParts(parts: seq<seq<Tok>>, open: Tok, r: seq<Tok>, c: seq<Tok>, b: seq<Tok>, o: seq<Tok>, f: seq<Tok>)
    requires parts == [[], [], [], []]
    ensures var p0 := Extend(Extend(Extend(Extend(parts, REPLAY, [open]), REPLAY, [Dot]), REPLAY, [Dot]), REPLAY, r);
      var p1 := Extend(Extend(Extend(p0, CONTENT, c), BOTTOM, b), BOTTOM, o);
      var p2 := Extend(Extend(p1, CONTENT, [ParLe(Implementation)]), CONTENT, [ParRi]);
      Extend(Extend(p2, BOTTOM, f), BOTTOM, [ParRi])
        == [[open, Dot, Dot] + r, [], c + [ParLe(Implementation), ParRi], b + (o + f) + [ParRi]]
  {
    assert [] + [open] + [Dot] + [Dot] == [open, Dot, Dot];
    assert [] + c + [ParLe(Implementation)] + [ParRi] == c + [ParLe(Implementation), ParRi];
    assert [] + b + o + f + [ParRi] == b + (o + f) + [ParRi];
  }

  /** A module's file. */
  ghost function FileTree(g: Graph, actions: seq<Node>, ops: seq<Op>, rs: seq<Tree>, cs: seq<Tree>, bs: seq<Tree>, extra: seq<Tree>): Tree
    requires OpsOk(g, ops)
  {
    Branch(KindTag(NK_STMT_LIST),
           [Atom(Dot), Atom(Dot)] + Replayed(actions, rs) + OpsTrees(g, ops) + cs + [Branch(Implementation, [])] + bs + extra)
  }

  /** The replayed actions are wrapped into one tree. */
  function Replayed(actions: seq<Node>, rs: seq<Tree>): seq<Tree>
  {
    if actions == [] then [] else [Branch(Replay, rs)]
  }

  lemma FileFlat(r: seq<Tree>, o: seq<Tree>, c: seq<Tree>, b: seq<Tree>, e: seq<Tree>)
    ensures FlatAll([Atom(Dot), Atom(Dot)] + r + o + c + [Branch(Implementation, [])] + b + e)
         == [Dot, Dot] + FlatAll(r) + FlatAll(o) + FlatAll(c) + [ParLe(Implementation), ParRi] + FlatAll(b) + FlatAll(e)
  {
    var dots, mark := [Atom(Dot), Atom(Dot)], [Branch(Implementation, [])];
    assert dots[1..] == [Atom(Dot)] && FlatAll(dots) == [Dot, Dot];
    OneTree(Branch(Implementation, []));
    assert FlatAll(mark) == [ParLe(Implementation), ParRi];
    hide FlatAll;
    FlatAllAppend(dots, r);
    FlatAllAppend(dots + r, o);
    FlatAllAppend(dots + r + o, c);
    FlatAllAppend(dots + r + o + c, mark);
    FlatAllAppend(dots + r + o + c + mark, b);
    FlatAllAppend(dots + r + o + c + mark + b, e);
  }

  /** Trees without definitions and trees with the definitions in the bags. */
  ghost predicate Bagged(ts: seq<Tree>, td: multiset<Tree>, sd: multiset<Tree>)
  {
    AreTrees(ts) && TdBag(ts) == td && SdBag(ts) == sd
  }

  lemma BaggedMore(a: seq<Tree>, td: multiset<Tree>, sd: multiset<Tree>, b: seq<Tree>)
    requires Bagged(a, td, sd) && AreTrees(b)
    ensures Bagged(a + b, td + TdBag(b), sd + SdBag(b))
  {
    hide TdBag, SdBag, AreTrees, NoMarks;
    BagAppend(a, b);
  }

  lemma BaggedSame(a: seq<Tree>, td: multiset<Tree>, sd: multiset<Tree>, b: seq<Tree>)
    requires Bagged(a, td, sd) && Bagged(b, multiset{}, multiset{})
    ensures Bagged(a + b, td, sd)
  {
    hide TdBag, SdBag, AreTrees, NoMarks;
    BagAppend(a, b);
  }

  lemma DotsBagged()
    ensures Bagged([Atom(Dot), Atom(Dot)], multiset{}, multiset{}) && Bagged([Branch(Implementation, [])], multiset{}, multiset{})
  {
    AtomsAre(Atom(Dot), Atom(Dot));
    AtomsDefineNothing([Atom(Dot), Atom(Dot)]);
    BagBranch(Implementation, []);
    BagNothing();
  }

  lemma FileBags(r: seq<Tree>, o: seq<Tree>, c: seq<Tree>, b: seq<Tree>, e: seq<Tree>)
    requires AreTrees(r) && Bagged(o, multiset{}, multiset{}) && AreTrees(c) && AreTrees(b) && AreTrees(e)
    ensures Bagged([Atom(Dot), Atom(Dot)] + r + o + c + [Branch(Implementation, [])] + b + e,
                   multiset{} + TdBag(r) + TdBag(c) + TdBag(b) + TdBag(e), multiset{} + SdBag(r) + SdBag(c) + SdBag(b) + SdBag(e))
  {
    hide Bagged, TdBag, SdBag, AreTrees;
    var dots, mark, td, sd := [Atom(Dot), Atom(Dot)], [Branch(Implementation, [])], multiset{} + TdBag(r), multiset{} + SdBag(r);
    DotsBagged();
    BaggedMore(dots, multiset{}, multiset{}, r);
    BaggedSame(dots + r, td, sd, o);
    BaggedMore(dots + r + o, td, sd, c);
    BaggedSame(dots + r + o + c, td + TdBag(c), sd + SdBag(c), mark);
    BaggedMore(dots + r + o + c + mark, td + TdBag(c), sd + SdBag(c), b);
    BaggedMore(dots + r + o + c + mark + b, td + TdBag(c) + TdBag(b), sd + SdBag(c) + SdBag(b), e);
  }

  lemma OpsBagged(g: Graph, ops: seq<Op>)
    requires OpsOk(g, ops)
    ensures Bagged(OpsTrees(g, ops), multiset{}, multiset{})
  {
    OpsAreTrees(g, ops);
  }

  /** The children of the tree of a file, as tokens. */
  lemma FileTokens(r: seq<Tok>, o: seq<Tok>, c: seq<Tok>, b: seq<Tok>, e: seq<Tok>)
    ensures var open := ParLe(KindTag(NK_STMT_LIST));
      ([open, Dot, Dot] + r) + o + (c + [ParLe(Implementation), ParRi]) + (b + e + [ParRi])
        == [open] + ([Dot, Dot] + r + o + c + [ParLe(Implementation), ParRi] + b + e) + [ParRi]
  {
  }

  /** The sections of a file, put one after the other, are one tree, and define what they
      define. */
  lemma FileReads(g: Graph, actions: seq<Node>, ops: seq<Op>, rs: seq<Tree>, cs: seq<Tree>, bs: seq<Tree>, extra: seq<Tree>)
    requires OpsOk(g, ops) && AreTrees(Replayed(actions, rs)) && AreTrees(cs) && AreTrees(bs) && AreTrees(extra)
    ensures var t := FileTree(g, actions, ops, rs, cs, bs, extra);
      && ([ParLe(KindTag(NK_STMT_LIST)), Dot, Dot] + FlatAll(Replayed(actions, rs))) + FlatAll(OpsTrees(g, ops))
           + (FlatAll(cs) + [ParLe(Implementation), ParRi]) + (FlatAll(bs) + FlatAll(extra) + [ParRi]) == Flat(t)
      && ReadTree(Flat(t)) == Some((t, [])) && IsTree(t)
      && TdBag([t]) == multiset{} + TdBag(Replayed(actions, rs)) + TdBag(cs) + TdBag(bs) + TdBag(extra)
      && SdBag([t]) == multiset{} + SdBag(Replayed(actions, rs)) + SdBag(cs) + SdBag(bs) + SdBag(extra)
  {
    var r, o, t := Replayed(actions, rs), OpsTrees(g, ops), FileTree(g, actions, ops, rs, cs, bs, extra);
    hide FlatAll, OpsTrees, Replayed, AreTrees, TdBag, SdBag, ReadTree;
    OpsBagged(g, ops);
    FileFlat(r, o, cs, bs, extra);
    FileBags(r, o, cs, bs, extra);
    BagBranch(t.tag, t.kids);
    FileTokens(FlatAll(r), FlatAll(o), FlatAll(cs), FlatAll(bs), FlatAll(extra));
    assert Flat(t) + [] == Flat(t);
    TreeReadsBack(t, []);
  }

  /** The definitions inside a file: its types in the order in which they were marked, and
      its symbols. */
  ghost predicate WellWritten(g: Graph, w0: set<Key>, w1: set<Key>, file: Tree)
  {
    && IsTree(file)
    && (exists tds :: multiset(tds) == TdBag([file]) && InOrder(g, w0, w1, tds))
    && (exists sds :: multiset(sds) == SdBag([file]) && SymsListed(g, w0, w1, sds))
  }

  lemma NothingYet(g: Graph, env: Env, w: set<Key>)
    requires GraphOk(g)
    ensures Sections(g, env, w, w, [[], [], [], []]) && InOrder(g, w, w, []) && SymsListed(g, w, w, [])
  {
    hide GraphOk, Represents;
    DeltaPlain(g, env, w, []);
    InventoryNone(g, w, []);
    assert TdLists([]) == SdLists([]) == [];
    assert Join([[], [], [], []]) == [];
  }

  class ModuleWriter {
    const w: Writer
    ghost const initial: set<Key>
    /** The sections: the opening and the replayed actions; the registrations, as far as what
        they refer to is known to be written; the header; and the lazily loaded part. */
    var parts: seq<seq<Tok>>
    /** The definitions of types and symbols in the sections, in the order of writing. */
    ghost var tds: seq<Tree>
    ghost var sds: seq<Tree>

    ghost predicate Valid()
      reads this, w
    {
      && Sound(w.g, w.env) && w.inTypeReclist == 0 && |parts| == 4 && Sections(w.g, w.env, initial, w.written, parts)
      && InOrder(w.g, initial, w.written, tds) && SymsListed(w.g, initial, w.written, sds)
    }

    constructor (g: Graph, ghost env: Env, written: set<Key>)
      requires Sound(g, env)
      ensures Valid() && fresh(w) && w.g == g && w.env == env && initial == written == w.written && parts == [[], [], [], []]
      ensures tds == sds == []
    {
      hide Sections, InOrder, SymsListed, GraphOk, NamesDistinct, EnvOk;
      NothingYet(g, env, written);
      w := new Writer(g, env, written);
      initial := written;
      parts, tds, sds := [[], [], [], []], [], [];
    }

    /** Puts a token that names nothing into a section. */
    method Put(part: nat, tok: Tok)
      requires Valid() && part < 4 && !tok.Sym? && !tok.SymDef?
      modifies this`parts
      ensures Valid() && parts == Extend(old(parts), part, [tok])
    {
      hide GraphOk, NamesDistinct, EnvOk, Sections, Delta, InOrder, SymsListed;
      DeltaPlain(w.g, w.env, w.written, [tok]);
      SectionGrows(w.g, w.env, initial, w.written, w.written, parts, part, [tok]);
      parts := parts[part := parts[part] + [tok]];
    }

    /** The written keys only grow, and the definitions grow by those of the trees. */
    twostate predicate Gathers(ts: seq<Tree>)
      reads this, w
    {
      && old(w.written) <= w.written && AreTrees(ts)
      && multiset(tds) == multiset(old(tds)) + TdBag(ts) && multiset(sds) == multiset(old(sds)) + SdBag(ts)
    }

    /** The trees were appended to a section; outside the replayed actions they have no tag of
        the file's own sections. */
    twostate predicate Adds(part: nat, ts: seq<Tree>)
      reads this, w
    {
      Gathers(ts) && (part != REPLAY ==> NoMarks(ts)) && part < |old(parts)| && parts == Extend(old(parts), part, FlatAll(ts))
    }

    /** The trees were appended to the header and to the lazily loaded part. */
    twostate predicate AddsBoth(cs: seq<Tree>, bs: seq<Tree>)
      reads this, w
    {
      Gathers(cs + bs) && NoMarks(cs + bs) && |old(parts)| == 4 && parts == Extend(Extend(old(parts), CONTENT, FlatAll(cs)), BOTTOM, FlatAll(bs))
    }

    /** Takes up what the writer has appended to a section. */
    ghost method Note(part: nat, s0: State, ts: seq<Tree>)
      requires Sound(w.g, w.env) && w.inTypeReclist == 0 && |parts| == 4 && part < 4
      requires Sections(w.g, w.env, initial, s0.written, parts) && s0.dest == parts[part] && Wrote(w.g, w.env, s0, w.Now(), ts)
      requires InOrder(w.g, initial, s0.written, tds) && SymsListed(w.g, initial, s0.written, sds) && initial <= s0.written
      modifies this`tds, this`sds
      ensures s0.written <= w.written && parts[part := w.dest] == Extend(parts, part, FlatAll(ts))
      ensures Sections(w.g, w.env, initial, w.written, parts[part := w.dest])
      ensures InOrder(w.g, initial, w.written, tds) && SymsListed(w.g, initial, w.written, sds) && AreTrees(ts) && NoMarks(ts)
      ensures multiset(tds) == multiset(old(tds)) + TdBag(ts) && multiset(sds) == multiset(old(sds)) + SdBag(ts)
    {
      hide GraphOk, NamesDistinct, EnvOk, Sections, Delta, Wrote, InOrder, SymsListed, TdLists, SdLists, AreTrees, NoMarks, FlatAll;
      WroteDelta(w.g, w.env, s0, w.Now(), ts);
      SectionGrows(w.g, w.env, initial, s0.written, w.written, parts, part, FlatAll(ts));
      InOrderAppend(w.g, initial, s0.written, w.written, tds, TdLists(ts));
      SymsAppend(w.g, initial, s0.written, w.written, sds, SdLists(ts));
      tds, sds := tds + TdLists(ts), sds + SdLists(ts);
    }

    /** What is written only grows. */
    ghost method Later()
      requires Valid()
      ensures initial <= w.written
    {
      hide GraphOk, NamesDistinct, EnvOk, Counted, Closed, InOrder, SymsListed;
    }

    method WriteNode(part: nat, n: Node) returns (ghost t: Tree)
      requires Valid() && part < 4 && NodeOk(w.g, n, false)
      modifies this`parts, this`tds, this`sds, w
      ensures Valid() && Adds(part, [t]) && NodeReads(w.g, w.env, n, false, t)
    {
      hide GraphOk, NamesDistinct, EnvOk, Sections, InOrder, SymsListed, TdBag, SdBag, AreTrees, NoMarks, Delta, Wrote, Left, FieldsLeft, NodeOk, NodeReads, Extend;
      Later();
      w.dest := parts[part];
      ghost var s0 := w.Now();
      t := w.WriteNode(n, false);
      Note(part, s0, [t]);
      parts := parts[part := w.dest];
    }

    method WriteSym(part: nat, s: SymId) returns (ghost t: Tree)
      requires Valid() && part < 4 && s in w.g.syms
      modifies this`parts, this`tds, this`sds, w
      ensures Valid() && Adds(part, [t]) && NamesSym(w.g, s, t)
    {
      hide GraphOk, NamesDistinct, EnvOk, Sections, InOrder, SymsListed, TdBag, SdBag, AreTrees, NoMarks, Delta, Wrote, Left, FieldsLeft, LoadSymRef, Extend;
      Later();
      w.dest := parts[part];
      ghost var s0 := w.Now();
      t := w.WriteSym(Some(s));
      Note(part, s0, [t]);
      parts := parts[part := w.dest];
    }

    method WriteHead(part: nat, flags: NodeFlags, typ: Option<TypeId>) returns (ghost ts: seq<Tree>)
      requires Valid() && part < 4 && TypOk(w.g, typ)
      modifies this`parts, this`tds, this`sds, w
      ensures Valid() && Adds(part, ts) && HeadReads(w.g, flags, typ, ts)
    {
      hide GraphOk, NamesDistinct, EnvOk, Sections, InOrder, SymsListed, TdBag, SdBag, AreTrees, NoMarks, Delta, Wrote, Left, FieldsLeft, HeadReads, Extend;
      Later();
      w.dest := parts[part];
      ghost var s0 := w.Now();
      ts := w.WriteHead(flags, typ);
      Note(part, s0, ts);
      parts := parts[part := w.dest];
    }

    /** Writes the symbols that a declaration declares. */
    method WriteGlobal(part: nat, n: Node) returns (ghost ts: seq<Tree>)
      requires Valid() && part < 4 && GlobalOk(w.g, n)
      modifies this`parts, this`tds, this`sds, w
      ensures Valid() && Adds(part, ts) && DeclsRead(w.g, w.env, Declared(n), ts)
      decreases n, 1
    {
      hide GraphOk, NamesDistinct, EnvOk, Sections, InOrder, SymsListed, TdBag, SdBag, AreTrees, NoMarks, NodeOk, NodeReads, Extend, FlatAll, LoadSymRef;
      match n
      case InnerNode(kind, _, _, sons) =>
        if kind == NK_VAR_TUPLE {
          ghost var t := WriteNode(part, n);
          ts := [t];
        } else if kind == NK_IDENT_DEFS || kind == NK_CONST_DEF {
          ts := WriteSonGlobals(part, n, if |sons| < 2 then 0 else |sons| - 2);
        } else if kind == NK_POSTFIX {
          ts := WriteGlobal(part, sons[1]);
        } else if kind == NK_PRAGMA_EXPR {
          ts := WriteGlobal(part, sons[0]);
        } else {
          ts := [];
          BagNothing();
          ExtendNothing(parts, part);
        }
      case SymNode(_, _, _, sym) =>
        ghost var t := WriteSym(part, sym);
        ts := [t];
      case _ =>
        ts := [];
        BagNothing();
        ExtendNothing(parts, part);
    }

    /** A section of constants or variables, as the symbols that it declares. */
    method WriteGlobals(part: nat, n: Node) returns (ghost t: Tree)
      requires Valid() && part < 4 && n.InnerNode? && IsSection(n.kind) && TypOk(w.g, n.typ)
      requires forall i | 0 <= i < |n.sons| :: GlobalOk(w.g, n.sons[i])
      modifies this`parts, this`tds, this`sds, w
      ensures Valid() && Adds(part, [t]) && ItemReads(w.g, w.env, Declaration(n), t)
    {
      hide GraphOk, NamesDistinct, EnvOk, Sections, InOrder, SymsListed, TdBag, SdBag, AreTrees, NoMarks, GlobalOk, NodeReads, Extend, FlatAll, HeadReads, DeclsRead;
      Put(part, ParLe(KindTag(n.kind)));
      ghost var open := parts;
      ghost var head := WriteHead(part, n.flags, n.typ);
      HeadCount(w.g, n.flags, n.typ, head);
      ghost var ts := WriteSonGlobals(part, n, |n.sons|);
      BagAppend(head, ts);
      ExtendTwice(open, part, head, ts);
      assert (head + ts)[..2] == head && (head + ts)[2..] == ts;
      Put(part, ParRi);
      t := Branch(KindTag(n.kind), head + ts);
      BagBranch(KindTag(n.kind), head + ts);
      ExtendBranch(old(parts), part, KindTag(n.kind), head + ts);
    }

    method WriteSonGlobals(part: nat, n: Node, count: nat) returns (ghost ts: seq<Tree>)
      requires Valid() && part < 4 && n.InnerNode? && count <= |n.sons| && forall i | 0 <= i < |n.sons| :: GlobalOk(w.g, n.sons[i])
      modifies this`parts, this`tds, this`sds, w
      ensures Valid() && Adds(part, ts)
      ensures DeclsRead(w.g, w.env, DeclaredBy(n, count), ts)
      decreases n, 0
    {
      hide GraphOk, NamesDistinct, EnvOk, Sections, InOrder, SymsListed, TdBag, SdBag, AreTrees, NoMarks, GlobalOk, NodeReads, Extend, FlatAll, DeclReads, Declared;
      ts := [];
      BagNothing();
      ExtendNothing(parts, part);
      for i := 0 to count
        invariant Valid() && Adds(part, ts)
        invariant DeclsRead(w.g, w.env, DeclaredBy(n, i), ts)
      {
        ghost var more := WriteGlobal(part, n.sons[i]);
        BagAppend(ts, more);
        ExtendTwice(old(parts), part, ts, more);
        ts := ts + more;
      }
    }

    /** Writes a top-level statement into the section where it belongs. */
    method WriteTopLevel(n: Node) returns (ghost cs: seq<Tree>, ghost bs: seq<Tree>)
      requires Valid() && TopLevelOk(w.g, n)
      modifies this`parts, this`tds, this`sds, w
      ensures Valid() && AddsBoth(cs, bs)
      ensures ItemsRead(w.g, w.env, Items(n, CONTENT), cs) && ItemsRead(w.g, w.env, Items(n, BOTTOM), bs)
      decreases n, 1
    {
      hide Adds, AddsBoth, NodeOk, GlobalOk, Extend, FlatAll, ItemsRead, Items, Sections, InOrder, SymsListed, GraphOk, NamesDistinct, EnvOk;
      NoItems(w.g, w.env);
      if n.EmptyNode? {
        cs, bs := [], [];
        NotAbove(n);
        NotBelow(n);
        AddsNothing();
      } else if n.InnerNode? && (n.kind == NK_STMT_LIST || n.kind == NK_STMT_LIST_EXPR) {
        ItemsOfList(n, CONTENT);
        ItemsOfList(n, BOTTOM);
        cs, bs := WriteStatements(n);
      } else if GoesBelow(n) {
        cs := [];
        bs := WriteBelow(n);
        NotAbove(n);
        OnlyBelow(bs);
      } else {
        bs := [];
        cs := WriteAbove(n);
        NotBelow(n);
        OnlyAbove(cs);
      }
    }

    /** Writes a declarative statement, or a section of constants. */
    method WriteBelow(n: Node) returns (ghost bs: seq<Tree>)
      requires Valid() && TopLevelOk(w.g, n) && GoesBelow(n)
      modifies this`parts, this`tds, this`sds, w
      ensures Valid() && Adds(BOTTOM, bs) && ItemsRead(w.g, w.env, Items(n, BOTTOM), bs)
    {
      hide GraphOk, NamesDistinct, EnvOk, Sections, InOrder, SymsListed, Adds, NodeOk, GlobalOk, NodeReads, ItemReads, DeclsRead, ItemsRead;
      if n.kind == NK_CONST_SECTION {
        bs := WriteDeclaration(BOTTOM, n);
      } else {
        bs := WriteStatement(BOTTOM, n);
      }
    }

    /** Writes a section of variables, or any other statement. */
    method WriteAbove(n: Node) returns (ghost cs: seq<Tree>)
      requires Valid() && TopLevelOk(w.g, n) && GoesAbove(n)
      modifies this`parts, this`tds, this`sds, w
      ensures Valid() && Adds(CONTENT, cs) && ItemsRead(w.g, w.env, Items(n, CONTENT), cs)
    {
      hide GraphOk, NamesDistinct, EnvOk, Sections, InOrder, SymsListed, Adds, NodeOk, GlobalOk, NodeReads, ItemReads, DeclsRead, ItemsRead;
      if n.InnerNode? && (n.kind == NK_LET_SECTION || n.kind == NK_VAR_SECTION) {
        cs := WriteDeclaration(CONTENT, n);
      } else {
        cs := WriteStatement(CONTENT, n);
      }
    }

    twostate lemma OnlyAbove(cs: seq<Tree>)
      requires Adds(CONTENT, cs) && |old(parts)| == 4
      ensures AddsBoth(cs, [])
    {
      hide TdBag, SdBag, AreTrees, NoMarks, Extend, FlatAll;
      assert cs + [] == cs;
      ExtendNothing(parts, BOTTOM);
    }

    twostate lemma OnlyBelow(bs: seq<Tree>)
      requires Adds(BOTTOM, bs) && |old(parts)| == 4
      ensures AddsBoth([], bs)
    {
      hide TdBag, SdBag, AreTrees, NoMarks, Extend, FlatAll;
      assert [] + bs == bs;
      ExtendNothing(old(parts), CONTENT);
    }

    twostate lemma AddsNothing()
      requires parts == old(parts) && tds == old(tds) && sds == old(sds) && w.written == old(w.written) && |parts| == 4
      ensures AddsBoth([], [])
    {
      BagNothing();
      var none: seq<Tree> := [];
      assert none + none == none;
      ExtendNothing(parts, CONTENT);
      ExtendNothing(parts, BOTTOM);
    }

    method WriteStatement(part: nat, n: Node) returns (ghost ts: seq<Tree>)
      requires Valid() && part < 4 && NodeOk(w.g, n, false)
      modifies this`parts, this`tds, this`sds, w
      ensures Valid() && Adds(part, ts) && ItemsRead(w.g, w.env, [Statement(n)], ts)
    {
      hide GraphOk, NamesDistinct, EnvOk, Sections, InOrder, SymsListed, TdBag, SdBag, AreTrees, NoMarks, NodeOk, NodeReads, Extend, FlatAll;
      ghost var t := WriteNode(part, n);
      ts := [t];
    }

    method WriteDeclaration(part: nat, n: Node) returns (ghost ts: seq<Tree>)
      requires Valid() && part < 4 && n.InnerNode? && IsSection(n.kind) && TypOk(w.g, n.typ)
      requires forall i | 0 <= i < |n.sons| :: GlobalOk(w.g, n.sons[i])
      modifies this`parts, this`tds, this`sds, w
      ensures Valid() && Adds(part, ts) && ItemsRead(w.g, w.env, [Declaration(n)], ts)
    {
      hide GraphOk, NamesDistinct, EnvOk, Sections, InOrder, SymsListed, TdBag, SdBag, AreTrees, NoMarks, GlobalOk, Extend, FlatAll, ItemReads;
      ghost var t := WriteGlobals(part, n);
      ts := [t];
    }

    method WriteStatements(n: Node) returns (ghost cs: seq<Tree>, ghost bs: seq<Tree>)
      requires Valid() && n.InnerNode? && forall i | 0 <= i < |n.sons| :: TopLevelOk(w.g, n.sons[i])
      modifies this`parts, this`tds, this`sds, w
      ensures Valid() && AddsBoth(cs, bs)
      ensures ItemsRead(w.g, w.env, ItemsOf(n, |n.sons|, CONTENT), cs) && ItemsRead(w.g, w.env, ItemsOf(n, |n.sons|, BOTTOM), bs)
      decreases n, 0
    {
      hide GraphOk, NamesDistinct, EnvOk, Sections, InOrder, SymsListed, TdBag, SdBag, AreTrees, NoMarks, NodeOk, GlobalOk, NodeReads, Extend, FlatAll, ItemsRead, TopLevelOk, Items;
      cs, bs := [], [];
      BagNothing();
      assert cs + bs == [];
      ExtendNothing(parts, CONTENT);
      ExtendNothing(parts, BOTTOM);
      NoItems(w.g, w.env);
      for i := 0 to |n.sons|
        invariant Valid() && AddsBoth(cs, bs)
        invariant ItemsRead(w.g, w.env, ItemsOf(n, i, CONTENT), cs) && ItemsRead(w.g, w.env, ItemsOf(n, i, BOTTOM), bs)
      {
        ghost var moreCs, moreBs := WriteTopLevel(n.sons[i]);
        BagBoth(cs, bs, moreCs, moreBs);
        ExtendBoth(old(parts), cs, bs, moreCs, moreBs);
        MoreItems(w.g, w.env, ItemsOf(n, i, CONTENT), cs, Items(n.sons[i], CONTENT), moreCs);
        MoreItems(w.g, w.env, ItemsOf(n, i, BOTTOM), bs, Items(n.sons[i], BOTTOM), moreBs);
        cs, bs := cs + moreCs, bs + moreBs;
      }
    }

    method WriteReplay(actions: seq<Node>) returns (ghost rs: seq<Tree>)
      requires Valid() && forall i | 0 <= i < |actions| :: NodeOk(w.g, actions[i], false)
      modifies this`parts, this`tds, this`sds, w
      ensures Valid() && Adds(REPLAY, Replayed(actions, rs)) && NodesRead(w.g, w.env, actions, rs)
    {
      hide GraphOk, NamesDistinct, EnvOk, Sections, InOrder, SymsListed, TdBag, SdBag, AreTrees, NoMarks, NodeOk, NodeReads, Extend, FlatAll;
      rs := [];
      BagNothing();
      if |actions| > 0 {
        Put(REPLAY, ParLe(Replay));
        rs := WriteActions(actions);
        Put(REPLAY, ParRi);
        BagBranch(Replay, rs);
        ExtendBranch(old(parts), REPLAY, Replay, rs);
      } else {
        ExtendNothing(parts, REPLAY);
      }
    }

    method WriteActions(actions: seq<Node>) returns (ghost rs: seq<Tree>)
      requires Valid() && forall i | 0 <= i < |actions| :: NodeOk(w.g, actions[i], false)
      modifies this`parts, this`tds, this`sds, w
      ensures Valid() && Adds(REPLAY, rs) && NodesRead(w.g, w.env, actions, rs)
    {
      hide GraphOk, NamesDistinct, EnvOk, Sections, InOrder, SymsListed, TdBag, SdBag, AreTrees, NoMarks, NodeOk, NodeReads, Extend, FlatAll;
      rs := [];
      BagNothing();
      ExtendNothing(parts, REPLAY);
      for i := 0 to |actions|
        invariant Valid() && Adds(REPLAY, rs) && NodesRead(w.g, w.env, actions[..i], rs)
      {
        ghost var t := WriteNode(REPLAY, actions[i]);
        BagAppend(rs, [t]);
        ExtendTwice(old(parts), REPLAY, rs, [t]);
        rs := rs + [t];
      }
      assert actions[..|actions|] == actions;
    }

    /** A type that an offered instance needs is written even if nothing else reaches it. */
    method WriteOffered(y: TypeId) returns (ghost ts: seq<Tree>)
      requires Valid() && y in w.g.types
      modifies this`parts, this`tds, this`sds, w
      ensures Valid() && Adds(BOTTOM, ts)
      ensures w.g.types[y].cls == OrdinaryType(true) ==> TypeKey(y) in w.written
    {
      hide GraphOk, NamesDistinct, EnvOk, Sections, InOrder, SymsListed, TdBag, SdBag, AreTrees, NoMarks, Delta, Wrote, Left, FieldsLeft, LoadTypeRef, Extend, FlatAll;
      ts := [];
      BagNothing();
      ExtendNothing(parts, BOTTOM);
      if w.g.types[y].cls == OrdinaryType(true) && TypeKey(y) !in w.written {
        Later();
        w.dest := parts[BOTTOM];
        ghost var s0 := w.Now();
        ghost var t := w.WriteType(Some(y));
        ts := [t];
        Note(BOTTOM, s0, ts);
        parts := parts[BOTTOM := w.dest];
      }
    }

    /** The symbol of a registration is written even if nothing else reaches it. */
    method WriteRegistered(s: SymId) returns (ghost ts: seq<Tree>)
      requires Valid() && s in w.g.syms && w.g.syms[s].cls.Ordinary?
      modifies this`parts, this`tds, this`sds, w
      ensures Valid() && Adds(BOTTOM, ts) && SymKey(s) in w.written
    {
      hide GraphOk, NamesDistinct, EnvOk, Sections, InOrder, SymsListed, TdBag, SdBag, AreTrees, NoMarks, Delta, Wrote, Left, FieldsLeft, WroteDef, LoadSymRef, SymReads, SymInfoOk, SymForm, Extend, FlatAll;
      ts := [];
      BagNothing();
      ExtendNothing(parts, BOTTOM);
      if SymKey(s) !in w.written {
        SymParts(w.g, s);
        Later();
        w.dest := parts[BOTTOM];
        ghost var s0 := w.Now();
        w.written := w.written + {SymKey(s)};
        ghost var s1 := w.Now();
        WroteNothing(w.g, w.env, s1);
        ghost var t := w.WriteSymDef(s);
        DefinedSym(w.g, w.env, s, s0, s1, s1, [], w.Now(), t);
        assert [] + [t] == [t];
        ts := [t];
        Note(BOTTOM, s0, ts);
        parts := parts[BOTTOM := w.dest];
      }
    }

    method Registrations(ops: seq<Op>) returns (toks: seq<Tok>)
      requires OpsOk(w.g, ops)
      ensures toks == FlatAll(OpsTrees(w.g, ops))
    {
      hide FlatAll, OpTrees;
      NoTokens();
      toks := [];
      for i := 0 to |ops|
        invariant toks == FlatAll(OpsTrees(w.g, ops[..i]))
      {
        var op := ops[i];
        MoreOps(w.g, ops, i);
        if !op.kind.GenericInstEntry? {
          toks := toks + ([ParLe(Registration(op.kind)), Str(op.key)] + ([Sym(w.g.syms[op.sym].name)] + [ParRi]));
        }
      }
      assert ops[..|ops|] == ops;
    }

    method WriteAllOffered(offered: seq<TypeId>) returns (ghost ts: seq<Tree>)
      requires Valid() && forall i | 0 <= i < |offered| :: offered[i] in w.g.types
      modifies this`parts, this`tds, this`sds, w
      ensures Valid() && Adds(BOTTOM, ts)
      ensures forall i | 0 <= i < |offered| :: w.g.types[offered[i]].cls == OrdinaryType(true) ==> TypeKey(offered[i]) in w.written
    {
      hide GraphOk, NamesDistinct, EnvOk, Sections, InOrder, SymsListed, TdBag, SdBag, AreTrees, NoMarks, Extend, FlatAll;
      ts := [];
      BagNothing();
      ExtendNothing(parts, BOTTOM);
      for i := 0 to |offered|
        invariant Valid() && Adds(BOTTOM, ts)
        invariant forall k | 0 <= k < i :: w.g.types[offered[k]].cls == OrdinaryType(true) ==> TypeKey(offered[k]) in w.written
      {
        ghost var more := WriteOffered(offered[i]);
        BagAppend(ts, more);
        ExtendTwice(old(parts), BOTTOM, ts, more);
        ts := ts + more;
      }
    }

    method WriteAllRegistered(ops: seq<Op>) returns (ghost ts: seq<Tree>)
      requires Valid() && OpsOk(w.g, ops)
      modifies this`parts, this`tds, this`sds, w
      ensures Valid() && Adds(BOTTOM, ts)
      ensures forall i | 0 <= i < |ops| :: SymKey(ops[i].sym) in w.written
    {
      hide GraphOk, NamesDistinct, EnvOk, Sections, InOrder, SymsListed, TdBag, SdBag, AreTrees, NoMarks, Extend, FlatAll;
      ts := [];
      BagNothing();
      ExtendNothing(parts, BOTTOM);
      for i := 0 to |ops|
        invariant Valid() && Adds(BOTTOM, ts)
        invariant forall k | 0 <= k < i :: SymKey(ops[k].sym) in w.written
      {
        ghost var more := WriteRegistered(ops[i].sym);
        BagAppend(ts, more);
        ExtendTwice(old(parts), BOTTOM, ts, more);
        ts := ts + more;
      }
    }

    /** Writes the module: the replayed actions, the registrations, the module's statements,
        the offered types, and what was registered but not reached. What comes out is one
        balanced tree; it defines every entity that it marks as written once, the types in an
        order in which none refers to a later one, refers to no entity of the module that it
        does not define, and reads back statement by statement. */
    method WriteModule(actions: seq<Node>, ops: seq<Op>, top: Node, offered: seq<TypeId>)
      returns (file: seq<Tok>, ghost rs: seq<Tree>, ghost cs: seq<Tree>, ghost bs: seq<Tree>, ghost extra: seq<Tree>)
      requires Valid() && parts == [[], [], [], []] && tds == sds == [] && w.written == initial && OpsOk(w.g, ops) && TopLevelOk(w.g, top)
      requires forall i | 0 <= i < |actions| :: NodeOk(w.g, actions[i], false)
      requires forall i | 0 <= i < |offered| :: offered[i] in w.g.types
      modifies this`parts, this`tds, this`sds, w
      ensures Sound(w.g, w.env) && Delta(w.g, w.env, old(w.written), w.written, file)
      ensures ReadTree(file) == Some((FileTree(w.g, actions, ops, rs, cs, bs, extra), []))
      ensures file == Flat(FileTree(w.g, actions, ops, rs, cs, bs, extra))
      ensures WellWritten(w.g, old(w.written), w.written, FileTree(w.g, actions, ops, rs, cs, bs, extra)) && NoMarks(cs + bs + extra)
      ensures NodesRead(w.g, w.env, actions, rs)
      ensures ItemsRead(w.g, w.env, Items(top, CONTENT), cs) && ItemsRead(w.g, w.env, Items(top, BOTTOM), bs)
      ensures forall i | 0 <= i < |ops| :: SymKey(ops[i].sym) in w.written
      ensures forall i | 0 <= i < |offered| :: w.g.types[offered[i]].cls == OrdinaryType(true) ==> TypeKey(offered[i]) in w.written
    {
      hide GraphOk, NamesDistinct, EnvOk, Sections, InOrder, SymsListed, TdBag, SdBag, AreTrees, NoMarks, Delta, NodeOk, TopLevelOk, Extend, FlatAll,
        OpsTrees, Join, ItemsRead, NodesRead, FileTree, Replayed;
      var registrations;
      registrations, rs, cs, bs, extra := WriteSections(actions, ops, top, offered);
      OpsDelta(w.g, w.env, w.written, ops);
      SectionGrows(w.g, w.env, initial, w.written, w.written, parts, OPS, registrations);
      ghost var all := [parts[REPLAY], registrations, parts[CONTENT], parts[BOTTOM]];
      assert [] + registrations == registrations;
      assert parts[OPS := parts[OPS] + registrations] == all;
      SectionsJoin(w.g, w.env, initial, w.written, all);
      JoinFour(parts[REPLAY], registrations, parts[CONTENT], parts[BOTTOM]);
      file := parts[REPLAY] + registrations + parts[CONTENT] + parts[BOTTOM];
      FileReads(w.g, actions, ops, rs, cs, bs, extra);
    }

    /** Fills the header and the lazily loaded part, into which the offered types and the
        registered symbols go last. */
    method WriteBodies(ops: seq<Op>, top: Node, offered: seq<TypeId>)
      returns (ghost cs: seq<Tree>, ghost bs: seq<Tree>, ghost offers: seq<Tree>, ghost forced: seq<Tree>)
      requires Valid() && OpsOk(w.g, ops) && TopLevelOk(w.g, top) && forall i | 0 <= i < |offered| :: offered[i] in w.g.types
      modifies this`parts, this`tds, this`sds, w
      ensures Valid() && old(w.written) <= w.written && AreTrees(cs) && AreTrees(bs) && AreTrees(offers + forced)
      ensures NoMarks(cs + bs) && NoMarks(offers + forced)
      ensures var p := Extend(Extend(Extend(old(parts), CONTENT, FlatAll(cs)), BOTTOM, FlatAll(bs)), BOTTOM, FlatAll(offers));
        parts == Extend(Extend(Extend(p, CONTENT, [ParLe(Implementation)]), CONTENT, [ParRi]), BOTTOM, FlatAll(forced))
      ensures multiset(tds) == multiset(old(tds)) + TdBag(cs + bs) + TdBag(offers) + TdBag(forced)
      ensures multiset(sds) == multiset(old(sds)) + SdBag(cs + bs) + SdBag(offers) + SdBag(forced)
      ensures ItemsRead(w.g, w.env, Items(top, CONTENT), cs) && ItemsRead(w.g, w.env, Items(top, BOTTOM), bs)
      ensures forall i | 0 <= i < |ops| :: SymKey(ops[i].sym) in w.written
      ensures forall i | 0 <= i < |offered| :: w.g.types[offered[i]].cls == OrdinaryType(true) ==> TypeKey(offered[i]) in w.written
    {
      hide GraphOk, NamesDistinct, EnvOk, Sections, InOrder, SymsListed, TdBag, SdBag, AreTrees, NoMarks, Delta, NodeOk, TopLevelOk, Extend, FlatAll, ItemsRead;
      cs, bs := WriteTopLevel(top);
      BagAppend(cs, bs);
      offers := WriteAllOffered(offered);
      Put(CONTENT, ParLe(Implementation));
      Put(CONTENT, ParRi);
      forced := WriteAllRegistered(ops);
      BagAppend(offers, forced);
    }

    /** Fills the sections: the replayed actions, then header and lazily loaded part, into
        which the offered types and the registered symbols go last. */
    method WriteSections(actions: seq<Node>, ops: seq<Op>, top: Node, offered: seq<TypeId>)
      returns (registrations: seq<Tok>, ghost rs: seq<Tree>, ghost cs: seq<Tree>, ghost bs: seq<Tree>, ghost extra: seq<Tree>)
      requires Valid() && parts == [[], [], [], []] && tds == sds == [] && OpsOk(w.g, ops) && TopLevelOk(w.g, top)
      requires forall i | 0 <= i < |actions| :: NodeOk(w.g, actions[i], false)
      requires forall i | 0 <= i < |offered| :: offered[i] in w.g.types
      modifies this`parts, this`tds, this`sds, w
      ensures Valid() && registrations == FlatAll(OpsTrees(w.g, ops)) && |parts| == 4 && parts[OPS] == []
      ensures parts[REPLAY] == [ParLe(KindTag(NK_STMT_LIST)), Dot, Dot] + FlatAll(Replayed(actions, rs))
      ensures parts[CONTENT] == FlatAll(cs) + [ParLe(Implementation), ParRi]
      ensures parts[BOTTOM] == FlatAll(bs) + FlatAll(extra) + [ParRi]
      ensures AreTrees(Replayed(actions, rs)) && AreTrees(cs) && AreTrees(bs) && AreTrees(extra) && NoMarks(cs + bs + extra)
      ensures multiset(tds) == multiset{} + TdBag(Replayed(actions, rs)) + TdBag(cs) + TdBag(bs) + TdBag(extra)
      ensures multiset(sds) == multiset{} + SdBag(Replayed(actions, rs)) + SdBag(cs) + SdBag(bs) + SdBag(extra)
      ensures NodesRead(w.g, w.env, actions, rs)
      ensures ItemsRead(w.g, w.env, Items(top, CONTENT), cs) && ItemsRead(w.g, w.env, Items(top, BOTTOM), bs)
      ensures forall i | 0 <= i < |ops| :: SymKey(ops[i].sym) in w.written
      ensures forall i | 0 <= i < |offered| :: w.g.types[offered[i]].cls == OrdinaryType(true) ==> TypeKey(offered[i]) in w.written
    {
      hide GraphOk, NamesDistinct, EnvOk, Sections, InOrder, SymsListed, TdBag, SdBag, AreTrees, NoMarks, Delta, NodeOk, TopLevelOk, Extend, FlatAll,
        OpsTrees, ItemsRead, NodesRead, Replayed;
      Put(REPLAY, ParLe(KindTag(NK_STMT_LIST)));
      Put(REPLAY, Dot);
      Put(REPLAY, Dot);
      rs := WriteReplay(actions);
      registrations := Registrations(ops);
      ghost var offers, forced;
      cs, bs, offers, forced := WriteBodies(ops, top, offered);
      extra := offers + forced;
      Put(BOTTOM, ParRi);
      FileParts(old(parts), ParLe(KindTag(NK_STMT_LIST)), FlatAll(Replayed(actions, rs)), FlatAll(cs), FlatAll(bs), FlatAll(offers), FlatAll(forced));
      FlatAllAppend(offers, forced);
      BagAppend(cs, bs);
      BagAppend(offers, forced);
      BagAppend(cs + bs, extra);
      SumUp(TdBag(Replayed(actions, rs)), TdBag(cs), TdBag(bs), TdBag(offers), TdBag(forced));
      SumUp(SdBag(Replayed(actions, rs)), SdBag(cs), SdBag(bs), SdBag(offers), SdBag(forced));
    }
  }

  // ---------- where statements go, kind by kind ----------

  /** Routines, type sections, comments, mixins, binds and usings go below, as they stand;
      constants go below and variables above, as what they declare; all other statements go
      above, as they stand. */
  lemma StatementsGo(kind: NodeKind, flags: NodeFlags, typ: Option<TypeId>, sons: seq<Node>)
    requires kind != NK_STMT_LIST && kind != NK_STMT_LIST_EXPR
    ensures var n := InnerNode(kind, flags, typ, sons);
      && (kind.NkRoutineDef? || kind in {NK_TYPE_SECTION, NK_COMMENT_STMT, NK_MIXIN_STMT, NK_BIND_STMT, NK_USING_STMT} ==>
            Items(n, BOTTOM) == [Statement(n)] && Items(n, CONTENT) == [])
      && (kind == NK_CONST_SECTION ==> Items(n, BOTTOM) == [Declaration(n)] && Items(n, CONTENT) == [])
      && (kind in {NK_LET_SECTION, NK_VAR_SECTION} ==> Items(n, CONTENT) == [Declaration(n)] && Items(n, BOTTOM) == [])
      && (!kind.NkRoutineDef? && kind !in {NK_TYPE_SECTION, NK_COMMENT_STMT, NK_MIXIN_STMT, NK_BIND_STMT, NK_USING_STMT,
                                           NK_CONST_SECTION, NK_LET_SECTION, NK_VAR_SECTION} ==>
            Items(n, CONTENT) == [Statement(n)] && Items(n, BOTTOM) == [])
  {
  }

  /** What a declaration declares are its names, without its type and its value. */
  lemma NamesDeclared(flags: NodeFlags, typ: Option<TypeId>, a: SymId, b: SymId, t: Node, value: Node)
    ensures var x, y := SymNode(flags, false, typ, a), SymNode(flags, false, typ, b);
      Declared(InnerNode(NK_IDENT_DEFS, flags, typ, [x, y, t, value])) == [Symbol(a), Symbol(b)]
  {
    var x, y := SymNode(flags, false, typ, a), SymNode(flags, false, typ, b);
    var n := InnerNode(NK_IDENT_DEFS, flags, typ, [x, y, t, value]);
    assert DeclaredBy(n, 0) == [] && DeclaredBy(n, 1) == [] + Declared(x) && DeclaredBy(n, 2) == DeclaredBy(n, 1) + Declared(y);
  }

  lemma ConstantDeclared(flags: NodeFlags, typ: Option<TypeId>, a: SymId, t: Node, value: Node)
    ensures Declared(InnerNode(NK_CONST_DEF, flags, typ, [SymNode(flags, false, typ, a), t, value])) == [Symbol(a)]
  {
    var x := SymNode(flags, false, typ, a);
    var n := InnerNode(NK_CONST_DEF, flags, typ, [x, t, value]);
    assert DeclaredBy(n, 0) == [] && DeclaredBy(n, 1) == [] + Declared(x);
  }

  /** An export mark and a pragma leave the declared name what it is, and a tuple is declared as
      it stands. */
  lemma MarkedDeclared(flags: NodeFlags, typ: Option<TypeId>, name: Node, other: Node, sons: seq<Node>)
    ensures Declared(InnerNode(NK_POSTFIX, flags, typ, [other, name])) == Declared(name)
    ensures Declared(InnerNode(NK_PRAGMA_EXPR, flags, typ, [name, other])) == Declared(name)
    ensures var n := InnerNode(NK_VAR_TUPLE, flags, typ, sons); Declared(n) == [Tuple(n)]
  {
  }
}
