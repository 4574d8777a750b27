/** What holds of every file that the writer puts out: its interface can be hashed without a
    thought about circles, its index knows the types of its symbols, and its nodes can be
    read off its tokens. */
module NifWritten {
  import opened NifTokens
  import opened NifNames
  import opened NifGraph
  import opened NifLoader
  import opened NifDefinitions
  import opened NifInventory
  import opened NifRows
  import opened NifWriter
  import opened NifRoundTrip
  import opened NifParser
  import opened NifModule
  import opened NifCookie
  import NifInterface
  import NifCycles
  import opened Options

  // ---------- the type definitions of a written file have no circles ----------

  /** Every entry of the table of types stems from a definition in the list. */
  lemma {:induction false} EntryFromList(tds: NifInterface.Tds, list: seq<Tree>, name: string) returns (k: nat)
    requires (forall d | d in list :: d.Branch? && d.tag.TypeDefTag?) && name in NifInterface.AddTdList(tds, list) && name !in tds
    ensures k < |list| && DefName(list[k]) == Some(name) && NifInterface.AddTdList(tds, list)[name] == Flat(list[k])
    decreases |list|
  {
    hide Flat;
    var next := NifInterface.AddTd(list[0], tds);
    if name in next {
      k := 0;
      EntryStays(next, list[1..], name);
    } else {
      k := EntryFromList(next, list[1..], name);
      k := k + 1;
    }
  }

  lemma {:induction false} EntryStays(tds: NifInterface.Tds, list: seq<Tree>, name: string)
    requires (forall d | d in list :: d.Branch?) && name in tds
    ensures name in NifInterface.AddTdList(tds, list) && NifInterface.AddTdList(tds, list)[name] == tds[name]
    decreases |list|
  {
    hide Flat;
    if list != [] {
      EntryStays(NifInterface.AddTd(list[0], tds), list[1..], name);
    }
  }

  lemma {:induction false} TdsAreTds(t: Tree)
    ensures forall d | d in TdList(t) :: d.Branch? && d.tag.TypeDefTag?
    decreases t, 0
  {
    match t
    case Atom(_) =>
    case Branch(_, kids) => AllTdsAreTds(kids);
  }

  lemma {:induction false} AllTdsAreTds(ts: seq<Tree>)
    ensures forall d | d in TdLists(ts) :: d.Branch? && d.tag.TypeDefTag?
    decreases ts, 1
  {
    if ts != [] {
      TdsAreTds(ts[0]);
      AllTdsAreTds(ts[1..]);
    }
  }

  /** The names of the types of a list. */
  ghost function TypeNames(g: Graph, order: seq<TypeId>): (names: seq<string>)
    requires forall i | 0 <= i < |order| :: Tracked(g, TypeKey(order[i]))
    ensures |names| == |order| && forall i | 0 <= i < |order| :: names[i] == KeyName(g, TypeKey(order[i]))
  {
    seq(|order|, i requires 0 <= i < |order| => KeyName(g, TypeKey(order[i])))
  }

  lemma {:induction false} IndexIs(names: seq<string>, i: nat)
    requires i < |names| && forall j, k | 0 <= j < k < |names| :: names[j] != names[k]
    ensures IndexOf(names, names[i]) == i
  {
    if i > 0 {
      IndexIs(names[1..], i - 1);
    }
  }

  lemma TypesTracked(g: Graph, w0: set<Key>, w1: set<Key>, tds: seq<Tree>, order: seq<TypeId>)
    requires NamesDistinct(g) && Ordered(g, w0, w1, tds, order)
    ensures |order| == |tds| && forall i | 0 <= i < |order| :: Tracked(g, TypeKey(order[i])) && TypeKey(order[i]) !in w0
    ensures var names := TypeNames(g, order);
      && (forall j, k | 0 <= j < k < |names| :: names[j] != names[k])
      && forall i | 0 <= i < |tds| :: DefName(tds[i]) == Some(names[i])
  {
    hide DefName, RefersBack;
    forall i | 0 <= i < |order| ensures Tracked(g, TypeKey(order[i])) && TypeKey(order[i]) !in w0 {
      assert DefinesType(g, w0, w1, tds[i], order[i]);
    }
  }

  /** The position of a type among those that the writer marked, which no reference to be
      expanded leaves upwards. */
  ghost function RankAmong(names: seq<string>): string -> nat
  {
    n => if n in names then IndexOf(names, n) else 0
  }

  /** A reference in the definition number `i` that is expanded is to a type that was marked
      before. */
  lemma ReferenceRanks(g: Graph, w0: set<Key>, w1: set<Key>, tds: seq<Tree>, order: seq<TypeId>, self: string, i: nat, t: Tok, j: nat)
    requires NamesDistinct(g) && Ordered(g, w0, w1, tds, order) && i < |tds| && j < |tds|
    requires t in Flat(tds[i]) && IsName(t) && DefName(tds[j]) == Some(t.name)
    requires Expandable(self, Defs(self, Flat(tds[i]), false), t.name)
    ensures j < i
  {
    var toks, z := Flat(tds[i]), order[j];
    assert t.name == KeyName(g, TypeKey(z)) && Tracked(g, TypeKey(z)) && TypeKey(z) !in w0 by {
      assert DefinesType(g, w0, w1, tds[j], z);
    }
    assert RefersBack(g, w0, tds[i], order[..i]);
    hide Flat, Tracked, DefName, DefinesType, TypeLike, KeyName;
    if SymDef(t.name) in toks {
      var k :| 0 <= k < |toks| && toks[k] == SymDef(t.name);
      NifCycles.Defined(self, toks, t.name, |toks|);
    }
    assert t == Sym(t.name);
  }

  /** The types that the writer defines refer to each other without a circle, because it
      marks a type in front of its definition and defines it where it first refers to it. */
  lemma WrittenIsRanked(g: Graph, w0: set<Key>, w1: set<Key>, file: Tree, self: string) returns (rank: string -> nat)
    requires NamesDistinct(g) && WellWritten(g, w0, w1, file)
    ensures Ranked(NifInterface.SurfaceOf(self, [file]), rank)
  {
    var tds :| multiset(tds) == TdBag([file]) && InOrder(g, w0, w1, tds);
    var order :| Ordered(g, w0, w1, tds, order);
    TypesTracked(g, w0, w1, tds, order);
    rank := RankAmong(TypeNames(g, order));
    hide Ordered, Flat, TdLists, Tracked, DefName, Expandable, Defs, NamesDistinct, KeyName, NifInterface.AddAllTds, RankAmong, InOrder;
    var s := NifInterface.SurfaceOf(self, [file]);
    forall name, t | name in s.tds && t in s.tds[name] && IsName(t)
                     && Expandable(s.self, Defs(s.self, s.tds[name], false), t.name) && t.name in s.tds
      ensures rank(t.name) < rank(name)
    {
      PairRanks(g, w0, w1, file, tds, order, self, name, t);
    }
  }

  lemma PairRanks(g: Graph, w0: set<Key>, w1: set<Key>, file: Tree, tds: seq<Tree>, order: seq<TypeId>, self: string, name: string, t: Tok)
    requires NamesDistinct(g) && multiset(tds) == TdBag([file]) && Ordered(g, w0, w1, tds, order)
    requires forall i | 0 <= i < |order| :: Tracked(g, TypeKey(order[i]))
    requires var s := NifInterface.SurfaceOf(self, [file]);
      name in s.tds && t in s.tds[name] && IsName(t) && Expandable(self, Defs(self, s.tds[name], false), t.name) && t.name in s.tds
    ensures RankAmong(TypeNames(g, order))(t.name) < RankAmong(TypeNames(g, order))(name)
  {
    hide Ordered, Flat, TdLists, Tracked, DefName, Expandable, Defs, NamesDistinct, KeyName, NifInterface.AddAllTds, TypeNames;
    TypesTracked(g, w0, w1, tds, order);
    var i := DefinitionAt(self, file, tds, name);
    var j := DefinitionAt(self, file, tds, t.name);
    ReferenceRanks(g, w0, w1, tds, order, self, i, t, j);
    IndexIs(TypeNames(g, order), i);
    IndexIs(TypeNames(g, order), j);
  }

  lemma DefinitionAt(self: string, file: Tree, tds: seq<Tree>, name: string) returns (i: nat)
    requires multiset(tds) == TdBag([file]) && name in NifInterface.SurfaceOf(self, [file]).tds
    ensures i < |tds| && DefName(tds[i]) == Some(name) && NifInterface.SurfaceOf(self, [file]).tds[name] == Flat(tds[i])
  {
    hide Flat, TdLists, DefName;
    NifInterface.AddAllTdsByList([file], map[]);
    AllTdsAreTds([file]);
    var k := EntryFromList(map[], TdLists([file]), name);
    assert TdLists([file])[k] in TdBag([file]);
    assert TdLists([file])[k] in tds;
    i :| 0 <= i < |tds| && tds[i] == TdLists([file])[k];
  }

  // ---------- the symbol definitions of a written file are complete ----------

  lemma {:induction false} ShapedByDefs(t: Tree)
    requires forall d | d in SdList(t) :: d.Branch? && NifInterface.SdShape(d.kids)
    ensures NifInterface.Shaped(t)
    decreases t, 0
  {
    hide NifInterface.SdShape;
    match t
    case Atom(_) =>
    case Branch(tag, kids) =>
      if tag.SymDefTag? {
        assert t in SdList(t);
      } else {
        AllShapedByDefs(kids);
      }
  }

  lemma {:induction false} AllShapedByDefs(ts: seq<Tree>)
    requires forall d | d in SdLists(ts) :: d.Branch? && NifInterface.SdShape(d.kids)
    ensures NifInterface.AllShaped(ts)
    decreases ts, 1
  {
    hide NifInterface.SdShape, NifInterface.Shaped, SdList;
    if ts != [] {
      ShapedByDefs(ts[0]);
      AllShapedByDefs(ts[1..]);
    }
  }

  lemma WrittenIsShaped(g: Graph, w0: set<Key>, w1: set<Key>, file: Tree)
    requires WellWritten(g, w0, w1, file)
    ensures NifInterface.AllShaped([file])
  {
    var sds :| multiset(sds) == SdBag([file]) && SymsListed(g, w0, w1, sds);
    hide SdLists, TdLists, LoadTypeRef, InOrder;
    forall d | d in SdLists([file]) ensures d.Branch? && NifInterface.SdShape(d.kids) {
      assert d in SdBag([file]);
      assert d in sds && SdWhole(g, d);
    }
    AllShapedByDefs([file]);
  }

  // ---------- the interface of a written file ----------

  /** A type of a written file reads as its own definition hashed on its own: the guard
      against circles never fires. */
  lemma WrittenText(g: Graph, w0: set<Key>, w1: set<Key>, file: Tree, self: string, digest: Digest, name: string)
    requires NamesDistinct(g) && WellWritten(g, w0, w1, file) && name in NifInterface.SurfaceOf(self, [file]).tds
    ensures var s := NifInterface.SurfaceOf(self, [file]);
      Expand(s, digest, name, {}) == Structure(digest(NifCookie.Atoms(s, digest, s.tds[name], false, {})))
  {
    hide NamesDistinct, WellWritten, Ranked, Expand, NifCookie.Atoms, NifInterface.AddAllTds;
    var rank := WrittenIsRanked(g, w0, w1, file, self);
    TypeText(NifInterface.SurfaceOf(self, [file]), digest, rank, name);
  }

  /** Alpha-invariance of the interface cookie, for every file that the writer puts out: a
      consistent, injective renaming that touches nothing but names that the hashed regions
      define, and types that they expand, leaves the hash input identical. */
  lemma WrittenIgnoresRenaming(g: Graph, w0: set<Key>, w1: set<Key>, file: Tree, r: Renaming, self: string, names: set<string>, digest: Digest)
    requires NamesDistinct(g) && WellWritten(g, w0, w1, file) && NifInterface.AllShaped([file])
    requires NamesAmong(FlatAll([file]), names) && InjectiveOn(r, names)
    requires forall n | n in names :: ModuleLocal(self, r(n)) == ModuleLocal(self, n) && TypeLike(r(n)) == TypeLike(n)
    requires var s := NifInterface.SurfaceOf(self, [file]);
      NifInterface.HarmlessTrees(r, s, [file]) && forall n | n in s.tds :: Harmless(r, s, s.tds[n], false)
    ensures NifInterface.AllShaped(NifInterface.RenameTrees(r, [file]))
    ensures NifInterface.InterfaceAtoms(self, digest, NifInterface.RenameTrees(r, [file])) == NifInterface.InterfaceAtoms(self, digest, [file])
  {
    hide NamesDistinct, WellWritten, Ranked, Harmless, NifInterface.AddAllTds, NifInterface.AllShaped, NifInterface.HarmlessTrees,
      NifInterface.RenameTrees, NamesAmong, FlatAll, NifInterface.InterfaceAtoms, ModuleLocal, TypeLike;
    var rank := WrittenIsRanked(g, w0, w1, file, self);
    NifInterface.InterfaceIgnoresRenaming(r, self, names, digest, rank, [file]);
  }

  /** Writes a module and computes the hash input of its interface from the file's tokens. */
  method HashWritten(m: ModuleWriter, self: string, digest: Digest, actions: seq<Node>, ops: seq<Op>, top: Node, offered: seq<TypeId>)
    returns (file: seq<Tok>, atoms: seq<HashAtom>, ghost tree: Tree)
    requires m.Valid() && m.parts == [[], [], [], []] && m.tds == m.sds == [] && m.w.written == m.initial
    requires OpsOk(m.w.g, ops) && TopLevelOk(m.w.g, top)
    requires forall i | 0 <= i < |actions| :: NodeOk(m.w.g, actions[i], false)
    requires forall i | 0 <= i < |offered| :: offered[i] in m.w.g.types
    modifies m`parts, m`tds, m`sds, m.w
    ensures ReadTree(file) == Some((tree, [])) && WellWritten(m.w.g, old(m.w.written), m.w.written, tree)
    ensures NifInterface.AllShaped([tree]) && atoms == NifInterface.InterfaceAtoms(self, digest, [tree])
  {
    hide GraphOk, NamesDistinct, EnvOk, Sections, InOrder, SymsListed, Delta, NodeOk, TopLevelOk, FlatAll, FileTree, WellWritten, ReadTree, Flat,
      Ranked, NifInterface.AllShaped, NifInterface.InterfaceAtoms, NifInterface.AddAllTds, ItemsRead, NodesRead, AreTrees;
    ghost var rs, cs, bs, extra;
    file, rs, cs, bs, extra := m.WriteModule(actions, ops, top, offered);
    tree := FileTree(m.w.g, actions, ops, rs, cs, bs, extra);
    WrittenIsShaped(m.w.g, old(m.w.written), m.w.written, tree);
    ghost var rank := WrittenIsRanked(m.w.g, old(m.w.written), m.w.written, tree, self);
    WrittenIsTree(m.w.g, old(m.w.written), m.w.written, tree);
    OneTree(tree);
    atoms := NifInterface.InterfaceInput(self, digest, file, [tree], rank);
  }

  lemma WrittenIsTree(g: Graph, w0: set<Key>, w1: set<Key>, file: Tree)
    requires WellWritten(g, w0, w1, file)
    ensures IsTree(file)
  {
  }

  // ---------- the index of a written file ----------

  /** The types of the symbols that the trees define. */
  function TypeIndex(sds: seq<Tree>): map<string, Option<string>>
  {
    if sds == [] then map[]
    else
      var rest := TypeIndex(sds[..|sds| - 1]);
      var d := sds[|sds| - 1];
      if DefName(d).Some? && |d.kids| > SD_TYPE && LoadTypeRef(d.kids[SD_TYPE]).Some?
      then rest[DefName(d).value := LoadTypeRef(d.kids[SD_TYPE]).value]
      else rest
  }

  lemma {:induction false} IndexHas(g: Graph, sds: seq<Tree>, s: SymId, i: nat)
    requires Tracked(g, SymKey(s)) && TypOk(g, g.syms[s].typ) && (forall d | d in sds :: SdWhole(g, d))
    requires i < |sds| && DefName(sds[i]) == Some(KeyName(g, SymKey(s)))
    ensures var name := KeyName(g, SymKey(s));
      name in TypeIndex(sds) && TypeIndex(sds)[name] == TypeRefOf(g, g.syms[s].typ)
    decreases |sds|
  {
    hide LoadTypeRef, TypeRefOf, KeyName, Tracked;
    var k := |sds| - 1;
    assert sds[k] in sds && SdWhole(g, sds[k]);
    if i < k {
      IndexHas(g, sds[..k], s, i);
    }
  }

  /** The index of a written file has every symbol of the module that the file defines, with
      the symbol's type. */
  lemma IndexKnowsTypes(g: Graph, w0: set<Key>, w1: set<Key>, file: Tree, s: SymId)
    requires GraphOk(g) && WellWritten(g, w0, w1, file) && Tracked(g, SymKey(s)) && SymKey(s) in w1 && SymKey(s) !in w0
    ensures TypOk(g, g.syms[s].typ)
    ensures var index, name := TypeIndex(SdLists([file])), KeyName(g, SymKey(s));
      name in index && index[name] == TypeRefOf(g, g.syms[s].typ)
  {
    SymParts(g, s);
    var sds :| multiset(sds) == SdBag([file]) && SymsListed(g, w0, w1, sds);
    var all := SdLists([file]);
    hide SdLists, TdLists, LoadTypeRef, InOrder, GraphOk, SdWhole, TypeIndex, Tracked, DefName, TypeRefOf, SymInfoOk;
    forall d | d in all ensures SdWhole(g, d) {
      assert d in SdBag([file]);
      assert d in sds;
    }
    var d :| d in sds && DefName(d) == Some(KeyName(g, SymKey(s)));
    assert d in SdBag([file]);
    assert d in all;
    var i :| 0 <= i < |all| && all[i] == d;
    IndexHas(g, all, s, i);
  }

  /** The environment in which a written file reads back is the one that its own index gives,
      together with the types of what it does not define. */
  lemma WrittenEnv(g: Graph, w0: set<Key>, w1: set<Key>, file: Tree, imported: map<string, Option<string>>)
    requires GraphOk(g) && NamesDistinct(g) && WellWritten(g, w0, w1, file)
    requires forall s | s in g.syms && !g.syms[s].cls.Field? && !(Tracked(g, SymKey(s)) && SymKey(s) in w1 && SymKey(s) !in w0) ::
               g.syms[s].name in imported && imported[g.syms[s].name] == TypeRefOf(g, g.syms[s].typ)
    requires forall s | Tracked(g, SymKey(s)) && SymKey(s) in w1 && SymKey(s) !in w0 :: KeyName(g, SymKey(s)) !in imported
    ensures EnvOk(g, Env(TypeIndex(SdLists([file])) + imported, map[]))
  {
    hide SdLists, TypeIndex, GraphOk, NamesDistinct, WellWritten, TypeRefOf;
    var index := TypeIndex(SdLists([file]));
    forall s | s in g.syms ensures TypOk(g, g.syms[s].typ) { SymParts(g, s); }
    forall s | s in g.syms && !g.syms[s].cls.Field?
      ensures g.syms[s].name in index + imported && (index + imported)[g.syms[s].name] == TypeRefOf(g, g.syms[s].typ)
    {
      if Tracked(g, SymKey(s)) && SymKey(s) in w1 && SymKey(s) !in w0 {
        IndexKnowsTypes(g, w0, w1, file, s);
      }
    }
  }

  // ---------- writing a node and reading it ----------

  /** Writes a node, and reads it off the tokens in front of any others: it comes back as the
      node, and leaves exactly what follows; it cannot be read if and only if an `nkNone` was
      written in it. */
  method WriteThenRead(g: Graph, env: Env, n: Node, forAst: bool, rest: seq<Tok>) returns (r: Option<(LNode, seq<Tok>)>)
    requires Sound(g, env) && NodeOk(g, n, forAst)
    ensures if Loadable(g, n, forAst) then r.Some? && Matches(g, n, forAst, r.value.0) && r.value.1 == rest else r.None?
    ensures WellShaped(n) && r.Some? ==> ComesBack(g, n, forAst, r.value.0)
  {
    hide GraphOk, NamesDistinct, EnvOk, NodeOk, Wrote, Loadable, Matches, WellShaped, ComesBack, ReadNode, Left, FieldsLeft, NodeReads;
    var w := new Writer(g, env, {});
    ghost var s0 := w.Now();
    ghost var t := w.WriteNode(n, forAst);
    WroteTree(g, env, s0, w.Now(), t);
    assert [] + Flat(t) == Flat(t);
    NodeReadsBack(g, env, n, forAst, t, rest);
    r := ReadNode(env, w.dest + rest);
    if WellShaped(n) && r.Some? { OnlyParamsReplaced(g, n, forAst, r.value.0); }
  }

  lemma WroteTree(g: Graph, env: Env, s0: State, s1: State, t: Tree)
    requires GraphOk(g) && Wrote(g, env, s0, s1, [t])
    ensures s1.dest == s0.dest + Flat(t) && IsTree(t)
  {
    hide GraphOk, Delta, Inventory, FieldsFound;
    OneTree(t);
  }
}
