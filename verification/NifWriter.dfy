/** The writer: it serializes a cyclic graph of nodes, symbols and types into one token
    list, defining each entity of the module where it first meets it. */
module NifWriter {
  import opened NifTokens
  import opened NifNames
  import opened NifGraph
  import opened NifLoader
  import opened NifDefinitions
  import opened NifInventory
  import opened NifAssembly
  import opened NifRows
  import opened Options

  // ---------- marking an entity as written ----------

  /** Is this module to define the symbol? A field is defined in each record list. */
  predicate Defines(g: Graph, s: SymId)
    requires s in g.syms
  {
    g.syms[s].cls.Field? || g.syms[s].cls.Backend? || g.syms[s].cls.Package? || g.syms[s].cls == Ordinary(true)
  }

  /** Marking the symbol took the written keys from `w0` to `w` and the fields of the record
      list from `f0` to `f`, because neither contained it. */
  ghost predicate Claimed(g: Graph, s: SymId, w0: set<Key>, w: set<Key>, f0: set<SymId>, f: set<SymId>)
    requires s in g.syms
  {
    if g.syms[s].cls.Field? then w == w0 && s !in f0 && f == f0 + {s}
    else KeyOf(g, s) !in w0 && w == w0 + {KeyOf(g, s)} && f == f0
  }

  lemma ClaimShrinks(g: Graph, s: SymId, s0: State, s1: State)
    requires s in g.syms && Claimed(g, s, s0.written, s1.written, s0.fieldSyms, s1.fieldSyms) && s1.depth == s0.depth
    ensures Shrinks(g, s0, s1)
    ensures Left(g, s1.written) < Left(g, s0.written) ||
      (Left(g, s1.written) == Left(g, s0.written) && FieldsLeft(g, s1.fieldSyms) < FieldsLeft(g, s0.fieldSyms))
  {
    hide Left, FieldsLeft;
    if g.syms[s].cls.Field? {
      FieldsLeftDrops(g, s0.fieldSyms, s);
    } else {
      assert KeyOf(g, s) in AllKeys(g);
      LeftDrops(g, s0.written, KeyOf(g, s));
    }
  }

  /** A field's name is no name of an entity of this module. */
  lemma FieldIsForeign(g: Graph, s: SymId)
    requires NamesDistinct(g) && s in g.syms && !Tracked(g, SymKey(s))
    ensures Foreign(g, g.syms[s].name)
  {
  }

  lemma SymParts(g: Graph, s: SymId)
    requires GraphOk(g) && s in g.syms
    ensures var i := g.syms[s];
      && SymInfoOk(g, i)
      && SymOk(g, i.guard) && TypOk(g, i.typ) && SymOk(g, i.owner) && SymOk(g, i.instantiatedFrom)
      && NodeOk(g, i.ast, true) && NodeOk(g, i.constraint, false) && NodeOk(g, i.transformedBody, false)
      && (i.annex.Some? ==> NodeOk(g, i.annex.value.path, false)) && |i.loc| == 4 && PlainAtoms(i.loc) && i.magic != Some("")
  {
    hide NodeOk, IsLocalName, IsFieldNifName;
  }

  lemma TypeParts(g: Graph, y: TypeId)
    requires GraphOk(g) && y in g.types
    ensures var i := g.types[y];
      && TypeInfoOk(g, i)
      && TypOk(g, i.typeInst) && NodeOk(g, i.n, false) && SymOk(g, i.owner) && SymOk(g, i.sym)
      && |i.attrs| == 7 && PlainAtoms(i.attrs) && |i.loc| == 4 && PlainAtoms(i.loc)
      && forall k | 0 <= k < |i.sons| :: i.sons[k] in g.types
  {
    hide NodeOk;
  }

  lemma ClaimedKeys(g: Graph, s: SymId, w0: set<Key>, w: set<Key>, f0: set<SymId>, f: set<SymId>)
    requires s in g.syms && Claimed(g, s, w0, w, f0, f)
    ensures Tracked(g, SymKey(s)) ==> SymKey(s) !in w0 && w == w0 + {SymKey(s)}
    ensures !Tracked(g, SymKey(s)) ==> w0 <= w && forall k | k in w - w0 :: !Tracked(g, k)
  {
  }

  /** The trees `pre` and then the definition of a symbol that was marked in front of them. */
  lemma DefinedSym(g: Graph, env: Env, s: SymId, s0: State, s1: State, s2: State, pre: seq<Tree>, s3: State, t: Tree)
    requires Sound(g, env) && s in g.syms && Claimed(g, s, s0.written, s1.written, s0.fieldSyms, s1.fieldSyms) && s0.dest == s1.dest
    requires Wrote(g, env, s1, s2, pre) && WroteDef(g, env, s2, s3, g.syms[s].name, t)
    requires SymInfoOk(g, g.syms[s]) && t.Branch? && t.tag.SymDefTag? && SymReads(g, env, g.syms[s], t)
    requires TypOk(g, g.syms[s].typ) && SymForm(g, s, t)
    ensures Wrote(g, env, s0, s3, pre + [t])
  {
    hide GraphOk, NamesDistinct, EnvOk, SymInfoOk, SymReads, Row, DefRow, Claimed, FieldsFound;
    DefinedSymFields(g, env, s, s0, s1, s2, pre, s3, t);
    DefinedSymRow(g, env, s, s0, s1, s2, pre, s3, t);
  }

  lemma DefinedSymFields(g: Graph, env: Env, s: SymId, s0: State, s1: State, s2: State, pre: seq<Tree>, s3: State, t: Tree)
    requires GraphOk(g) && s in g.syms && Claimed(g, s, s0.written, s1.written, s0.fieldSyms, s1.fieldSyms)
    requires Wrote(g, env, s1, s2, pre) && WroteDef(g, env, s2, s3, g.syms[s].name, t)
    requires SymInfoOk(g, g.syms[s]) && t.Branch? && t.tag.SymDefTag? && SymReads(g, env, g.syms[s], t)
    ensures FieldsFound(g, env, s0.fieldSyms, s3.fieldSyms, FlatAll(pre + [t]))
  {
    hide GraphOk, SymInfoOk, SymReads, Row, FieldsFound, Delta, IsTree;
    var own := if g.syms[s].cls.Field? then {s} else {};
    assert s1.fieldSyms == s0.fieldSyms + own;
    DefFields(g, env, own, s0.fieldSyms, s2.fieldSyms, s3.fieldSyms, pre, g.syms[s].name, t);
  }

  lemma DefinedSymRow(g: Graph, env: Env, s: SymId, s0: State, s1: State, s2: State, pre: seq<Tree>, s3: State, t: Tree)
    requires Sound(g, env) && s in g.syms && Claimed(g, s, s0.written, s1.written, s0.fieldSyms, s1.fieldSyms) && s0.dest == s1.dest
    requires Wrote(g, env, s1, s2, pre) && WroteDef(g, env, s2, s3, g.syms[s].name, t)
    requires SymInfoOk(g, g.syms[s]) && t.Branch? && t.tag.SymDefTag? && SymReads(g, env, g.syms[s], t)
    requires TypOk(g, g.syms[s].typ) && SymForm(g, s, t)
    ensures Row(g, env, s0.dest, s0.written, s3.dest, s3.written, pre + [t])
  {
    hide GraphOk, NamesDistinct, EnvOk, SymInfoOk, SymReads, Row, DefRow, Claimed, FieldsFound, SymForm, SdWhole;
    FormIsWhole(g, s, t);
    ClaimedKeys(g, s, s0.written, s1.written, s0.fieldSyms, s1.fieldSyms);
    if Tracked(g, SymKey(s)) {
      SymRepresents(g, env, s, s2, s3, t);
      hide Tracked, Represents;
      assert KeyName(g, SymKey(s)) == g.syms[s].name;
      TrackedDef(g, env, s, s0.written, s0.dest, s2.dest, s2.written, pre, s3.dest, s3.written, t);
    } else {
      FieldIsForeign(g, s);
      hide Tracked, Foreign;
      UntrackedDef(g, env, s0.written, s1.written, s0.dest, s2.dest, s2.written, pre, s3.dest, s3.written, g.syms[s].name, t);
    }
  }

  /** The tree of a symbol's definition has all its parts, and the symbol's type. */
  lemma FormIsWhole(g: Graph, s: SymId, t: Tree)
    requires NamesDistinct(g) && s in g.syms && TypOk(g, g.syms[s].typ) && SymForm(g, s, t) && t.Branch?
    ensures SdWhole(g, t)
  {
    hide LoadTypeRef, LoadSymRef, TypeRefOf;
    forall z | Tracked(g, SymKey(z)) && DefName(t) == Some(KeyName(g, SymKey(z))) ensures z == s {
      assert g.syms[s].name == KeyName(g, SymKey(z));
    }
  }

  lemma SymRepresents(g: Graph, env: Env, s: SymId, s2: State, s3: State, t: Tree)
    requires GraphOk(g) && s in g.syms && Tracked(g, SymKey(s)) && WroteDef(g, env, s2, s3, g.syms[s].name, t)
    requires SymInfoOk(g, g.syms[s]) && t.Branch? && t.tag.SymDefTag? && SymReads(g, env, g.syms[s], t)
    ensures Represents(g, env, SymKey(s), t)
  {
    hide GraphOk, SymInfoOk, SymReads, Delta, IsTree;
  }

  /** The definition of a type that was marked in front of it. */
  lemma DefinedType(g: Graph, env: Env, y: TypeId, s0: State, s1: State, s2: State, t: Tree)
    requires Sound(g, env) && y in g.types && Tracked(g, TypeKey(y)) && TypeKey(y) !in s0.written
    requires s1 == s0.(written := s0.written + {TypeKey(y)}) && WroteDef(g, env, s1, s2, g.types[y].name, t)
    requires TypeInfoOk(g, g.types[y]) && t.Branch? && t.tag.TypeDefTag? && TypeReads(g, env, g.types[y], t)
    requires FieldsInside(g, env, g.types[y].n, t)
    ensures Wrote(g, env, s0, s2, [t])
  {
    hide GraphOk, NamesDistinct, EnvOk, TypeInfoOk, TypeReads, Delta, IsTree, Row, FieldsInside, FieldIn;
    assert Represents(g, env, TypeKey(y), t);
    assert [] + [t] == [t];
    TypeRow(g, env, y, s0, s1, s2, t);
    hide FieldsFound;
    assert FieldsFound(g, env, s0.fieldSyms + {}, s0.fieldSyms, FlatAll([])) by { NoFields(g, env, s0.fieldSyms); }
    DefFields(g, env, {}, s0.fieldSyms, s0.fieldSyms, s2.fieldSyms, [], g.types[y].name, t);
  }

  lemma NoFields(g: Graph, env: Env, f: set<SymId>)
    requires GraphOk(g)
    ensures FieldsFound(g, env, f + {}, f, FlatAll([]))
  {
    hide FieldIn, GraphOk;
  }

  lemma TypeRow(g: Graph, env: Env, y: TypeId, s0: State, s1: State, s2: State, t: Tree)
    requires Sound(g, env) && y in g.types && Tracked(g, TypeKey(y)) && TypeKey(y) !in s0.written
    requires s1 == s0.(written := s0.written + {TypeKey(y)}) && WroteDef(g, env, s1, s2, g.types[y].name, t)
    requires Represents(g, env, TypeKey(y), t) && t.Branch? && t.tag.TypeDefTag?
    ensures Row(g, env, s0.dest, s0.written, s2.dest, s2.written, [t])
  {
    hide GraphOk, NamesDistinct, EnvOk, Delta, IsTree, Row, FieldsFound, DefRow, Represents;
    assert KeyName(g, TypeKey(y)) == g.types[y].name;
    TrackedType(g, env, y, s0.written, s0.dest, s2.dest, s2.written, t);
  }

  // ---------- how references and leaves read back ----------

  /** Symbols that are written or not this module's are settled. */
  lemma UnclaimedSettled(g: Graph, s: SymId, w: set<Key>)
    requires NamesDistinct(g) && s in g.syms && (Tracked(g, SymKey(s)) ==> SymKey(s) in w)
    ensures Settled(g, w, g.syms[s].name)
  {
  }

  lemma UnclaimedTypeSettled(g: Graph, y: TypeId, w: set<Key>)
    requires NamesDistinct(g) && y in g.types && (Tracked(g, TypeKey(y)) ==> TypeKey(y) in w)
    ensures Settled(g, w, g.types[y].name)
  {
  }

  /** A symbol's tree behind a type. */
  ghost predicate HiddenForm(g: Graph, typ: Option<TypeId>, symTree: Tree, t: Tree)
    requires TypOk(g, typ)
  {
    t.Branch? && t.tag.HiddenType? && |t.kids| == 2 && t.kids[1] == symTree && LoadTypeRef(t.kids[0]) == Some(TypeRefOf(g, typ))
  }

  /** How a symbol node is written: the symbol alone, or behind the node's type. */
  ghost predicate SymNodeForm(g: Graph, n: Node, symTree: Tree, t: Tree)
    requires n.SymNode? && n.sym in g.syms && TypOk(g, n.typ) && TypOk(g, g.syms[n.sym].typ)
  {
    var info := g.syms[n.sym];
    || (t == symTree && NodeType(g, n) == info.typ && (info.cls.Field? ==> symTree.Branch?))
    || (HiddenForm(g, NodeType(g, n), symTree, t) && (info.cls.Field? && NodeType(g, n).None? ==> symTree.Branch?))
    || (info.cls.Field? && NodeType(g, n).None? && symTree.Atom? && HiddenForm(g, info.typ, symTree, t))
  }

  /** The tree of a symbol, be it a definition or a use. */
  ghost predicate SymForm(g: Graph, s: SymId, t: Tree)
    requires s in g.syms && TypOk(g, g.syms[s].typ)
  {
    && LoadSymRef(t) == Some(Some(g.syms[s].name))
    && (t.Branch? ==>
          && t.tag.SymDefTag? && |t.kids| == SD_COUNT && t.kids[0] == Atom(SymDef(g.syms[s].name))
          && t.kids[SD_KIND].Branch? && t.kids[SD_KIND].tag.SymKindTag?
          && LoadTypeRef(t.kids[SD_TYPE]) == Some(TypeRefOf(g, g.syms[s].typ)))
  }

  lemma UseForm(g: Graph, s: SymId)
    requires s in g.syms && TypOk(g, g.syms[s].typ)
    ensures SymForm(g, s, Atom(Sym(g.syms[s].name)))
  {
  }

  lemma SymNodeParts(g: Graph, n: Node, forAst: bool)
    requires n.SymNode? && NodeOk(g, n, forAst)
    ensures TypOk(g, n.typ) && n.sym in g.syms
  {
  }

  lemma NodeTypeOk(g: Graph, n: Node)
    requires n.SymNode? && n.sym in g.syms && TypOk(g, n.typ) && TypOk(g, g.syms[n.sym].typ)
    ensures TypOk(g, NodeType(g, n))
  {
  }

  lemma HiddenReads(g: Graph, env: Env, s: SymId, typ: Option<TypeId>, symTree: Tree, t: Tree)
    requires s in g.syms && TypOk(g, typ) && LoadSymRef(symTree) == Some(Some(g.syms[s].name)) && HiddenForm(g, typ, symTree, t)
    ensures LoadNode(env, t) == Some(LSym(g.syms[s].name, TypeRefOf(g, typ), symTree.Branch?))
  {
    hide LoadTypeRef, LoadSymRef, LoadNode, TypeRefOf;
    HiddenLoads(env, t.kids[0], symTree, g.syms[s].name, TypeRefOf(g, typ));
    assert t == Branch(HiddenType, [t.kids[0], symTree]);
  }

  lemma BareReads(g: Graph, env: Env, s: SymId, t: Tree)
    requires Sound(g, env) && s in g.syms && TypOk(g, g.syms[s].typ) && SymForm(g, s, t) && (g.syms[s].cls.Field? ==> t.Branch?)
    ensures LoadNode(env, t) == Some(LSym(g.syms[s].name, TypeRefOf(g, g.syms[s].typ), t.Branch?))
  {
    hide GraphOk, NamesDistinct, EnvOk, LoadTypeRef, LoadSymRef, LoadNode, TypeRefOf;
    if g.syms[s].cls.Field? {
      FieldDefLoads(g, env, s, t);
    } else {
      GlobalSymLoads(g, env, s, t);
    }
  }

  lemma SymNodeReads(g: Graph, env: Env, n: Node, forAst: bool, symTree: Tree, t: Tree)
    requires Sound(g, env) && n.SymNode? && NodeOk(g, n, forAst) && TypOk(g, n.typ) && n.sym in g.syms && TypOk(g, g.syms[n.sym].typ)
    requires SymForm(g, n.sym, symTree) && SymNodeForm(g, n, symTree, t)
    ensures NodeReads(g, env, n, forAst, t)
  {
    hide GraphOk, NamesDistinct, EnvOk, LoadTypeRef, LoadSymRef, LoadNode, TypeRefOf, NodeOk, HiddenForm;
    NodeTypeOk(g, n);
    var info := g.syms[n.sym];
    if t == symTree && NodeType(g, n) == info.typ && (info.cls.Field? ==> symTree.Branch?) {
      BareReads(g, env, n.sym, t);
    } else if HiddenForm(g, NodeType(g, n), symTree, t) && (info.cls.Field? && NodeType(g, n).None? ==> symTree.Branch?) {
      HiddenReads(g, env, n.sym, NodeType(g, n), symTree, t);
    } else {
      HiddenReads(g, env, n.sym, info.typ, symTree, t);
    }
  }

  /** A routine that is written as its symbol reads back as a node of the symbol. */
  lemma BySymbolReads(g: Graph, env: Env, n: Node, t: Tree)
    requires Sound(g, env) && BySymbol(n, false) && NodeOk(g, n, false) && n.sons[NAME_POS].sym in g.syms
    requires LoadSymRef(t) == Some(Some(g.syms[n.sons[NAME_POS].sym].name))
    ensures NodeReads(g, env, n, false, t)
  {
    hide GraphOk, NamesDistinct, EnvOk, LoadSymRef, LoadNode;
    GlobalSymLoads(g, env, n.sons[NAME_POS].sym, t);
  }

  lemma TrivialReads(g: Graph, env: Env, n: Node, forAst: bool)
    requires Sound(g, env) && NodeOk(g, n, forAst)
    ensures n.NilNode? ==> NodeReads(g, env, n, forAst, Atom(Dot))
    ensures n.NoneNode? ==> NodeReads(g, env, n, forAst, Branch(KindTag(NkNone), []))
    ensures n.EmptyNode? && n.typ.None? ==> NodeReads(g, env, n, forAst, Branch(KindTag(NkEmpty), []))
  {
    hide GraphOk, NamesDistinct, EnvOk;
  }

  lemma TypeKeyKnown(g: Graph, y: TypeId)
    requires y in g.types
    ensures TypeKey(y) in AllKeys(g)
  {
  }

  // ---------- the parts of definitions ----------

  lemma FrontKids(marker: Tree, kind: Tree, attrs: seq<Tree>, annex: Tree)
    requires |attrs| == 5
    ensures var ts := [marker] + [kind] + attrs + [annex];
      |ts| == 8 && ts[0] == marker && ts[1] == kind && ts[2..7] == attrs && ts[7] == annex
  {
  }

  lemma BackKids(typ: Tree, owner: Tree, ast: Tree, loc: seq<Tree>, constraint: Tree, origin: Tree, body: Tree)
    requires |loc| == 4
    ensures var ts := [typ] + [owner] + [ast] + loc + ([constraint] + [origin] + [body]);
      && |ts| == 10 && ts[0] == typ && ts[1] == owner && ts[2] == ast && ts[3..7] == loc
      && ts[7] == constraint && ts[8] == origin && ts[9] == body
  {
  }

  lemma TypeFrontKids(dot: Tree, attrs: seq<Tree>, inst: Tree, n: Tree, owner: Tree, sym: Tree, loc: seq<Tree>)
    requires |attrs| == 7 && |loc| == 4
    ensures var ts := [dot] + attrs + [inst] + [n] + [owner] + [sym] + loc;
      && |ts| == 16 && ts[0] == dot && ts[1..8] == attrs && ts[8] == inst && ts[9] == n && ts[10] == owner && ts[11] == sym
      && ts[12..16] == loc
  {
  }

  lemma SymDefForm(g: Graph, env: Env, s: SymId, front: seq<Tree>, back: seq<Tree>)
    requires GraphOk(g) && s in g.syms && SymInfoOk(g, g.syms[s]) && TypOk(g, g.syms[s].typ)
    requires FrontReads(g, env, g.syms[s], front) && BackReads(g, env, g.syms[s], back)
    ensures var t := Branch(SymDefTag, [Atom(SymDef(g.syms[s].name))] + (front + back));
      SymReads(g, env, g.syms[s], t) && SymForm(g, s, t)
  {
    hide GraphOk, SymInfoOk, AnnexReads, LoadMarker, LoadGuard, LoadAttrs, SymReads, LoadTypeRef, NodeReads, LoadAtoms, SymRefOf,
      TypeRefOf, Importable, HasGuard, ResetsPosition;
    var head := Atom(SymDef(g.syms[s].name));
    SymAssembled(g, env, g.syms[s], front, back);
    GuardIsKind(front[1]);
    SymKids(g.syms[s], front, back);
    assert [head] + (front + back) == [head] + front + back;
  }

  lemma GuardIsKind(t: Tree)
    requires LoadGuard(t).Some?
    ensures t.Branch? && t.tag.SymKindTag?
  {
    hide LoadSymRef, LoadInt;
  }

  lemma TypeFrontCount(g: Graph, env: Env, t: TypeInfo, ts: seq<Tree>)
    requires GraphOk(g) && TypeInfoOk(g, t) && TypeFrontReads(g, env, t, ts)
    ensures |ts| == 16
  {
    hide GraphOk, TypeInfoOk;
  }

  lemma StillCovered(g: Graph, n: Node, forAst: bool, skipParams: bool, count: nat, s0: State, s1: State)
    requires n.InnerNode? && count <= |n.sons| && s0.fieldSyms <= s1.fieldSyms && s0.depth == s1.depth
    requires forall k | 0 <= k < count && !(skipParams && k == PARAMS_POS) :: Covered(g, n.sons[k], forAst, s0)
    ensures forall k | 0 <= k < count && !(skipParams && k == PARAMS_POS) :: Covered(g, n.sons[k], forAst, s1)
  {
    hide HasField;
  }

  lemma BySymbolCovered(g: Graph, n: Node, s1: State)
    requires BySymbol(n, false)
    ensures Covered(g, n, false, s1)
  {
  }

  /** No leaf has fields, and a symbol node the field that it is. */
  lemma LeafCovered(g: Graph, n: Node, forAst: bool, s1: State)
    requires !n.InnerNode?
    requires n.SymNode? && n.sym in g.syms && g.syms[n.sym].cls.Field? && s1.depth > 0 ==> n.sym in s1.fieldSyms
    ensures Covered(g, n, forAst, s1)
  {
  }

  class Writer {
    const g: Graph
    ghost const env: Env
    var dest: seq<Tok>
    var written: set<Key>
    var fieldSyms: set<SymId>
    var inTypeReclist: nat

    constructor (g: Graph, ghost env: Env, written: set<Key>)
      ensures this.g == g && this.env == env && Now() == State([], written, {}, 0)
    {
      this.g, this.env := g, env;
      this.dest, this.written, this.fieldSyms, this.inTypeReclist := [], written, {}, 0;
    }

    ghost function Now(): State
      reads this
    {
      State(dest, written, fieldSyms, inTypeReclist)
    }

    // ---------- single tokens and brackets ----------

    method Put(tok: Tok) returns (ghost t: Tree)
      requires Sound(g, env) && !tok.ParLe? && !tok.ParRi? && !tok.Sym? && !tok.SymDef?
      modifies this`dest
      ensures t == Atom(tok)
      ensures dest == old(dest) + [tok] && Wrote(g, env, old(Now()), Now(), [t])
    {
      hide GraphOk, NamesDistinct, EnvOk, Row;
      RowAtom(g, env, dest, written, tok);
      dest := dest + [tok];
      t := Atom(tok);
    }

    method PutUse(name: string) returns (ghost t: Tree)
      requires Sound(g, env) && Settled(g, written, name)
      modifies this`dest
      ensures t == Atom(Sym(name)) && dest == old(dest) + [Sym(name)] && Wrote(g, env, old(Now()), Now(), [t])
    {
      assert forall k | Tracked(g, k) :: KeyName(g, k) == name ==> k in written;
      hide GraphOk, NamesDistinct, EnvOk, Row, Settled, Tracked, KeyName;
      RowUse(g, env, dest, written, name);
      dest := dest + [Sym(name)];
      t := Atom(Sym(name));
    }

    method PutAtoms(toks: seq<Tok>) returns (ghost ts: seq<Tree>)
      requires Sound(g, env) && PlainAtoms(toks)
      modifies this`dest
      ensures ts == Atoms(toks) && LoadAtoms(ts) == Some(toks)
      ensures Wrote(g, env, old(Now()), Now(), ts)
    {
      ts := Atoms(toks);
      AtomsFlat(toks);
      AtomsDefineNothing(ts);
      hide GraphOk, NamesDistinct, EnvOk, Delta, FlatAll, LoadAtoms, AreTrees, Inventory;
      DeltaPlain(g, env, written, toks);
      InventoryNone(g, written, ts);
      dest := dest + toks;
    }

    method PutEmptyBranch(tag: Tag) returns (ghost t: Tree)
      requires Sound(g, env) && !tag.TypeDefTag? && !tag.SymDefTag? && !IsMark(tag)
      modifies this`dest
      ensures t == Branch(tag, []) && Wrote(g, env, old(Now()), Now(), [t])
    {
      hide GraphOk, NamesDistinct, EnvOk, Row;
      RowEmpty(g, env, dest + [ParLe(tag)], written);
      RowBranch(g, env, dest, written, dest + [ParLe(tag)], written, tag, []);
      dest := dest + [ParLe(tag)];
      dest := dest + [ParRi];
      t := Branch(tag, []);
    }

    // ---------- symbols and types ----------

    /** Decides whether the symbol is to be defined here, and if so marks it. */
    method ClaimSym(s: SymId) returns (isNew: bool)
      requires Sound(g, env) && s in g.syms
      modifies this`written, this`fieldSyms
      ensures isNew ==> Defines(g, s) && Claimed(g, s, old(written), written, old(fieldSyms), fieldSyms)
      ensures isNew && g.syms[s].cls.Field? ==> inTypeReclist > 0
      ensures g.syms[s].cls.Field? && inTypeReclist > 0 ==> s in fieldSyms
      ensures !g.syms[s].cls.Field? && Defines(g, s) ==> KeyOf(g, s) in written
      ensures !isNew ==> written == old(written) && fieldSyms == old(fieldSyms) && Settled(g, written, g.syms[s].name)
    {
      hide GraphOk, NamesDistinct, EnvOk, Settled;
      match g.syms[s].cls {
      case Field =>
        isNew := inTypeReclist > 0 && s !in fieldSyms;
        if isNew { fieldSyms := fieldSyms + {s}; }
      case Package(ident) =>
        isNew := PackageKey(ident) !in written;
        if isNew { written := written + {PackageKey(ident)}; }
      case Backend =>
        isNew := SymKey(s) !in written;
        if isNew { written := written + {SymKey(s)}; }
      case Ordinary(owned) =>
        isNew := SymKey(s) !in written && owned;
        if isNew { written := written + {SymKey(s)}; }
      }
      if !isNew {
        UnclaimedSettled(g, s, written);
      }
    }

    method WriteSym(sym: Option<SymId>) returns (ghost t: Tree)
      requires Sound(g, env) && SymOk(g, sym)
      modifies this
      ensures Wrote(g, env, old(Now()), Now(), [t]) && Shrinks(g, old(Now()), Now())
      ensures LoadSymRef(t) == Some(SymRefOf(g, sym))
      decreases Left(g, written), FieldsLeft(g, fieldSyms), 0
    {
      hide GraphOk, NamesDistinct, EnvOk, Wrote, WroteDef, Left, FieldsLeft, Claimed, Settled, SymReads, TypeRefOf, LoadTypeRef;
      if sym.None? {
        t := Put(Dot);
      } else {
        var s := sym.value;
        ghost var s0 := Now();
        SymParts(g, s);
        var isNew := ClaimSym(s);
        if isNew {
          ghost var s1 := Now();
          ClaimShrinks(g, s, s0, s1);
          WroteNothing(g, env, s1);
          t := WriteSymDef(s);
          DefinedSym(g, env, s, s0, s1, s1, [], Now(), t);
          assert [] + [t] == [t];
        } else {
          t := PutUse(g.syms[s].name);
        }
      }
    }

    method WriteSymDef(s: SymId) returns (ghost t: Tree)
      requires Sound(g, env) && s in g.syms && SymInfoOk(g, g.syms[s])
      modifies this
      ensures WroteDef(g, env, old(Now()), Now(), g.syms[s].name, t) && Shrinks(g, old(Now()), Now())
      ensures t.Branch? && t.tag.SymDefTag? && SymReads(g, env, g.syms[s], t)
      ensures TypOk(g, g.syms[s].typ) && SymForm(g, s, t)
      decreases Left(g, written), FieldsLeft(g, fieldSyms), 4
    {
      hide GraphOk, NamesDistinct, EnvOk, SymInfoOk, NodeOk, Wrote, WroteDef, Left, FieldsLeft, SymReads, TypeRefOf, LoadTypeRef,
        FrontReads, BackReads;
      SymParts(g, s);
      var name := g.syms[s].name;
      ghost var s0 := Now();
      dest := dest + [ParLe(SymDefTag)];
      dest := dest + [SymDef(name)];
      ghost var s1 := Now();
      ghost var front := WriteSymFront(s);
      ghost var s2 := Now();
      ghost var back := WriteSymBack(s);
      ghost var s3 := Now();
      WroteMore(g, env, s1, s2, s3, front, back);
      dest := dest + [ParRi];
      t := Branch(SymDefTag, [Atom(SymDef(name))] + (front + back));
      WroteBranchDef(g, env, s0, s1, s3, Now(), SymDefTag, name, front + back);
      SymDefForm(g, env, s, front, back);
    }

    method WriteSymFront(s: SymId) returns (ghost ts: seq<Tree>)
      requires Sound(g, env) && s in g.syms && SymInfoOk(g, g.syms[s])
      modifies this
      ensures Wrote(g, env, old(Now()), Now(), ts) && Shrinks(g, old(Now()), Now())
      ensures FrontReads(g, env, g.syms[s], ts)
      decreases Left(g, written), FieldsLeft(g, fieldSyms), 3, 1
    {
      hide GraphOk, NamesDistinct, EnvOk, Wrote, WroteDef, Left, FieldsLeft, SymInfoOk, NodeOk, PlainAtoms, LoadGuard, Importable, HasGuard, ResetsPosition, SymRefOf, LoadAttrs, AnnexReads;
      SymParts(g, s);
      var info := g.syms[s];
      ghost var s0 := Now();
      ghost var marker := Put(if Importable(info) then Ident("x") else Dot);
      ghost var s1 := Now();
      ghost var kind := WriteKind(info);
      ghost var s2 := Now();
      WroteMore(g, env, s0, s1, s2, [marker], [kind]);
      ghost var attrs := WriteSymAttrs(info);
      ghost var s3 := Now();
      WroteMore(g, env, s0, s2, s3, [marker] + [kind], attrs);
      ghost var annex := WriteLib(info.annex);
      WroteMore(g, env, s0, s3, Now(), [marker] + [kind] + attrs, [annex]);
      ts := [marker] + [kind] + attrs + [annex];
      FrontKids(marker, kind, attrs, annex);
    }

    /** The symbol's kind, with the guard of a variable. */
    method WriteKind(info: SymInfo) returns (ghost t: Tree)
      requires Sound(g, env) && SymOk(g, info.guard)
      modifies this
      ensures Wrote(g, env, old(Now()), Now(), [t]) && Shrinks(g, old(Now()), Now())
      ensures LoadGuard(t) == Some(if HasGuard(info.kind) then (info.kind, SymRefOf(g, info.guard), info.bitsize, info.alignment)
                                   else (info.kind, None, 0, 0))
      decreases Left(g, written), FieldsLeft(g, fieldSyms), 3, 0
    {
      hide GraphOk, NamesDistinct, EnvOk, Wrote, WroteDef, Left, FieldsLeft, LoadSymRef, SymRefOf;
      if !HasGuard(info.kind) {
        t := PutEmptyBranch(SymKindTag(info.kind));
      } else {
        ghost var s0 := Now();
        dest := dest + [ParLe(SymKindTag(info.kind))];
        ghost var s1 := Now();
        ghost var guard := WriteSym(info.guard);
        ghost var s2 := Now();
        ghost var bitsize := Put(IntTok(info.bitsize));
        ghost var s3 := Now();
        WroteMore(g, env, s1, s2, s3, [guard], [bitsize]);
        ghost var alignment := Put(IntTok(info.alignment));
        ghost var s4 := Now();
        WroteMore(g, env, s1, s3, s4, [guard] + [bitsize], [alignment]);
        dest := dest + [ParRi];
        t := Branch(SymKindTag(info.kind), [guard] + [bitsize] + [alignment]);
        WroteBranch(g, env, s0, s1, s4, Now(), SymKindTag(info.kind), t.kids);
      }
    }

    method WriteSymAttrs(info: SymInfo) returns (ghost ts: seq<Tree>)
      requires Sound(g, env) && info.magic != Some("")
      modifies this`dest
      ensures Wrote(g, env, old(Now()), Now(), ts) && |ts| == 5
      ensures LoadAttrs(info.kind, ts) == Some((info.magic, info.flags, info.options, info.offset,
        if info.kind.SkModule? then None else Some(if ResetsPosition(info.kind) then 0 else info.position)))
    {
      hide GraphOk, NamesDistinct, EnvOk, Wrote;
      var magic := if info.magic.None? then Dot else Ident(info.magic.value);
      var position := if info.kind.SkModule? then Dot else if ResetsPosition(info.kind) then IntTok(0) else IntTok(info.position);
      ts := PutAtoms([magic, FlagTok(info.flags), FlagTok(info.options), IntTok(info.offset), position]);
    }

    method WriteBool(b: bool) returns (ghost t: Tree)
      requires Sound(g, env)
      modifies this`dest
      ensures t == Branch(BoolTag(b), []) && Wrote(g, env, old(Now()), Now(), [t])
    {
      hide GraphOk, NamesDistinct, EnvOk, Wrote;
      t := PutEmptyBranch(BoolTag(b));
    }

    method WriteLib(lib: Option<Lib>) returns (ghost t: Tree)
      requires Sound(g, env) && (lib.Some? ==> NodeOk(g, lib.value.path, false))
      modifies this
      ensures Wrote(g, env, old(Now()), Now(), [t]) && Shrinks(g, old(Now()), Now())
      ensures AnnexReads(g, env, lib, t)
      decreases Left(g, written), FieldsLeft(g, fieldSyms), 3, 0
    {
      hide GraphOk, NamesDistinct, EnvOk, Wrote, WroteDef, Left, FieldsLeft, NodeOk, NodeReads, LoadNode, Matches, Loadable;
      if lib.None? {
        t := Put(Dot);
      } else {
        var a := lib.value;
        ghost var s0 := Now();
        dest := dest + [ParLe(LibTag(a.kind))];
        ghost var s1 := Now();
        ghost var generated := WriteBool(a.generated);
        ghost var s2 := Now();
        ghost var overridden := WriteBool(a.overridden);
        ghost var s3 := Now();
        WroteMore(g, env, s1, s2, s3, [generated], [overridden]);
        ghost var name := Put(Str(a.name));
        ghost var s4 := Now();
        WroteMore(g, env, s1, s3, s4, [generated] + [overridden], [name]);
        ghost var path := WriteNode(a.path, false);
        ghost var s5 := Now();
        WroteMore(g, env, s1, s4, s5, [generated] + [overridden] + [name], [path]);
        dest := dest + [ParRi];
        t := Branch(LibTag(a.kind), [generated] + [overridden] + [name] + [path]);
        WroteBranch(g, env, s0, s1, s5, Now(), LibTag(a.kind), t.kids);
        LibReads(g, env, a, t.kids);
      }
    }

    method WriteSymBack(s: SymId) returns (ghost ts: seq<Tree>)
      requires Sound(g, env) && s in g.syms && SymInfoOk(g, g.syms[s])
      modifies this
      ensures Wrote(g, env, old(Now()), Now(), ts) && Shrinks(g, old(Now()), Now())
      ensures BackReads(g, env, g.syms[s], ts)
      decreases Left(g, written), FieldsLeft(g, fieldSyms), 3, 2
    {
      hide GraphOk, NamesDistinct, EnvOk, Wrote, WroteDef, Left, FieldsLeft, SymInfoOk, NodeOk, PlainAtoms, NodeReads, LoadTypeRef,
        LoadSymRef, LoadAtoms, TypeRefOf, SymRefOf;
      SymParts(g, s);
      var info := g.syms[s];
      ghost var s0 := Now();
      ghost var typ := WriteType(info.typ);
      ghost var s1 := Now();
      ghost var owner := WriteSym(info.owner);
      ghost var s2 := Now();
      WroteMore(g, env, s0, s1, s2, [typ], [owner]);
      ghost var ast := WriteNode(info.ast, true);
      ghost var s3 := Now();
      WroteMore(g, env, s0, s2, s3, [typ] + [owner], [ast]);
      ghost var loc := PutAtoms(info.loc);
      ghost var s4 := Now();
      WroteMore(g, env, s0, s3, s4, [typ] + [owner] + [ast], loc);
      ghost var constraint, origin, body := WriteSymOrigin(s);
      WroteMore(g, env, s0, s4, Now(), [typ] + [owner] + [ast] + loc, [constraint] + [origin] + [body]);
      ts := [typ] + [owner] + [ast] + loc + ([constraint] + [origin] + [body]);
      BackKids(typ, owner, ast, loc, constraint, origin, body);
    }

    /** The end of a symbol: its constraint, the generic it comes from, and its lowered body. */
    method WriteSymOrigin(s: SymId) returns (ghost constraint: Tree, ghost origin: Tree, ghost body: Tree)
      requires Sound(g, env) && s in g.syms && SymInfoOk(g, g.syms[s])
      modifies this
      ensures Wrote(g, env, old(Now()), Now(), [constraint] + [origin] + [body]) && Shrinks(g, old(Now()), Now())
      ensures NodeReads(g, env, g.syms[s].constraint, false, constraint)
      ensures LoadSymRef(origin) == Some(SymRefOf(g, g.syms[s].instantiatedFrom))
      ensures if g.syms[s].kind.SkRoutine? then NodeReads(g, env, g.syms[s].transformedBody, false, body) else body == Atom(Dot)
      decreases Left(g, written), FieldsLeft(g, fieldSyms), 3, 1
    {
      hide GraphOk, NamesDistinct, EnvOk, Wrote, WroteDef, Left, FieldsLeft, SymInfoOk, NodeOk, PlainAtoms, NodeReads, LoadSymRef,
        SymRefOf;
      SymParts(g, s);
      var info := g.syms[s];
      ghost var s0 := Now();
      constraint := WriteNode(info.constraint, false);
      ghost var s1 := Now();
      origin := WriteSym(info.instantiatedFrom);
      ghost var s2 := Now();
      WroteMore(g, env, s0, s1, s2, [constraint], [origin]);
      if info.kind.SkRoutine? {
        body := WriteNode(info.transformedBody, false);
      } else {
        body := Put(Dot);
      }
      WroteMore(g, env, s0, s2, Now(), [constraint] + [origin], [body]);
    }

    /** Decides whether the type is to be defined here, and if so marks it. */
    method ClaimType(y: TypeId) returns (isNew: bool)
      requires Sound(g, env) && y in g.types
      modifies this`written
      ensures Tracked(g, TypeKey(y)) ==> TypeKey(y) in written
      ensures isNew ==> Tracked(g, TypeKey(y)) && TypeKey(y) !in old(written) && written == old(written) + {TypeKey(y)}
      ensures !isNew ==> written == old(written) && Settled(g, written, g.types[y].name)
    {
      hide GraphOk, NamesDistinct, EnvOk, Settled;
      match g.types[y].cls {
      case BackendType =>
        isNew := TypeKey(y) !in written;
        if isNew { written := written + {TypeKey(y)}; }
      case OrdinaryType(owned) =>
        isNew := owned && TypeKey(y) !in written;
        if isNew { written := written + {TypeKey(y)}; }
      }
      if !isNew {
        UnclaimedTypeSettled(g, y, written);
      }
    }

    method WriteType(typ: Option<TypeId>) returns (ghost t: Tree)
      requires Sound(g, env) && TypOk(g, typ)
      modifies this
      ensures Wrote(g, env, old(Now()), Now(), [t]) && Shrinks(g, old(Now()), Now())
      ensures LoadTypeRef(t) == Some(TypeRefOf(g, typ))
      ensures typ.Some? && Tracked(g, TypeKey(typ.value)) ==> TypeKey(typ.value) in written
      decreases Left(g, written), FieldsLeft(g, fieldSyms), 0
    {
      hide GraphOk, NamesDistinct, EnvOk, Wrote, WroteDef, Left, FieldsLeft, Settled, Tracked, TypeReads, AllKeys;
      if typ.None? {
        t := Put(Dot);
      } else {
        var y := typ.value;
        ghost var s0 := Now();
        TypeParts(g, y);
        var isNew := ClaimType(y);
        if isNew {
          ghost var s1 := Now();
          TypeKeyKnown(g, y);
          LeftDrops(g, s0.written, TypeKey(y));
          t := WriteTypeDef(y);
          DefinedType(g, env, y, s0, s1, Now(), t);
        } else {
          t := PutUse(g.types[y].name);
        }
      }
    }

    method WriteTypeDef(y: TypeId) returns (ghost t: Tree)
      requires Sound(g, env) && y in g.types && TypeInfoOk(g, g.types[y])
      modifies this
      ensures WroteDef(g, env, old(Now()), Now(), g.types[y].name, t) && Shrinks(g, old(Now()), Now())
      ensures t.Branch? && t.tag.TypeDefTag? && TypeReads(g, env, g.types[y], t)
      ensures t.kids != [] && t.kids[0] == Atom(SymDef(g.types[y].name))
      ensures FieldsInside(g, env, g.types[y].n, t)
      decreases Left(g, written), |g.syms| + 1, 4
    {
      hide GraphOk, NamesDistinct, EnvOk, Wrote, WroteDef, Left, FieldsLeft, TypeInfoOk, TypeReads, TypeFrontReads, LoadTypeRef;
      TypeParts(g, y);
      var name := g.types[y].name;
      ghost var s0 := Now();
      dest := dest + [ParLe(TypeDefTag)];
      dest := dest + [SymDef(name)];
      ghost var s1 := Now();
      ghost var front := WriteTypeFront(y);
      ghost var s2 := Now();
      FieldsLeftBound(g, fieldSyms);
      ghost var back := WriteElements(g.types[y].sons);
      ghost var s3 := Now();
      WroteMore(g, env, s1, s2, s3, front, back);
      dest := dest + [ParRi];
      t := Branch(TypeDefTag, [Atom(SymDef(name))] + (front + back));
      WroteBranchDef(g, env, s0, s1, s3, Now(), TypeDefTag, name, front + back);
      TypeAssembled(g, env, g.types[y], front, back);
      assert [Atom(SymDef(name))] + (front + back) == [Atom(SymDef(name))] + front + back;
      TypeFrontCount(g, env, g.types[y], front);
      RecordInType(g, env, g.types[y].n, TypeDefTag, t.kids, TD_NODE);
    }

    method WriteTypeFront(y: TypeId) returns (ghost ts: seq<Tree>)
      requires Sound(g, env) && y in g.types && TypeInfoOk(g, g.types[y])
      modifies this
      ensures Wrote(g, env, old(Now()), Now(), ts) && Shrinks(g, old(Now()), Now()) && TypeFrontReads(g, env, g.types[y], ts)
      ensures FieldsInside(g, env, g.types[y].n, ts[9])
      decreases Left(g, written), |g.syms| + 1, 3
    {
      hide GraphOk, NamesDistinct, EnvOk, Wrote, WroteDef, Left, FieldsLeft, TypeInfoOk, NodeOk, PlainAtoms, NodeReads, LoadTypeRef, LoadSymRef, LoadAtoms, TypeRefOf, SymRefOf;
      TypeParts(g, y);
      FieldsLeftBound(g, fieldSyms);
      var info := g.types[y];
      ghost var s0 := Now();
      ghost var dot := Put(Dot);
      ghost var s1 := Now();
      ghost var attrs := PutAtoms(info.attrs);
      ghost var s2 := Now();
      WroteMore(g, env, s0, s1, s2, [dot], attrs);
      ghost var inst := WriteType(info.typeInst);
      ghost var s3 := Now();
      WroteMore(g, env, s0, s2, s3, [dot] + attrs, [inst]);
      FieldsLeftBound(g, fieldSyms);
      ghost var n := WriteRecord(info.n);
      ghost var s4 := Now();
      WroteMore(g, env, s0, s3, s4, [dot] + attrs + [inst], [n]);
      ghost var owner := WriteSym(info.owner);
      ghost var s5 := Now();
      WroteMore(g, env, s0, s4, s5, [dot] + attrs + [inst] + [n], [owner]);
      ghost var sym := WriteSym(info.sym);
      ghost var s6 := Now();
      WroteMore(g, env, s0, s5, s6, [dot] + attrs + [inst] + [n] + [owner], [sym]);
      ghost var loc := PutAtoms(info.loc);
      WroteMore(g, env, s0, s6, Now(), [dot] + attrs + [inst] + [n] + [owner] + [sym], loc);
      ts := [dot] + attrs + [inst] + [n] + [owner] + [sym] + loc;
      TypeFrontKids(dot, attrs, inst, n, owner, sym, loc);
    }

    /** The record list of a type defines its fields itself, whichever fields the record
        lists around it have defined. */
    method WriteRecord(n: Node) returns (ghost t: Tree)
      requires Sound(g, env) && NodeOk(g, n, false)
      modifies this
      ensures Wrote(g, env, old(Now()), Now(), [t]) && Shrinks(g, old(Now()), Now()) && NodeReads(g, env, n, false, t)
      ensures fieldSyms == old(fieldSyms)
      ensures FieldsInside(g, env, n, t)
      decreases Left(g, written), |g.syms| + 1, 2
    {
      hide GraphOk, NamesDistinct, EnvOk, Wrote, WroteDef, Left, FieldsLeft, NodeOk, NodeReads;
      ghost var s0 := Now();
      inTypeReclist := inTypeReclist + 1;
      var savedFieldSyms := fieldSyms;
      fieldSyms := {};
      FieldsLeftBound(g, {});
      ghost var s1 := Now();
      t := WriteNode(n, false);
      ghost var s2 := Now();
      fieldSyms := savedFieldSyms;
      inTypeReclist := inTypeReclist - 1;
      WroteElsewhere(g, env, s0, s1, s2, Now(), [t]);
      RecordFields(g, env, n, s1, s2, t);
    }

    method WriteElements(sons: seq<TypeId>) returns (ghost ts: seq<Tree>)
      requires Sound(g, env) && forall i | 0 <= i < |sons| :: sons[i] in g.types
      modifies this
      ensures Wrote(g, env, old(Now()), Now(), ts) && Shrinks(g, old(Now()), Now()) && |ts| == |sons|
      ensures forall i | 0 <= i < |sons| :: LoadTypeRef(ts[i]) == Some(Some(g.types[sons[i]].name))
      decreases Left(g, written), |g.syms| + 1, 3
    {
      hide GraphOk, NamesDistinct, EnvOk, Wrote, WroteDef, Left, FieldsLeft, LoadTypeRef;
      ts := [];
      ghost var s0 := Now();
      WroteNothing(g, env, s0);
      for i := 0 to |sons|
        invariant Wrote(g, env, s0, Now(), ts) && Shrinks(g, s0, Now()) && |ts| == i
        invariant forall k | 0 <= k < i :: LoadTypeRef(ts[k]) == Some(Some(g.types[sons[k]].name))
      {
        ghost var s1 := Now();
        FieldsLeftBound(g, fieldSyms);
        ghost var t := WriteType(Some(sons[i]));
        WroteMore(g, env, s0, s1, Now(), ts, [t]);
        ts := ts + [t];
      }
    }

    // ---------- nodes ----------

    method WriteSymNode(n: Node, ghost forAst: bool) returns (ghost t: Tree)
      requires Sound(g, env) && n.SymNode? && NodeOk(g, n, forAst) && n.sym in g.syms
      modifies this
      ensures Wrote(g, env, old(Now()), Now(), [t]) && Shrinks(g, old(Now()), Now())
      ensures NodeReads(g, env, n, forAst, t)
      ensures Covered(g, n, forAst, Now())
      decreases Left(g, written), FieldsLeft(g, fieldSyms), 1, 1
    {
      hide GraphOk, NamesDistinct, EnvOk, Wrote, WroteDef, Left, FieldsLeft, Settled, Claimed, SymReads, LoadTypeRef, LoadSymRef,
        NodeReads, SymInfoOk, NodeOk, NodeType, SymForm, HiddenForm;
      var s := n.sym;
      SymNodeParts(g, n, forAst);
      SymParts(g, s);
      NodeTypeOk(g, n);
      var nodeTyp := NodeType(g, n);
      ghost var s0 := Now();
      ghost var symTree;
      var isNew := ClaimSym(s);
      ghost var s1 := Now();
      if isNew {
        ClaimShrinks(g, s, s0, s1);
        if nodeTyp != g.syms[s].typ {
          symTree, t := WriteHiddenDef(s, nodeTyp, s0);
        } else {
          WroteNothing(g, env, s1);
          symTree := WriteSymDef(s);
          DefinedSym(g, env, s, s0, s1, s1, [], Now(), symTree);
          assert [] + [symTree] == [symTree];
          t := symTree;
        }
      } else if g.syms[s].cls.Field? {
        symTree, t := WriteHiddenUse(s, if nodeTyp.Some? then nodeTyp else g.syms[s].typ);
      } else if nodeTyp != g.syms[s].typ {
        symTree, t := WriteHiddenUse(s, nodeTyp);
      } else {
        symTree := PutUse(g.syms[s].name);
        UseForm(g, s);
        t := symTree;
      }
      SymNodeReads(g, env, n, forAst, symTree, t);
      LeafCovered(g, n, forAst, Now());
    }

    /** A symbol that was just marked, defined behind the node's type. */
    method WriteHiddenDef(s: SymId, typ: Option<TypeId>, ghost s0: State) returns (ghost symTree: Tree, ghost t: Tree)
      requires Sound(g, env) && s in g.syms && TypOk(g, typ) && TypOk(g, g.syms[s].typ) && SymInfoOk(g, g.syms[s])
      requires Claimed(g, s, s0.written, written, s0.fieldSyms, fieldSyms) && s0.dest == dest
      modifies this
      ensures Wrote(g, env, s0, Now(), [t]) && Shrinks(g, old(Now()), Now())
      ensures SymForm(g, s, symTree) && symTree.Branch?
      ensures HiddenForm(g, typ, symTree, t)
      decreases Left(g, written), FieldsLeft(g, fieldSyms), 5
    {
      hide GraphOk, NamesDistinct, EnvOk, Wrote, WroteDef, Left, FieldsLeft, SymReads, LoadTypeRef, Claimed, SymInfoOk;
      dest := dest + [ParLe(HiddenType)];
      ghost var s1 := Now();
      ghost var ty := WriteType(typ);
      ghost var s2 := Now();
      symTree := WriteSymDef(s);
      ghost var s3 := Now();
      ghost var s4 := s0.(dest := s0.dest + [ParLe(HiddenType)]);
      DefinedSym(g, env, s, s4, s1, s2, [ty], s3, symTree);
      dest := dest + [ParRi];
      t := Branch(HiddenType, [ty, symTree]);
      assert [ty] + [symTree] == [ty, symTree];
      WroteBranch(g, env, s0, s4, s3, Now(), HiddenType, [ty, symTree]);
    }

    /** A use of a symbol behind a type. */
    method WriteHiddenUse(s: SymId, typ: Option<TypeId>) returns (ghost symTree: Tree, ghost t: Tree)
      requires Sound(g, env) && s in g.syms && TypOk(g, typ) && TypOk(g, g.syms[s].typ) && Settled(g, written, g.syms[s].name)
      modifies this
      ensures Wrote(g, env, old(Now()), Now(), [t]) && Shrinks(g, old(Now()), Now())
      ensures SymForm(g, s, symTree) && symTree.Atom?
      ensures HiddenForm(g, typ, symTree, t)
      decreases Left(g, written), FieldsLeft(g, fieldSyms), 1, 0
    {
      hide GraphOk, NamesDistinct, EnvOk, Wrote, WroteDef, Left, FieldsLeft, LoadTypeRef, Settled;
      ghost var s0 := Now();
      dest := dest + [ParLe(HiddenType)];
      ghost var s1 := Now();
      ghost var ty := WriteType(typ);
      ghost var s2 := Now();
      SettledStays(g, env, s1, s2, [ty], g.syms[s].name);
      symTree := PutUse(g.syms[s].name);
      UseForm(g, s);
      ghost var s3 := Now();
      WroteMore(g, env, s1, s2, s3, [ty], [symTree]);
      dest := dest + [ParRi];
      t := Branch(HiddenType, [ty, symTree]);
      assert [ty] + [symTree] == [ty, symTree];
      WroteBranch(g, env, s0, s1, s3, Now(), HiddenType, [ty, symTree]);
    }

    method WriteHead(flags: NodeFlags, typ: Option<TypeId>) returns (ghost ts: seq<Tree>)
      requires Sound(g, env) && TypOk(g, typ)
      modifies this
      ensures Wrote(g, env, old(Now()), Now(), ts) && Shrinks(g, old(Now()), Now())
      ensures HeadReads(g, flags, typ, ts)
      decreases Left(g, written), FieldsLeft(g, fieldSyms), 1
    {
      hide GraphOk, NamesDistinct, EnvOk, Wrote, WroteDef, Left, FieldsLeft, LoadTypeRef;
      ghost var s0 := Now();
      ghost var f := Put(FlagTok(flags.text));
      ghost var s1 := Now();
      ghost var ty := WriteType(typ);
      WroteMore(g, env, s0, s1, Now(), [f], [ty]);
      ts := [f] + [ty];
    }

    method WriteNode(n: Node, forAst: bool) returns (ghost t: Tree)
      requires Sound(g, env) && NodeOk(g, n, forAst)
      modifies this
      ensures Wrote(g, env, old(Now()), Now(), [t]) && Shrinks(g, old(Now()), Now())
      ensures NodeReads(g, env, n, forAst, t)
      ensures Covered(g, n, forAst, Now())
      decreases Left(g, written), FieldsLeft(g, fieldSyms), 2, n, 2
    {
      hide GraphOk, NamesDistinct, EnvOk, Wrote, WroteDef, Left, FieldsLeft, NodeReads, Covered;
      match n
      case NilNode =>
        TrivialReads(g, env, n, forAst);
        t := Put(Dot);
        LeafCovered(g, n, forAst, Now());
      case NoneNode =>
        TrivialReads(g, env, n, forAst);
        t := PutEmptyBranch(KindTag(NkNone));
        LeafCovered(g, n, forAst, Now());
      case EmptyNode(_, typ) =>
        if typ.Some? {
          t := WriteLeaf(n, forAst);
        } else {
          TrivialReads(g, env, n, forAst);
          t := PutEmptyBranch(KindTag(NkEmpty));
          LeafCovered(g, n, forAst, Now());
        }
      case SymNode(_, _, _, _) =>
        t := WriteSymNode(n, forAst);
      case InnerNode(kind, _, _, sons) =>
        if kind.NkRoutineDef? {
          if !forAst && sons[NAME_POS].SymNode? {
            t := WriteSym(Some(sons[NAME_POS].sym));
            BySymbolReads(g, env, n, t);
            BySymbolCovered(g, n, Now());
          } else {
            t := WriteRoutine(n, forAst);
          }
        } else if kind.NkLambda? || kind.NkDo? {
          t := WriteLambda(n, forAst);
        } else {
          t := WriteInner(n, forAst, false);
        }
      case _ =>
        t := WriteLeaf(n, forAst);
    }

    /** A routine in full: its symbol's ast, without the parameter list if the routine has a
        type. */
    method WriteRoutine(n: Node, forAst: bool) returns (ghost t: Tree)
      requires Sound(g, env) && NodeOk(g, n, forAst) && n.InnerNode? && n.kind.NkRoutineDef? && !BySymbol(n, forAst)
      modifies this
      ensures Wrote(g, env, old(Now()), Now(), [t]) && Shrinks(g, old(Now()), Now())
      ensures NodeReads(g, env, n, forAst, t)
      ensures Covered(g, n, forAst, Now())
      decreases Left(g, written), FieldsLeft(g, fieldSyms), 2, n, 1
    {
      hide GraphOk, NamesDistinct, EnvOk, Wrote, WroteDef, Left, FieldsLeft, NodeReads, Covered;
      var ast := n;
      var skipParams := false;
      if n.sons[NAME_POS].SymNode? {
        ast := g.syms[n.sons[NAME_POS].sym].ast;
        if ast == NilNode {
          ast := n;
        } else {
          skipParams := g.syms[n.sons[NAME_POS].sym].typ.Some?;
        }
      }
      t := WriteInner(ast, forAst, skipParams);
    }

    method WriteLambda(n: Node, forAst: bool) returns (ghost t: Tree)
      requires Sound(g, env) && NodeOk(g, n, forAst) && n.InnerNode? && (n.kind.NkLambda? || n.kind.NkDo?)
      modifies this
      ensures Wrote(g, env, old(Now()), Now(), [t]) && Shrinks(g, old(Now()), Now())
      ensures NodeReads(g, env, n, forAst, t)
      ensures Covered(g, n, forAst, Now())
      decreases Left(g, written), FieldsLeft(g, fieldSyms), 2, n, 1
    {
      hide GraphOk, NamesDistinct, EnvOk, Wrote, WroteDef, Left, FieldsLeft, NodeReads, Covered;
      var ast := n;
      if n.sons[NAME_POS].SymNode? {
        ast := g.syms[n.sons[NAME_POS].sym].ast;
        if ast == NilNode {
          ast := n;
        }
      }
      t := WriteInner(ast, forAst, false);
    }

    method WriteInner(n: Node, forAst: bool, skipParams: bool) returns (ghost t: Tree)
      requires Sound(g, env) && NodeOk(g, n, forAst) && n.InnerNode? && !BySymbol(n, forAst) && skipParams == SkipsParams(g, n.kind, n.sons)
      modifies this
      ensures Wrote(g, env, old(Now()), Now(), [t]) && Shrinks(g, old(Now()), Now())
      ensures NodeReads(g, env, n, forAst, t)
      ensures Covered(g, n, forAst, Now())
      decreases Left(g, written), FieldsLeft(g, fieldSyms), 2, n, 0
    {
      hide GraphOk, NamesDistinct, EnvOk, Wrote, WroteDef, Left, FieldsLeft, NodeReads, HeadReads, SonReads, Covered;
      ghost var s0 := Now();
      dest := dest + [ParLe(KindTag(n.kind))];
      ghost var s1 := Now();
      ghost var hs := WriteHead(n.flags, n.typ);
      ghost var s2 := Now();
      ghost var ss := [];
      WroteNothing(g, env, s2);
      for i := 0 to |n.sons|
        invariant Wrote(g, env, s2, Now(), ss) && Shrinks(g, s2, Now()) && |ss| == i
        invariant forall k | 0 <= k < i :: SonReads(g, env, n, forAst, k, ss[k])
        invariant forall k | 0 <= k < i && !(skipParams && k == PARAMS_POS) :: Covered(g, n.sons[k], forAst, Now())
      {
        ghost var s3 := Now();
        ghost var son := WriteSon(n, forAst, skipParams, i);
        StillCovered(g, n, forAst, skipParams, i, s3, Now());
        WroteMore(g, env, s2, s3, Now(), ss, [son]);
        ss := ss + [son];
      }
      ghost var s4 := Now();
      WroteMore(g, env, s1, s2, s4, hs, ss);
      dest := dest + [ParRi];
      t := Branch(KindTag(n.kind), hs + ss);
      WroteBranch(g, env, s0, s1, s4, Now(), KindTag(n.kind), hs + ss);
      InnerReads(g, env, n, forAst, hs, ss);
      StillCovered(g, n, forAst, skipParams, |n.sons|, s4, Now());
      InnerCovered(g, n, forAst, Now());
    }

    method WriteSon(n: Node, forAst: bool, skipParams: bool, i: nat) returns (ghost t: Tree)
      requires Sound(g, env) && NodeOk(g, n, forAst) && n.InnerNode? && i < |n.sons| && skipParams == SkipsParams(g, n.kind, n.sons)
      modifies this
      ensures Wrote(g, env, old(Now()), Now(), [t]) && Shrinks(g, old(Now()), Now())
      ensures SonReads(g, env, n, forAst, i, t)
      ensures !(i == PARAMS_POS && skipParams) ==> Covered(g, n.sons[i], forAst, Now())
      decreases Left(g, written), FieldsLeft(g, fieldSyms), 2, n.sons[i], 3
    {
      hide GraphOk, NamesDistinct, EnvOk, Wrote, WroteDef, Left, FieldsLeft, NodeReads, Covered;
      if i == PARAMS_POS && skipParams {
        t := PutEmptyBranch(KindTag(NkEmpty));
      } else {
        t := WriteNode(n.sons[i], forAst);
      }
    }

    method WriteLeaf(n: Node, forAst: bool) returns (ghost t: Tree)
      requires Sound(g, env) && NodeOk(g, n, forAst) && IsLeaf(n)
      modifies this
      ensures Wrote(g, env, old(Now()), Now(), [t]) && Shrinks(g, old(Now()), Now())
      ensures NodeReads(g, env, n, forAst, t)
      ensures Covered(g, n, forAst, Now())
      decreases Left(g, written), FieldsLeft(g, fieldSyms), 2, n, 0
    {
      hide GraphOk, NamesDistinct, EnvOk, Wrote, WroteDef, Left, FieldsLeft, NodeReads, HeadReads, Covered;
      ghost var s0 := Now();
      dest := dest + [ParLe(KindTag(LeafKind(n)))];
      ghost var s1 := Now();
      ghost var hs := WriteHead(n.flags, n.typ);
      ghost var s2 := Now();
      ghost var ps := PutAtoms(Payload(n));
      ghost var s3 := Now();
      WroteMore(g, env, s1, s2, s3, hs, ps);
      dest := dest + [ParRi];
      t := Branch(KindTag(LeafKind(n)), hs + ps);
      WroteBranch(g, env, s0, s1, s3, Now(), KindTag(LeafKind(n)), hs + ps);
      LeafReads(g, env, n, forAst, hs);
      LeafCovered(g, n, forAst, Now());
    }
  }
}
