/** How the loader reads a tree that is put together from parts it can read. */
module NifAssembly {
  import opened NifTokens
  import opened NifNames
  import opened NifGraph
  import opened NifLoader
  import opened Options

  /** The flags and the type in front of a node's payload. */
  ghost predicate HeadReads(g: Graph, flags: NodeFlags, typ: Option<TypeId>, hs: seq<Tree>)
    requires TypOk(g, typ)
  {
    |hs| == 2 && LoadFlags(hs[0]) == Some(flags.text) && LoadTypeRef(hs[1]) == Some(TypeRefOf(g, typ))
  }

  lemma {:induction false} LoadNodesAll(env: Env, ts: seq<Tree>) returns (ls: seq<LNode>)
    requires forall i | 0 <= i < |ts| :: LoadNode(env, ts[i]).Some?
    ensures LoadNodes(env, ts) == Some(ls) && |ls| == |ts|
    ensures forall i | 0 <= i < |ts| :: LoadNode(env, ts[i]) == Some(ls[i])
    decreases |ts|
  {
    hide LoadNode;
    if ts == [] {
      ls := [];
    } else {
      var tail := LoadNodesAll(env, ts[1..]);
      ls := [LoadNode(env, ts[0]).value] + tail;
      forall i | 0 <= i < |ts| ensures LoadNode(env, ts[i]) == Some(ls[i]) {
        if i > 0 { assert ts[i] == ts[1..][i - 1]; }
      }
    }
  }

  lemma {:induction false} LoadNodesFails(env: Env, ts: seq<Tree>, i: nat)
    requires i < |ts| && LoadNode(env, ts[i]).None?
    ensures LoadNodes(env, ts).None?
    decreases |ts|
  {
    hide LoadNode;
    if i > 0 {
      assert ts[1..][i - 1] == ts[i];
      LoadNodesFails(env, ts[1..], i - 1);
    }
  }

  /** What the writer puts for one son: an empty node where a routine's parameters are
      dropped, the son's own tree otherwise. */
  ghost predicate SonReads(g: Graph, env: Env, n: Node, forAst: bool, i: nat, t: Tree)
    requires GraphOk(g) && NodeOk(g, n, forAst) && n.InnerNode? && i < |n.sons|
  {
    if SkipsParams(g, n.kind, n.sons) && i == PARAMS_POS then t == Branch(KindTag(NkEmpty), [])
    else NodeReads(g, env, n.sons[i], forAst, t)
  }

  lemma InnerLoads(env: Env, kind: NodeKind, hs: seq<Tree>, ss: seq<Tree>)
    requires IsInnerKind(kind) && |hs| == 2 && LoadFlags(hs[0]).Some? && LoadTypeRef(hs[1]).Some?
    ensures LoadNode(env, Branch(KindTag(kind), hs + ss)) ==
      var sons := LoadNodes(env, ss);
      if sons.None? then None else Some(LInner(kind, LoadFlags(hs[0]).value, LoadTypeRef(hs[1]).value, sons.value))
  {
    assert (hs + ss)[2..] == ss;
    hide LoadFlags, LoadTypeRef, LoadNodes;
    var flags, typ := LoadFlags(hs[0]).value, LoadTypeRef(hs[1]).value;
    assert LoadBranch(env, KindTag(kind), hs + ss) == LoadPayload(env, kind, flags, typ, ss);
    assert LoadNode(env, Branch(KindTag(kind), hs + ss)) == LoadBranch(env, KindTag(kind), hs + ss);
  }

  /** The tree of a routine, a statement or an expression reads back if all its sons do. */
  lemma InnerReads(g: Graph, env: Env, n: Node, forAst: bool, hs: seq<Tree>, ss: seq<Tree>)
    requires GraphOk(g) && NodeOk(g, n, forAst) && n.InnerNode? && !BySymbol(n, forAst)
    requires HeadReads(g, n.flags, n.typ, hs) && |ss| == |n.sons|
    requires forall i | 0 <= i < |ss| :: SonReads(g, env, n, forAst, i, ss[i])
    ensures NodeReads(g, env, n, forAst, Branch(KindTag(n.kind), hs + ss))
  {
    InnerLoads(env, n.kind, hs, ss);
    hide LoadNodes, LoadNode, GraphOk, LoadFlags, LoadTypeRef;
    if Loadable(g, n, forAst) {
      var ls := SonsLoad(g, env, n, forAst, ss);
    } else {
      SomeSonFails(g, env, n, forAst, ss);
    }
  }

  lemma SonsLoad(g: Graph, env: Env, n: Node, forAst: bool, ss: seq<Tree>) returns (ls: seq<LNode>)
    requires GraphOk(g) && NodeOk(g, n, forAst) && n.InnerNode? && !BySymbol(n, forAst)
    requires |ss| == |n.sons| && forall i | 0 <= i < |ss| :: SonReads(g, env, n, forAst, i, ss[i])
    requires Loadable(g, n, forAst)
    ensures LoadNodes(env, ss) == Some(ls) && |ls| == |ss|
    ensures forall i | 0 <= i < |ss| ::
              if SkipsParams(g, n.kind, n.sons) && i == PARAMS_POS then ls[i] == LEmpty("", None)
              else Matches(g, n.sons[i], forAst, ls[i])
  {
    EmptyLoads(env);
    hide LoadNodes, LoadNode, GraphOk, Matches;
    forall i | 0 <= i < |ss| ensures LoadNode(env, ss[i]).Some? {
      assert SonReads(g, env, n, forAst, i, ss[i]);
    }
    ls := LoadNodesAll(env, ss);
    forall i | 0 <= i < |ss|
      ensures if SkipsParams(g, n.kind, n.sons) && i == PARAMS_POS then ls[i] == LEmpty("", None)
        else Matches(g, n.sons[i], forAst, ls[i])
    {
      assert SonReads(g, env, n, forAst, i, ss[i]);
    }
  }

  lemma SomeSonFails(g: Graph, env: Env, n: Node, forAst: bool, ss: seq<Tree>)
    requires GraphOk(g) && NodeOk(g, n, forAst) && n.InnerNode? && !BySymbol(n, forAst)
    requires |ss| == |n.sons| && forall i | 0 <= i < |ss| :: SonReads(g, env, n, forAst, i, ss[i])
    requires !Loadable(g, n, forAst)
    ensures LoadNodes(env, ss).None?
  {
    hide LoadNodes, LoadNode, GraphOk, Matches;
    var i :| 0 <= i < |n.sons| && !(SkipsParams(g, n.kind, n.sons) && i == PARAMS_POS) && !Loadable(g, n.sons[i], forAst);
    assert SonReads(g, env, n, forAst, i, ss[i]);
    LoadNodesFails(env, ss, i);
  }

  lemma EmptyLoads(env: Env)
    ensures LoadNode(env, Branch(KindTag(NkEmpty), [])) == Some(LEmpty("", None))
  {
  }

  // ---------- leaves ----------

  /** The payload of a node without sons. */
  function Payload(n: Node): seq<Tok>
    requires n.IntNode? ==> -0x8000_0000_0000_0000 <= n.intVal && (n.kind.NkCharLit? ==> 0 <= n.intVal)
  {
    match n
    case IdentNode(_, _, ident) => [Ident(ident)]
    case IntNode(kind, _, _, v) =>
      if kind.NkCharLit? then [CharTok(v)] else if kind.NkUIntLit? then [UIntTok(AsUInt64(v))] else [IntTok(v)]
    case FloatNode(_, _, _, bits) => [FloatTok(bits)]
    case StrNode(_, _, _, text) => [Str(text)]
    case _ => []
  }

  /** Nodes that are a head and a payload. */
  predicate IsLeaf(n: Node)
  {
    n.IdentNode? || n.IntNode? || n.FloatNode? || n.StrNode? || n.NilLitNode? || (n.EmptyNode? && n.typ.Some?)
  }

  function LeafKind(n: Node): NodeKind
    requires IsLeaf(n)
  {
    match n
    case IdentNode(_, _, _) => NkIdent
    case IntNode(kind, _, _, _) => kind
    case FloatNode(kind, _, _, _) => kind
    case StrNode(kind, _, _, _) => kind
    case NilLitNode(_, _) => NkNilLit
    case EmptyNode(_, _) => NkEmpty
  }

  /** A leaf reads back with its payload, an unsigned literal over its bit pattern. */
  lemma LeafReads(g: Graph, env: Env, n: Node, forAst: bool, hs: seq<Tree>)
    requires GraphOk(g) && NodeOk(g, n, forAst) && IsLeaf(n) && HeadReads(g, n.flags, n.typ, hs)
    ensures NodeReads(g, env, n, forAst, Branch(KindTag(LeafKind(n)), hs + Atoms(Payload(n))))
  {
    var ps := Atoms(Payload(n));
    assert (hs + ps)[2..] == ps;
    hide LoadFlags, LoadTypeRef, GraphOk;
    assert LoadNode(env, Branch(KindTag(LeafKind(n)), hs + ps))
        == LoadPayload(env, LeafKind(n), n.flags.text, TypeRefOf(g, n.typ), ps);
  }

  // ---------- symbols in node position ----------

  /** Only fields have local names. */
  lemma FieldsAreLocal(g: Graph, s: SymId)
    requires GraphOk(g) && s in g.syms
    ensures IsLocalName(g.syms[s].name) <==> g.syms[s].cls.Field?
    ensures TypOk(g, g.syms[s].typ)
  {
    hide IsLocalName, IsFieldNifName, NodeOk;
  }

  lemma KnownType(g: Graph, env: Env, s: SymId)
    requires GraphOk(g) && EnvOk(g, env) && s in g.syms && !g.syms[s].cls.Field? && !IsLocalName(g.syms[s].name)
    requires TypOk(g, g.syms[s].typ)
    ensures UseType(env, g.syms[s].name) == Some(TypeRefOf(g, g.syms[s].typ))
  {
    hide GraphOk, IsLocalName, IsFieldNifName;
  }

  /** A reference to, or an inline definition of, a symbol with a global name gives a node
      with the type of the symbol. */
  lemma GlobalSymLoads(g: Graph, env: Env, s: SymId, t: Tree)
    requires GraphOk(g) && EnvOk(g, env) && s in g.syms && !g.syms[s].cls.Field?
    requires LoadSymRef(t) == Some(Some(g.syms[s].name))
    ensures LoadNode(env, t) == Some(LSym(g.syms[s].name, TypeRefOf(g, g.syms[s].typ), t.Branch?))
  {
    hide GraphOk, SymInfoOk, IsLocalName, IsFieldNifName, EnvOk, UseType, TypeRefOf, NodeOk, Matches, LoadNodes, LoadPayload;
    FieldsAreLocal(g, s);
    KnownType(g, env, s);
  }

  /** An inline definition of a field gives a node with the type that it carries. */
  lemma FieldDefLoads(g: Graph, env: Env, s: SymId, t: Tree)
    requires GraphOk(g) && s in g.syms && g.syms[s].cls.Field?
    requires t.Branch? && t.tag.SymDefTag? && |t.kids| == SD_COUNT && t.kids[0] == Atom(SymDef(g.syms[s].name))
    requires LoadTypeRef(t.kids[SD_TYPE]) == Some(TypeRefOf(g, g.syms[s].typ))
    ensures LoadNode(env, t) == Some(LSym(g.syms[s].name, TypeRefOf(g, g.syms[s].typ), true))
  {
    hide GraphOk, SymInfoOk, IsLocalName, IsFieldNifName, LoadTypeRef, NodeOk, LoadNodes, LoadPayload;
    FieldsAreLocal(g, s);
    assert LoadNode(env, t) == LoadBranch(env, t.tag, t.kids) == LoadDefSym(env, t.kids);
  }

  lemma HiddenLoads(env: Env, ty: Tree, sym: Tree, name: string, typ: Option<string>)
    requires LoadTypeRef(ty) == Some(typ) && LoadSymRef(sym) == Some(Some(name))
    ensures LoadNode(env, Branch(HiddenType, [ty, sym])) == Some(LSym(name, typ, sym.Branch?))
  {
    hide LoadTypeRef, LoadSymRef;
  }

  // ---------- definitions ----------

  ghost predicate AnnexReads(g: Graph, env: Env, a: Option<Lib>, t: Tree)
    requires GraphOk(g) && (a.Some? ==> NodeOk(g, a.value.path, false))
  {
    var r := LoadAnnex(env, t);
    if a.Some? && !Loadable(g, a.value.path, false) then r.None? else r.Some? && AnnexMatches(g, a, r.value)
  }

  lemma LibReads(g: Graph, env: Env, a: Lib, ts: seq<Tree>)
    requires GraphOk(g) && NodeOk(g, a.path, false) && |ts| == 4
    requires ts[0] == Branch(BoolTag(a.generated), []) && ts[1] == Branch(BoolTag(a.overridden), [])
    requires ts[2] == Atom(Str(a.name)) && NodeReads(g, env, a.path, false, ts[3])
    ensures AnnexReads(g, env, Some(a), Branch(LibTag(a.kind), ts))
  {
    hide GraphOk, LoadNode, Matches, Loadable;
  }

  /** The first half of a symbol's fields: marker, kind, attributes and annex. */
  ghost predicate FrontReads(g: Graph, env: Env, s: SymInfo, ts: seq<Tree>)
    requires GraphOk(g) && SymInfoOk(g, s)
  {
    && |ts| == 8 && LoadMarker(ts[0]) == Some(Importable(s))
    && LoadGuard(ts[1]) == Some(if HasGuard(s.kind) then (s.kind, SymRefOf(g, s.guard), s.bitsize, s.alignment) else (s.kind, None, 0, 0))
    && LoadAttrs(s.kind, ts[2..7]) == Some((s.magic, s.flags, s.options, s.offset,
         if s.kind.SkModule? then None else Some(if ResetsPosition(s.kind) then 0 else s.position)))
    && AnnexReads(g, env, s.annex, ts[7])
  }

  /** The second half: type, owner, ast, location, constraint, origin and lowered body. */
  ghost predicate BackReads(g: Graph, env: Env, s: SymInfo, ts: seq<Tree>)
    requires GraphOk(g) && SymInfoOk(g, s)
  {
    && |ts| == 10 && LoadTypeRef(ts[0]) == Some(TypeRefOf(g, s.typ)) && LoadSymRef(ts[1]) == Some(SymRefOf(g, s.owner))
    && NodeReads(g, env, s.ast, true, ts[2]) && LoadAtoms(ts[3..7]) == Some(s.loc)
    && NodeReads(g, env, s.constraint, false, ts[7]) && LoadSymRef(ts[8]) == Some(SymRefOf(g, s.instantiatedFrom))
    && (if s.kind.SkRoutine? then NodeReads(g, env, s.transformedBody, false, ts[9]) else ts[9] == Atom(Dot))
  }

  lemma SymKids(s: SymInfo, front: seq<Tree>, back: seq<Tree>)
    requires |front| == 8 && |back| == 10
    ensures var kids := [Atom(SymDef(s.name))] + front + back;
      && |kids| == SD_COUNT && kids[0] == Atom(SymDef(s.name)) && kids[1] == front[0] && kids[SD_KIND] == front[1]
      && kids[SD_MAGIC..SD_ANNEX] == front[2..7] && kids[SD_ANNEX] == front[7]
      && kids[SD_TYPE] == back[0] && kids[SD_OWNER] == back[1] && kids[SD_AST] == back[2]
      && kids[SD_LOC..SD_CONSTRAINT] == back[3..7] && kids[SD_CONSTRAINT] == back[7]
      && kids[SD_INST] == back[8] && kids[SD_BODY] == back[9]
  {
  }

  /** A definition whose plain parts can be read loads if its nodes do. */
  lemma SymOfParts(env: Env, kids: seq<Tree>)
    requires |kids| == SD_COUNT && kids[0].Atom? && kids[0].tok.SymDef?
    requires LoadMarker(kids[1]).Some? && LoadGuard(kids[SD_KIND]).Some?
    requires LoadAttrs(LoadGuard(kids[SD_KIND]).value.0, kids[SD_MAGIC..SD_ANNEX]).Some?
    requires LoadTypeRef(kids[SD_TYPE]).Some? && LoadSymRef(kids[SD_OWNER]).Some? && LoadSymRef(kids[SD_INST]).Some?
    requires LoadAtoms(kids[SD_LOC..SD_CONSTRAINT]).Some?
    ensures var r := LoadSym(env, Branch(SymDefTag, kids));
      var (kind, guard, bitsize, alignment) := LoadGuard(kids[SD_KIND]).value;
      var (magic, flags, options, offset, position) := LoadAttrs(kind, kids[SD_MAGIC..SD_ANNEX]).value;
      if LoadAnnex(env, kids[SD_ANNEX]).Some? && LoadNode(env, kids[SD_AST]).Some?
        && LoadNode(env, kids[SD_CONSTRAINT]).Some? && LoadNode(env, kids[SD_BODY]).Some?
      then r == Some(LSymInfo(kids[0].tok.name, LoadMarker(kids[1]).value, kind, guard, bitsize, alignment,
                              magic, flags, options, offset, position, LoadAnnex(env, kids[SD_ANNEX]).value,
                              LoadTypeRef(kids[SD_TYPE]).value, LoadSymRef(kids[SD_OWNER]).value,
                              LoadNode(env, kids[SD_AST]).value, LoadAtoms(kids[SD_LOC..SD_CONSTRAINT]).value,
                              LoadNode(env, kids[SD_CONSTRAINT]).value, LoadSymRef(kids[SD_INST]).value,
                              LoadNode(env, kids[SD_BODY]).value))
      else r.None?
  {
    hide LoadNode, LoadGuard, LoadAttrs, LoadAnnex, LoadTypeRef, LoadSymRef, LoadAtoms, LoadMarker;
  }

  /** The four nodes of a symbol's definition. */
  ghost predicate NodesLoad(env: Env, front: seq<Tree>, back: seq<Tree>)
    requires |front| == 8 && |back| == 10
  {
    LoadAnnex(env, front[7]).Some? && LoadNode(env, back[2]).Some? && LoadNode(env, back[7]).Some? && LoadNode(env, back[9]).Some?
  }

  lemma SymNodesLoad(g: Graph, env: Env, s: SymInfo, front: seq<Tree>, back: seq<Tree>)
    requires GraphOk(g) && SymInfoOk(g, s) && FrontReads(g, env, s, front) && BackReads(g, env, s, back)
    ensures NodesLoad(env, front, back) <==> SymLoadable(g, s)
  {
    assert LoadNode(env, Atom(Dot)) == Some(LNil);
    hide GraphOk, SymInfoOk, LoadNode, LoadGuard, LoadAttrs, LoadAnnex, LoadTypeRef, LoadSymRef, LoadAtoms, LoadMarker,
      Matches, Loadable, AnnexMatches, HasGuard, Importable, ResetsPosition, SymRefOf, TypeRefOf;
  }

  lemma SymNodesMatch(g: Graph, env: Env, s: SymInfo, front: seq<Tree>, back: seq<Tree>)
    requires GraphOk(g) && SymInfoOk(g, s) && FrontReads(g, env, s, front) && BackReads(g, env, s, back)
    requires SymLoadable(g, s) && NodesLoad(env, front, back)
    ensures AnnexMatches(g, s.annex, LoadAnnex(env, front[7]).value)
    ensures Matches(g, s.ast, true, LoadNode(env, back[2]).value)
    ensures Matches(g, s.constraint, false, LoadNode(env, back[7]).value)
    ensures if s.kind.SkRoutine? then Matches(g, s.transformedBody, false, LoadNode(env, back[9]).value)
      else LoadNode(env, back[9]).value == LNil
  {
    assert LoadNode(env, Atom(Dot)) == Some(LNil);
    hide GraphOk, SymInfoOk, LoadNode, LoadGuard, LoadAttrs, LoadAnnex, LoadTypeRef, LoadSymRef, LoadAtoms, LoadMarker,
      Matches, Loadable, AnnexMatches, HasGuard, Importable, ResetsPosition, SymRefOf, TypeRefOf;
  }

  lemma SymAssembled(g: Graph, env: Env, s: SymInfo, front: seq<Tree>, back: seq<Tree>)
    requires GraphOk(g) && SymInfoOk(g, s) && FrontReads(g, env, s, front) && BackReads(g, env, s, back)
    ensures SymReads(g, env, s, Branch(SymDefTag, [Atom(SymDef(s.name))] + front + back))
  {
    var kids := [Atom(SymDef(s.name))] + front + back;
    SymKids(s, front, back);
    SymNodesLoad(g, env, s, front, back);
    hide GraphOk, SymInfoOk, LoadNode, LoadGuard, LoadAttrs, LoadAnnex, LoadTypeRef, LoadSymRef, LoadAtoms, LoadMarker,
      Matches, Loadable, LoadSym, AnnexMatches, HasGuard, Importable, ResetsPosition, SymRefOf, TypeRefOf, SymLoadable,
      NodeReads, AnnexReads;
    SymOfParts(env, kids);
    if SymLoadable(g, s) {
      SymNodesMatch(g, env, s, front, back);
    }
  }

  lemma {:induction false} LoadTypeRefsAll(g: Graph, sons: seq<TypeId>, ts: seq<Tree>)
    requires |ts| == |sons| && forall i | 0 <= i < |sons| :: sons[i] in g.types && LoadTypeRef(ts[i]) == Some(Some(g.types[sons[i]].name))
    ensures var r := LoadTypeRefs(ts);
      r.Some? && |r.value| == |sons| && forall i | 0 <= i < |sons| :: r.value[i] == Some(g.types[sons[i]].name)
    decreases |ts|
  {
    hide LoadTypeRef;
    if ts != [] {
      LoadTypeRefsAll(g, sons[1..], ts[1..]);
    }
  }

  /** The fields of a type in front of its element types. */
  ghost predicate TypeFrontReads(g: Graph, env: Env, t: TypeInfo, ts: seq<Tree>)
    requires GraphOk(g) && TypeInfoOk(g, t)
  {
    && |ts| == 16 && ts[0] == Atom(Dot) && LoadAtoms(ts[1..8]) == Some(t.attrs) && LoadTypeRef(ts[8]) == Some(TypeRefOf(g, t.typeInst))
    && NodeReads(g, env, t.n, false, ts[9]) && LoadSymRef(ts[10]) == Some(SymRefOf(g, t.owner))
    && LoadSymRef(ts[11]) == Some(SymRefOf(g, t.sym)) && LoadAtoms(ts[12..16]) == Some(t.loc)
  }

  /** A definition of a type whose plain parts can be read loads if its node does. */
  lemma TypeOfParts(env: Env, kids: seq<Tree>)
    requires |kids| >= TD_SONS && kids[0].Atom? && kids[0].tok.SymDef? && kids[1] == Atom(Dot)
    requires LoadAtoms(kids[TD_ATTRS..TD_INST]).Some? && LoadTypeRef(kids[TD_INST]).Some?
    requires LoadSymRef(kids[TD_OWNER]).Some? && LoadSymRef(kids[TD_SYM]).Some?
    requires LoadAtoms(kids[TD_LOC..TD_SONS]).Some? && LoadTypeRefs(kids[TD_SONS..]).Some?
    ensures var r := LoadType(env, Branch(TypeDefTag, kids));
      if LoadNode(env, kids[TD_NODE]).Some?
      then r == Some(LTypeInfo(kids[0].tok.name, LoadAtoms(kids[TD_ATTRS..TD_INST]).value, LoadTypeRef(kids[TD_INST]).value,
                               LoadNode(env, kids[TD_NODE]).value, LoadSymRef(kids[TD_OWNER]).value,
                               LoadSymRef(kids[TD_SYM]).value, LoadAtoms(kids[TD_LOC..TD_SONS]).value,
                               LoadTypeRefs(kids[TD_SONS..]).value))
      else r.None?
  {
    hide LoadNode, LoadTypeRef, LoadTypeRefs, LoadSymRef, LoadAtoms;
  }

  lemma TypeAssembled(g: Graph, env: Env, t: TypeInfo, front: seq<Tree>, back: seq<Tree>)
    requires GraphOk(g) && TypeInfoOk(g, t) && TypeFrontReads(g, env, t, front)
    requires |back| == |t.sons| && forall i | 0 <= i < |back| :: LoadTypeRef(back[i]) == Some(Some(g.types[t.sons[i]].name))
    ensures TypeReads(g, env, t, Branch(TypeDefTag, [Atom(SymDef(t.name))] + front + back))
  {
    var kids := [Atom(SymDef(t.name))] + front + back;
    TypeNodeOk(g, t);
    LoadTypeRefsAll(g, t.sons, back);
    hide GraphOk, TypeInfoOk, NodeOk, LoadNode, LoadTypeRef, LoadSymRef, LoadAtoms, Matches, Loadable, LoadTypeRefs, LoadType,
      TypeRefOf, SymRefOf;
    TypeKids(t, front, back);
    TypeOfParts(env, kids);
  }

  lemma TypeNodeOk(g: Graph, t: TypeInfo)
    requires TypeInfoOk(g, t)
    ensures NodeOk(g, t.n, false) && TypOk(g, t.typeInst) && SymOk(g, t.owner) && SymOk(g, t.sym)
    ensures forall i | 0 <= i < |t.sons| :: t.sons[i] in g.types
  {
    hide NodeOk;
  }

  lemma TypeKids(t: TypeInfo, front: seq<Tree>, back: seq<Tree>)
    requires |front| == 16
    ensures var kids := [Atom(SymDef(t.name))] + front + back;
      && |kids| == TD_SONS + |back| && kids[0] == Atom(SymDef(t.name))
      && kids[1] == front[0] && kids[TD_ATTRS..TD_INST] == front[1..8] && kids[TD_INST] == front[8]
      && kids[TD_NODE] == front[9] && kids[TD_OWNER] == front[10] && kids[TD_SYM] == front[11]
      && kids[TD_LOC..TD_SONS] == front[12..16] && kids[TD_SONS..] == back
  {
  }
}
