/** What comes back of a node and of a symbol, said of the sons and the kinds themselves. */
module NifRoundTrip {
  import opened NifTokens
  import opened NifGraph
  import opened NifLoader
  import opened Options

  // ---------- nodes ----------

  predicate IsParams(n: Node) { n.InnerNode? && n.kind == NkFormalParams }

  /** Is this routine the one of a symbol that has an ast and a type? The parameters can be
      taken from that type. */
  predicate IsTyped(g: Graph, name: Node)
  {
    name.SymNode? && name.sym in g.syms && g.syms[name.sym].ast != NilNode && g.syms[name.sym].typ.Some?
  }

  /** Every routine has its sons in order: name, pattern, generic parameters, formal parameters,
      pragmas, something hidden, body, and maybe more. Only the fourth is a list of formal
      parameters, or an empty node. */
  predicate WellShaped(n: Node)
  {
    match n
    case InnerNode(kind, _, _, sons) =>
      && (forall i | 0 <= i < |sons| :: WellShaped(sons[i]))
      && (kind.NkRoutineDef? ==>
            && |sons| >= 7
            && (IsParams(sons[3]) || (sons[3].EmptyNode? && sons[3].typ.None?))
            && forall i | 0 <= i < |sons| && i != 3 :: !IsParams(sons[i]))
    case _ => true
  }

  /** The node comes back: a named routine outside its own definition as its symbol, and
      everything else son by son, where the one son that is replaced, by an empty node, is the
      list of formal parameters of a typed routine. */
  ghost predicate ComesBack(g: Graph, n: Node, forAst: bool, l: LNode)
    requires GraphOk(g) && NodeOk(g, n, forAst)
    decreases n
  {
    match n
    case InnerNode(kind, flags, typ, sons) =>
      if kind.NkRoutineDef? && !forAst && sons[0].SymNode? then
        l.LSym? && l.name == g.syms[sons[0].sym].name && l.typ == TypeRefOf(g, g.syms[sons[0].sym].typ)
      else
        && l.LInner? && l.kind == kind && l.flags == flags.text && l.typ == TypeRefOf(g, typ) && |l.sons| == |sons|
        && forall i | 0 <= i < |sons| ::
             if IsParams(sons[i]) && kind.NkRoutineDef? && IsTyped(g, sons[0]) then l.sons[i] == LEmpty("", None)
             else ComesBack(g, sons[i], forAst, l.sons[i])
    case _ => Matches(g, n, forAst, l)
  }

  /** Nothing but the formal parameters of typed routines is replaced. */
  lemma {:induction false} OnlyParamsReplaced(g: Graph, n: Node, forAst: bool, l: LNode)
    requires GraphOk(g) && NodeOk(g, n, forAst) && WellShaped(n) && Matches(g, n, forAst, l)
    ensures ComesBack(g, n, forAst, l)
    decreases n
  {
    hide GraphOk;
    if n.InnerNode? && !BySymbol(n, forAst) {
      forall i | 0 <= i < |n.sons| && !(SkipsParams(g, n.kind, n.sons) && i == PARAMS_POS)
        ensures ComesBack(g, n.sons[i], forAst, l.sons[i])
      {
        OnlyParamsReplaced(g, n.sons[i], forAst, l.sons[i]);
      }
    }
  }

  // ---------- symbols ----------

  /** Two nodes that come back as the same one. */
  ghost predicate Alike(g: Graph, n: Node, m: Node, forAst: bool)
    requires GraphOk(g) && NodeOk(g, n, forAst) && NodeOk(g, m, forAst)
  {
    exists l :: Matches(g, n, forAst, l) && Matches(g, m, forAst, l)
  }

  /** Does the symbol get the mark that lets importers use its bare name? */
  predicate Marked(s: SymInfo)
  {
    s.exported && !s.fromGeneric && !s.pureEnumField && s.kind != SkField
  }

  predicate IsVariable(k: SymKind) { k == SkVar || k == SkLet || k == SkForVar }

  /** What one tree tells of a symbol: it has the mark exactly if the symbol is to have it, and two symbols that a tree reads back as agree in every
      part, except in the position of modules, variables and results, in guard, bit size and
      alignment of what is neither a variable nor a field, and in the transformed body of what
      is no routine. */
  lemma SymTells(g: Graph, env: Env, s: SymInfo, z: SymInfo, t: Tree)
    requires GraphOk(g) && SymInfoOk(g, s) && SymInfoOk(g, z) && SymReads(g, env, s, t) && SymReads(g, env, z, t) && LoadSym(env, t).Some?
    ensures s.name == z.name && s.kind == z.kind && LoadSym(env, t).value.exported == Marked(s) == Marked(z)
    ensures IsVariable(s.kind) || s.kind == SkField ==>
      SymRefOf(g, s.guard) == SymRefOf(g, z.guard) && s.bitsize == z.bitsize && s.alignment == z.alignment
    ensures s.magic == z.magic && s.flags == z.flags && s.options == z.options && s.offset == z.offset && s.loc == z.loc
    ensures !IsVariable(s.kind) && s.kind != SkResult && s.kind != SkModule ==> s.position == z.position
    ensures s.annex.Some? <==> z.annex.Some?
    ensures s.annex.Some? ==>
      var a, b := s.annex.value, z.annex.value;
      a.kind == b.kind && a.generated == b.generated && a.overridden == b.overridden && a.name == b.name && Alike(g, a.path, b.path, false)
    ensures TypeRefOf(g, s.typ) == TypeRefOf(g, z.typ) && SymRefOf(g, s.owner) == SymRefOf(g, z.owner)
    ensures SymRefOf(g, s.instantiatedFrom) == SymRefOf(g, z.instantiatedFrom)
    ensures Alike(g, s.ast, z.ast, true) && Alike(g, s.constraint, z.constraint, false)
    ensures s.kind.SkRoutine? ==> Alike(g, s.transformedBody, z.transformedBody, false)
  {
    hide GraphOk, NodeOk, Matches, Loadable, TypeRefOf, SymRefOf, LoadSym;
    var l := LoadSym(env, t).value;
    assert SymMatches(g, s, l) && SymMatches(g, z, l);
  }

  /** Two symbols that are to come back as the same thing are read back from the same trees. */
  ghost predicate SameBack(g: Graph, s: SymInfo, z: SymInfo)
    requires GraphOk(g) && SymInfoOk(g, s)
  {
    SymInfoOk(g, z) && SymLoadable(g, z) == SymLoadable(g, s) && forall l :: SymMatches(g, s, l) ==> SymMatches(g, z, l)
  }

  lemma ReadBackToo(g: Graph, env: Env, s: SymInfo, z: SymInfo, t: Tree)
    requires GraphOk(g) && SymInfoOk(g, s) && SameBack(g, s, z) && SymReads(g, env, s, t)
    ensures SymReads(g, env, z, t)
  {
    hide GraphOk, SymInfoOk, SymLoadable, SymMatches, LoadSym;
  }

  lemma PositionOk(g: Graph, s: SymInfo, position: int)
    requires GraphOk(g) && SymInfoOk(g, s)
    ensures SymInfoOk(g, s.(position := position))
  {
    hide GraphOk, NodeOk;
  }

  lemma GuardOk(g: Graph, s: SymInfo, guard: Option<SymId>, bitsize: int, alignment: int)
    requires GraphOk(g) && SymInfoOk(g, s) && SymOk(g, guard)
    ensures SymInfoOk(g, s.(guard := guard, bitsize := bitsize, alignment := alignment))
  {
    hide GraphOk, NodeOk;
  }

  lemma BodyOk(g: Graph, s: SymInfo, body: Node)
    requires GraphOk(g) && SymInfoOk(g, s) && NodeOk(g, body, false)
    ensures SymInfoOk(g, s.(transformedBody := body))
  {
    hide GraphOk;
  }

  /** The exceptions are ones: a tree that reads back as a symbol reads back as it whatever these
      parts of it are. */
  lemma SymForgetsPosition(g: Graph, env: Env, s: SymInfo, t: Tree, position: int)
    requires GraphOk(g) && SymInfoOk(g, s) && SymReads(g, env, s, t)
    requires IsVariable(s.kind) || s.kind == SkResult || s.kind == SkModule
    ensures var z := s.(position := position); SymInfoOk(g, z) && SymReads(g, env, z, t)
  {
    hide GraphOk, NodeOk, SymInfoOk, Matches, AnnexMatches, Loadable, TypeRefOf, SymRefOf, LoadSym, SymReads;
    var z := s.(position := position);
    PositionOk(g, s, position);
    assert SameBack(g, s, z);
    ReadBackToo(g, env, s, z, t);
  }

  lemma SymForgetsGuard(g: Graph, env: Env, s: SymInfo, t: Tree, guard: Option<SymId>, bitsize: int, alignment: int)
    requires GraphOk(g) && SymInfoOk(g, s) && SymReads(g, env, s, t) && SymOk(g, guard)
    requires !IsVariable(s.kind) && s.kind != SkField
    ensures var z := s.(guard := guard, bitsize := bitsize, alignment := alignment); SymInfoOk(g, z) && SymReads(g, env, z, t)
  {
    hide GraphOk, NodeOk, SymInfoOk, Matches, AnnexMatches, Loadable, TypeRefOf, SymRefOf, LoadSym, SymReads;
    var z := s.(guard := guard, bitsize := bitsize, alignment := alignment);
    GuardOk(g, s, guard, bitsize, alignment);
    assert SameBack(g, s, z);
    ReadBackToo(g, env, s, z, t);
  }

  lemma SymForgetsBody(g: Graph, env: Env, s: SymInfo, t: Tree, body: Node)
    requires GraphOk(g) && SymInfoOk(g, s) && SymReads(g, env, s, t) && NodeOk(g, body, false) && !s.kind.SkRoutine?
    ensures var z := s.(transformedBody := body); SymInfoOk(g, z) && SymReads(g, env, z, t)
  {
    hide GraphOk, NodeOk, SymInfoOk, Matches, AnnexMatches, Loadable, TypeRefOf, SymRefOf, LoadSym, SymReads;
    var z := s.(transformedBody := body);
    BodyOk(g, s, body);
    assert SameBack(g, s, z);
    ReadBackToo(g, env, s, z, t);
  }

  // ---------- literals ----------

  /** An unsigned literal is written as the remainder of its bit pattern, and read back. */
  lemma BitPatterns(i: int)
    requires -0x8000_0000_0000_0000 <= i < 0x8000_0000_0000_0000
    ensures AsUInt64(i) == i % 0x1_0000_0000_0000_0000 && AsInt64(AsUInt64(i)) == i
  {
  }
}
