/** Definitions of symbols that are loaded on demand: all of a definition is scanned for local
    symbols, and its nodes are loaded with their bodies put off. */
module NifLazyDefinitions {
  import opened NifTokens
  import opened NifNames
  import opened NifGraph
  import opened NifLoader
  import opened NifLazy
  import opened Options

  // ---------- definitions ----------

  /** The scan of a tree that is no local definition itself registers what its children
      define. */
  lemma ScanOfKids(env: Env, types: map<string, Option<string>>, t: Tree)
    requires Within(env, types) && Agree(types, t) && t.Branch? && !t.tag.TypeDefTag? && !DefinesLocal(t)
    ensures Scan(env, t) == ScanAll(env, t.kids) && RegisteredAll(Scan(env, t), t.kids) && Extends(env, Scan(env, t), types)
  {
    hide IsLocalName, LoadTypeRef;
    ScanAllRegisters(env, types, t.kids);
  }

  /** The definition of a symbol with a global name, as the index leads to it. */
  predicate IsEntry(t: Tree)
  {
    t.Branch? && t.tag.SymDefTag? && |t.kids| == SD_COUNT && t.kids[0].Atom? && t.kids[0].tok.SymDef? && !IsLocalName(t.kids[0].tok.name)
  }

  predicate HasPath(t: Tree)
    requires IsEntry(t)
  {
    IsLib(t.kids[SD_ANNEX])
  }

  lemma LibRegistered(env: Env, t: Tree)
    requires IsLib(t) && Registered(env, t)
    ensures Registered(env, t.kids[3])
  {
    RegisteredAt(env, t.kids, 3);
  }

  /** After the scan of a definition everything that its nodes define is registered. */
  lemma EntryRegistered(env: Env, types: map<string, Option<string>>, t: Tree)
    requires Within(env, types) && Agree(types, t) && IsEntry(t)
    ensures var known := Scan(env, t);
      && Registered(known, t.kids[SD_AST]) && Registered(known, t.kids[SD_CONSTRAINT]) && Registered(known, t.kids[SD_BODY])
      && (HasPath(t) ==> Registered(known, t.kids[SD_ANNEX].kids[3]))
  {
    hide IsLocalName, LoadTypeRef, Registered;
    ScanOfKids(env, types, t);
    RegisteredAt(Scan(env, t), t.kids, SD_AST);
    RegisteredAt(Scan(env, t), t.kids, SD_CONSTRAINT);
    RegisteredAt(Scan(env, t), t.kids, SD_BODY);
    if HasPath(t) {
      RegisteredAt(Scan(env, t), t.kids, SD_ANNEX);
      LibRegistered(Scan(env, t), t.kids[SD_ANNEX]);
    }
  }

  /** A definition without its nodes. */
  function LoadParts(t: Tree): Option<LSymInfo>
    requires IsEntry(t)
  {
    var exported :- LoadMarker(t.kids[1]);
    var (kind, guard, bitsize, alignment) :- LoadGuard(t.kids[SD_KIND]);
    var (magic, flags, options, offset, position) :- LoadAttrs(kind, t.kids[SD_MAGIC..SD_ANNEX]);
    var annex :- LoadLib(t.kids[SD_ANNEX]);
    var typ :- LoadTypeRef(t.kids[SD_TYPE]);
    var owner :- LoadSymRef(t.kids[SD_OWNER]);
    var loc :- LoadAtoms(t.kids[SD_LOC..SD_CONSTRAINT]);
    var instantiatedFrom :- LoadSymRef(t.kids[SD_INST]);
    Some(LSymInfo(t.kids[0].tok.name, exported, kind, guard, bitsize, alignment, magic, flags, options, offset, position,
                  annex, typ, owner, LNil, loc, LNil, instantiatedFrom, LNil))
  }

  /** A library without its path. */
  function LoadLib(t: Tree): Option<Option<LLib>>
  {
    match t
    case Atom(Dot) => Some(None)
    case Branch(LibTag(kind), kids) =>
      if |kids| != 4 || !kids[2].Atom? || !kids[2].tok.Str? then None
      else
        var generated :- LoadBool(kids[0]);
        var overridden :- LoadBool(kids[1]);
        Some(Some(LLib(kind, generated, overridden, kids[2].tok.text, LNil)))
    case _ => None
  }

  function WithPath(l: Option<LLib>, path: Option<LNode>): Option<LLib>
  {
    if l.Some? && path.Some? then Some(l.value.(path := path.value)) else l
  }

  /** The parts and the nodes together. */
  function WithNodes(parts: LSymInfo, path: Option<LNode>, ast: LNode, constraint: LNode, body: LNode): LSymInfo
  {
    parts.(annex := WithPath(parts.annex, path), ast := ast, constraint := constraint, transformedBody := body)
  }

  /** A definition loads if its parts and its nodes do. */
  lemma SymByParts(env: Env, t: Tree)
    requires IsEntry(t)
    ensures LoadParts(t).None? ==> LoadSym(env, t).None?
    ensures LoadParts(t).Some? ==>
      var ast, constraint, body := LoadNode(env, t.kids[SD_AST]), LoadNode(env, t.kids[SD_CONSTRAINT]), LoadNode(env, t.kids[SD_BODY]);
      (HasPath(t) <==> LoadParts(t).value.annex.Some?) &&
      var path := if HasPath(t) then LoadNode(env, t.kids[SD_ANNEX].kids[3]) else None;
      LoadSym(env, t) ==
        if ast.None? || constraint.None? || body.None? || (HasPath(t) && path.None?) then None
        else Some(WithNodes(LoadParts(t).value, path, ast.value, constraint.value, body.value))
  {
    hide LoadNode, LoadTypeRef, LoadSymRef, LoadAttrs, LoadGuard, LoadMarker, LoadAtoms, IsLocalName, LoadBool;
  }

  /** No body in the definition that is put off is of a kind without sons. */
  predicate EntryGrafts(t: Tree)
    requires IsEntry(t)
  {
    BodiesGraft(t.kids[SD_AST]) && BodiesGraft(t.kids[SD_CONSTRAINT]) && BodiesGraft(t.kids[SD_BODY])
    && (HasPath(t) ==> BodiesGraft(t.kids[SD_ANNEX].kids[3]))
  }

  /** A loaded symbol, whose nodes are loaded on demand. */
  datatype LazySym = LazySym(parts: LSymInfo, path: Option<LazyTree>, ast: LazyTree, constraint: LazyTree, body: LazyTree)

  function Trees(d: LazySym): set<LazyTree>
  {
    {d.ast, d.constraint, d.body} + if d.path.Some? then {d.path.value} else {}
  }

  ghost predicate Shows(l: LazyTree, env: Env, t: Tree)
    reads l
  {
    l.Valid() && l.env == env && l.tree == t
  }

  /** The symbol stands for the definition. */
  ghost predicate StandsFor(d: LazySym, env: Env, t: Tree)
    requires IsEntry(t)
    reads Trees(d)
  {
    && LoadParts(t) == Some(d.parts) && (d.path.Some? <==> HasPath(t))
    && Shows(d.ast, env, t.kids[SD_AST]) && Shows(d.constraint, env, t.kids[SD_CONSTRAINT]) && Shows(d.body, env, t.kids[SD_BODY])
    && (d.path.Some? ==> Shows(d.path.value, env, t.kids[SD_ANNEX].kids[3]))
  }

  /** Loads a tree in which everything is registered, with its bodies put off. */
  method LoadLazily(env: Env, t: Tree) returns (r: Option<LazyTree>)
    requires Registered(env, t)
    ensures r.None? ==> LoadNode(env, t).None?
    ensures r.Some? ==> fresh(r.value) && Shows(r.value, env, t)
  {
    hide LoadNode, BodiesGraft, Registered;
    LazyForces(env, t);
    var loaded := LazyThread(env, t);
    if loaded.None? {
      return None;
    }
    var l := new LazyTree(env, t, loaded.value.0);
    return Some(l);
  }

  /** Loads a definition: scans all of it for local symbols, then loads its parts, and its
      nodes with their bodies put off. Fails only where loading everything at once fails. */
  method LoadDefinition(env: Env, t: Tree, ghost types: map<string, Option<string>>) returns (r: Option<LazySym>)
    requires IsEntry(t) && Within(env, types) && Agree(types, t)
    ensures r.None? ==> LoadSym(Scan(env, t), t).None?
    ensures r.Some? ==> fresh(Trees(r.value)) && StandsFor(r.value, Scan(env, t), t)
  {
    hide LoadNode, LoadParts, LoadSym, Registered, Agree, Within, IsLocalName;
    var known := Scan(env, t);
    EntryRegistered(env, types, t);
    SymByParts(known, t);
    var parts := LoadParts(t);
    if parts.None? {
      return None;
    }
    var path := None;
    if HasPath(t) {
      path := LoadLazily(known, t.kids[SD_ANNEX].kids[3]);
      if path.None? {
        return None;
      }
    }
    var ast := LoadLazily(known, t.kids[SD_AST]);
    if ast.None? {
      return None;
    }
    var constraint := LoadLazily(known, t.kids[SD_CONSTRAINT]);
    if constraint.None? {
      return None;
    }
    var body := LoadLazily(known, t.kids[SD_BODY]);
    if body.None? {
      return None;
    }
    return Some(LazySym(parts.value, path, ast.value, constraint.value, body.value));
  }

  /** Lazy loading of a definition refines eager loading: looking at everything in a loaded
      symbol gives the symbol that loading everything at once gives, if and only if no body
      that is put off is of a kind without sons. */
  method LookAtDefinition(d: LazySym, ghost env: Env, ghost t: Tree) returns (r: Option<LSymInfo>)
    requires IsEntry(t) && StandsFor(d, env, t)
    modifies Trees(d)
    ensures StandsFor(d, env, t) && r == if EntryGrafts(t) then LoadSym(env, t) else None
  {
    hide LoadNode, LoadParts, LoadSym, BodiesGraft, IsLocalName;
    SymByParts(env, t);
    var path := None;
    if d.path.Some? {
      path := LookEverywhere(d.path.value);
    }
    var ast := LookEverywhere(d.ast);
    var constraint := LookEverywhere(d.constraint);
    var body := LookEverywhere(d.body);
    if (d.path.Some? && path.None?) || ast.None? || constraint.None? || body.None? {
      return None;
    }
    return Some(WithNodes(d.parts, path, ast.value, constraint.value, body.value));
  }

  /** Loads a definition, looks into its ast in any order, then at everything. */
  method LoadAndLook(env: Env, t: Tree, ghost types: map<string, Option<string>>, order: seq<seq<nat>>) returns (r: Option<LSymInfo>)
    requires IsEntry(t) && Within(env, types) && Agree(types, t)
    ensures r == if EntryGrafts(t) then LoadSym(Scan(env, t), t) else None
  {
    hide LoadNode, LoadSym, BodiesGraft, IsLocalName, Registered, LoadParts;
    var d := LoadDefinition(env, t, types);
    if d.None? {
      return None;
    }
    var _ := d.value.ast.LookAround(order);
    r := LookAtDefinition(d.value, Scan(env, t), t);
  }

  // ---------- bodies that cannot be grafted ----------

  function Dots(k: nat): seq<Tree>
  {
    seq(k, _ => Atom(Dot))
  }

  /** A routine whose body is a literal. */
  function LiteralBody(v: int): Tree
  {
    Branch(KindTag(NkRoutineDef(0)), Dots(2) + (Dots(BODY_POS) + [Branch(KindTag(NkIntLit(0)), Dots(2) + [Atom(IntTok(v))])]))
  }

  function Nils(k: nat): seq<LNode>
  {
    seq(k, _ => LNil)
  }

  lemma NilFirst(k: nat, ls: seq<LNode>)
    ensures Nils(0) + ls == ls && (k > 0 ==> [LNil] + (Nils(k - 1) + ls) == Nils(k) + ls)
  {
  }

  lemma DotFirst(env: Env, k: nat, rest: seq<Tree>)
    ensures Dots(0) + rest == rest
    ensures k > 0 ==> Dots(k) + rest != [] && (Dots(k) + rest)[0] == Atom(Dot) && (Dots(k) + rest)[1..] == Dots(k - 1) + rest
    ensures Thread(env, Atom(Dot)) == Some((LNil, env)) && LoadNode(env, Atom(Dot)) == Some(LNil)
    ensures LazyThread(env, Atom(Dot)) == Some((Ready(LNil), env))
  {
  }

  /** Sons that are absent. */
  lemma {:induction false} DotsThread(env: Env, k: nat, rest: seq<Tree>)
    ensures var r, all := ThreadAll(env, rest), ThreadAll(env, Dots(k) + rest);
      if r.None? then all.None? else all == Some((Nils(k) + r.value.0, r.value.1))
    decreases k
  {
    hide Thread, Dots, Nils;
    DotFirst(env, k, rest);
    if ThreadAll(env, rest).Some? { NilFirst(k, ThreadAll(env, rest).value.0); }
    if k > 0 { DotsThread(env, k - 1, rest); }
  }

  lemma {:induction false} DotsLoad(env: Env, k: nat, rest: seq<Tree>)
    ensures var r, all := LoadNodes(env, rest), LoadNodes(env, Dots(k) + rest);
      if r.None? then all.None? else all == Some(Nils(k) + r.value)
    decreases k
  {
    hide LoadNode, Dots, Nils;
    DotFirst(env, k, rest);
    if LoadNodes(env, rest).Some? { NilFirst(k, LoadNodes(env, rest).value); }
    if k > 0 { DotsLoad(env, k - 1, rest); }
  }

  lemma {:induction false} DotsLazy(env: Env, k: nat, idx: nat, rest: seq<Tree>)
    ensures var r, all := LazySons(env, NkRoutineDef(0), idx + k, rest), LazySons(env, NkRoutineDef(0), idx, Dots(k) + rest);
      if r.None? then all.None? else all.Some? && all.value.1 == r.value.1 && |all.value.0| == k + |r.value.0| && all.value.0[k..] == r.value.0
    decreases k
  {
    hide LazyThread, Dots;
    DotFirst(env, k, rest);
    if k > 0 { DotsLazy(env, k - 1, idx + 1, rest); }
  }

  /** A routine whose body is a literal loads eagerly; loaded lazily, its body cannot be
      grafted when somebody looks into it. */
  lemma LiteralBodyLost(env: Env, v: int)
    ensures var t := LiteralBody(v);
      && LoadNode(env, t) == Some(LInner(NkRoutineDef(0), "", None, Nils(BODY_POS) + [LInt(NkIntLit(0), "", None, v)]))
      && !BodiesGraft(t) && LazyThread(env, t).Some? && Forced(LazyThread(env, t).value.0).None?
  {
    var t, lit := LiteralBody(v), Branch(KindTag(NkIntLit(0)), Dots(2) + [Atom(IntTok(v))]);
    assert t.kids[2..] == Dots(BODY_POS) + [lit] && t.kids[0] == t.kids[1] == Atom(Dot) && [lit][1..] == [];
    assert lit.kids[2..] == [Atom(IntTok(v))] && LoadBranch(env, lit.tag, lit.kids) == LoadPayload(env, NkIntLit(0), "", None, lit.kids[2..]);
    assert LoadNode(env, lit) == Some(LInt(NkIntLit(0), "", None, v));
    assert LoadNodes(env, []) == Some([]) && [LInt(NkIntLit(0), "", None, v)] + [] == [LInt(NkIntLit(0), "", None, v)];
    assert LoadNodes(env, [lit]) == Some([LInt(NkIntLit(0), "", None, v)]);
    DotsLoad(env, BODY_POS, [lit]);
    InnerTreeLoads(env, t);
    DotsGraft(BODY_POS, 0, [lit]);
    assert Registered(env, t) by { DotsRegistered(env, BODY_POS, [lit]); }
    LazyForces(env, t);
  }

  lemma {:induction false} DotsGraft(k: nat, idx: nat, rest: seq<Tree>)
    ensures SonsGraft(NkRoutineDef(0), idx, Dots(k) + rest) <==> SonsGraft(NkRoutineDef(0), idx + k, rest)
    decreases k
  {
    if k == 0 {
      assert Dots(0) + rest == rest;
    } else {
      DotsGraft(k - 1, idx + 1, rest);
      assert (Dots(k) + rest)[1..] == Dots(k - 1) + rest && (Dots(k) + rest)[0] == Atom(Dot);
    }
  }

  lemma {:induction false} DotsRegistered(env: Env, k: nat, rest: seq<Tree>)
    ensures RegisteredAll(env, Dots(k) + rest) <==> RegisteredAll(env, rest)
    ensures ScanAll(env, Dots(k) + rest) == ScanAll(env, rest)
    decreases k
  {
    if k == 0 {
      assert Dots(0) + rest == rest;
    } else {
      DotsRegistered(env, k - 1, rest);
      assert (Dots(k) + rest)[1..] == Dots(k - 1) + rest && (Dots(k) + rest)[0] == Atom(Dot);
    }
  }

  // ---------- why the scan is needed ----------

  /** The complete definition of a field. */
  function FieldDef(name: string, typ: string): Tree
  {
    Branch(SymDefTag,
           [Atom(SymDef(name)), Atom(Dot), Branch(SymKindTag(SkField), [Atom(Dot), Atom(IntTok(0)), Atom(IntTok(0))]),
            Atom(Dot), Atom(Dot), Atom(Dot), Atom(IntTok(0)), Atom(IntTok(0)), Atom(Dot), Atom(Sym(typ))] + Dots(9))
  }

  lemma FieldDefIsWhole(env: Env, name: string, typ: string)
    requires IsLocalName(name)
    ensures var d := FieldDef(name, typ);
      LoadSym(env, d).Some? && LoadSym(env, d).value.kind == SkField && LoadSym(env, d).value.typ == Some(typ)
      && DefinesLocal(d) && NifLazy.LocalName(d) == name && LocalType(d) == Some(typ)
  {
    hide IsLocalName, ParseName, LoadAttrs, LoadAtoms;
    var d := FieldDef(name, typ);
    FieldDefParts(name, typ);
    assert LoadNode(env, Atom(Dot)) == Some(LNil);
  }

  /** It defines no local symbol but the field. */
  lemma FieldDefEnters(env: Env, name: string, typ: string)
    requires IsLocalName(name)
    ensures var d := FieldDef(name, typ);
      DefinesLocal(d) && Enter(env, d) == Register(env, d) && (Entered(env, d) <==> Knows(env, d))
  {
    hide IsLocalName, ParseName;
    var d := FieldDef(name, typ);
    assert d.kids[SD_ANNEX] == d.kids[SD_AST] == d.kids[SD_CONSTRAINT] == d.kids[SD_BODY] == Atom(Dot);
    forall e: Env ensures Enter(e, Atom(Dot)) == e && Entered(e, Atom(Dot)) {
    }
  }

  lemma FieldDefParts(name: string, typ: string)
    ensures var d := FieldDef(name, typ);
      LoadAttrs(SkField, d.kids[SD_MAGIC..SD_ANNEX]).Some? && LoadAtoms(d.kids[SD_LOC..SD_CONSTRAINT]).Some?
  {
    var d := FieldDef(name, typ);
    assert d.kids[SD_MAGIC..SD_ANNEX] == [Atom(Dot), Atom(Dot), Atom(Dot), Atom(IntTok(0)), Atom(IntTok(0))];
    assert d.kids[SD_LOC..SD_CONSTRAINT] == Dots(4) && Dots(4)[1..] == Dots(3) && Dots(3)[1..] == Dots(2) && Dots(2)[1..] == Dots(1) && Dots(1)[1..] == [];
    assert LoadAtoms([]).Some? && LoadAtoms(Dots(1)).Some? && LoadAtoms(Dots(2)).Some? && LoadAtoms(Dots(3)).Some? && LoadAtoms(Dots(4)).Some?;
  }

  /** A routine whose body defines a field that the son behind the body refers to. */
  function BodyDefines(name: string, typ: string): Tree
  {
    Branch(KindTag(NkRoutineDef(0)),
           Dots(2) + (Dots(BODY_POS) + [Branch(KindTag(NkInner(0)), Dots(2) + [FieldDef(name, typ)]), Atom(Sym(name))]))
  }

  function DefiningBody(name: string, typ: string): Tree
  {
    Branch(KindTag(NkInner(0)), Dots(2) + [FieldDef(name, typ)])
  }

  lemma BodyShape(name: string, typ: string)
    ensures var t, body := BodyDefines(name, typ), DefiningBody(name, typ);
      && t.kids[2..] == Dots(BODY_POS) + [body, Atom(Sym(name))] && t.kids[0] == t.kids[1] == Atom(Dot)
      && body.kids[2..] == [FieldDef(name, typ)] && body.kids[0] == body.kids[1] == Atom(Dot)
      && IsInnerTree(t) && IsInnerTree(body)
  {
    hide FieldDef;
  }

  lemma OneThread(env: Env, t: Tree)
    ensures ThreadAll(env, [t]) == (var r := Thread(env, t); if r.None? then None else Some(([r.value.0], r.value.1)))
    ensures LoadNodes(env, [t]) == (var r := LoadNode(env, t); if r.None? then None else Some([r.value]))
    ensures RegisteredAll(env, [t]) <==> Registered(env, t)
    ensures ScanAll(env, [t]) == Scan(env, t)
  {
    hide Thread, LoadNode, Registered, Scan;
    assert [t][1..] == [];
    if Thread(env, t).Some? {
      assert ThreadAll(Thread(env, t).value.1, []) == Some(([], Thread(env, t).value.1));
      assert [Thread(env, t).value.0] + [] == [Thread(env, t).value.0];
    }
    assert LoadNodes(env, []) == Some([]);
    if LoadNode(env, t).Some? { assert [LoadNode(env, t).value] + [] == [LoadNode(env, t).value]; }
    assert RegisteredAll(env, []) && forall e :: ScanAll(e, []) == e;
  }

  /** The body defines the field, and loads in every environment. */
  lemma BodyThreads(env: Env, name: string, typ: string)
    requires IsLocalName(name)
    ensures var body, def := DefiningBody(name, typ), FieldDef(name, typ);
      && DefinesLocal(def) && NifLazy.LocalName(def) == name && LocalType(def) == Some(typ)
      && Thread(env, body).Some? && Thread(env, body).value.1 == Register(env, def)
      && LoadNode(env, body).Some?
  {
    hide IsLocalName, FieldDef, LoadSym, Enter;
    var def, body := FieldDef(name, typ), DefiningBody(name, typ);
    FieldDefIsWhole(env, name, typ);
    BodyShape(name, typ);
    FieldDefEnters(env, name, typ);
    assert LoadNode(env, def) == LoadBranch(env, def.tag, def.kids) == LoadDefSym(env, def.kids) == Some(LSym(name, Some(typ), true));
    assert Thread(env, def) == Some((LSym(name, Some(typ), true), Register(env, def)));
    OneThread(env, def);
    InnerTreeLoads(env, body);
  }

  lemma {:induction false} ForcedAt(ps: seq<PNode>, i: nat)
    requires ForcedAll(ps).Some? && i < |ps|
    ensures |ForcedAll(ps).value| == |ps| && Forced(ps[i]) == Some(ForcedAll(ps).value[i])
    decreases |ps|
  {
    hide Forced;
    if i > 0 {
      ForcedAt(ps[1..], i - 1);
    } else if |ps| > 1 {
      ForcedAt(ps[1..], 0);
    }
  }

  /** Loading eagerly, the reference behind the body has the field's type. */
  lemma EagerUse(env: Env, name: string, typ: string)
    requires IsLocalName(name)
    ensures var r := Thread(env, BodyDefines(name, typ));
      r.Some? && r.value.0.LInner? && |r.value.0.sons| == BODY_POS + 2 && r.value.0.sons[BODY_POS + 1] == LSym(name, Some(typ), false)
  {
    hide IsLocalName, FieldDef;
    BodyShape(name, typ);
    BodyThreads(env, name, typ);
    var body, use, known := DefiningBody(name, typ), Atom(Sym(name)), Register(env, FieldDef(name, typ));
    assert Thread(known, use) == Some((LSym(name, Some(typ), false), known));
    OneThread(known, use);
    assert [body, use][1..] == [use];
    DotsThread(env, BODY_POS, [body, use]);
  }

  /** Loading lazily, it has what the environment knows of the field. */
  lemma LazyUse(env: Env, name: string, typ: string)
    requires IsLocalName(name) && IsFieldNifName(name)
    ensures var r := LazyThread(env, BodyDefines(name, typ));
      r.Some? && r.value.0.Inner? && |r.value.0.sons| == BODY_POS + 2
      && r.value.0.sons[BODY_POS + 1] == Ready(LSym(name, if name in env.locals then env.locals[name] else None, false))
  {
    hide IsLocalName, IsFieldNifName, FieldDef;
    var body, use := DefiningBody(name, typ), Atom(Sym(name));
    var node := LSym(name, if name in env.locals then env.locals[name] else None, false);
    BodyShape(name, typ);
    assert LazyThread(env, use) == Some((Ready(node), env));
    assert [body, use][1..] == [use] && [use][1..] == [] && LazySons(env, NkRoutineDef(0), BODY_POS + 2, []) == Some(([], env));
    assert LazySons(env, NkRoutineDef(0), BODY_POS + 1, [use]) == Some(([Ready(node)] + [], env));
    var hole := Hole(NkInner(0), body, env);
    assert LazySons(env, NkRoutineDef(0), BODY_POS, [body, use]) == Some(([hole] + ([Ready(node)] + []), env));
    DotsLazy(env, BODY_POS, 0, [body, use]);
  }

  lemma BodyGrafts(name: string, typ: string)
    ensures BodiesGraft(BodyDefines(name, typ))
  {
    hide FieldDef;
    var body, use, def := DefiningBody(name, typ), Atom(Sym(name)), FieldDef(name, typ);
    BodyShape(name, typ);
    assert [body, use][1..] == [use] && [use][1..] == [] && [def][1..] == [];
    assert BodiesGraft(def) by { assert def.tag == SymDefTag by { DefTag(name, typ); } }
    assert SonsGraft(NkInner(0), 1, []) && SonsGraft(NkInner(0), 0, [def]) && BodiesGraft(body);
    assert SonsGraft(NkRoutineDef(0), BODY_POS + 2, []) && SonsGraft(NkRoutineDef(0), BODY_POS + 1, [use]);
    assert SonsGraft(NkRoutineDef(0), BODY_POS, [body, use]);
    DotsGraft(BODY_POS, 0, [body, use]);
  }

  lemma DefTag(name: string, typ: string)
    ensures FieldDef(name, typ).Branch? && FieldDef(name, typ).tag == SymDefTag
  {
  }

  /** The scan finds the field. */
  lemma ScanFinds(env: Env, name: string, typ: string)
    requires IsLocalName(name) && name !in env.locals
    ensures var t, known := BodyDefines(name, typ), Scan(env, BodyDefines(name, typ));
      known == env.(locals := env.locals[name := Some(typ)]) && Registered(known, t)
  {
    hide IsLocalName, FieldDef, Enter, Entered;
    var t, body, use, def := BodyDefines(name, typ), DefiningBody(name, typ), Atom(Sym(name)), FieldDef(name, typ);
    var known := env.(locals := env.locals[name := Some(typ)]);
    BodyShape(name, typ);
    BodyThreads(env, name, typ);
    DefTag(name, typ);
    FieldDefEnters(env, name, typ);
    FieldDefEnters(known, name, typ);
    assert Scan(env, def) == known;
    OneThread(env, def);
    OneThread(known, def);
    DotsRegistered(env, 2, [def]);
    assert body.kids == Dots(2) + [def];
    assert Scan(env, body) == known && Registered(known, body);
    OneThread(known, use);
    assert [body, use][1..] == [use];
    assert ScanAll(env, [body, use]) == known && RegisteredAll(known, [body, use]);
    DotsRegistered(env, BODY_POS, [body, use]);
    DotsRegistered(known, BODY_POS, [body, use]);
    DotsRegistered(env, 2, Dots(BODY_POS) + [body, use]);
    assert t.kids == Dots(2) + (Dots(BODY_POS) + [body, use]);
  }

  /** Without the scan, loading eagerly knows the field's type at the reference, and loading
      lazily does not, so that what the two give differs; with the scan they agree. */
  lemma ScanMatters(name: string, typ: string)
    requires IsLocalName(name) && IsFieldNifName(name)
    ensures var env, t := Env(map[], map[]), BodyDefines(name, typ);
      && Thread(env, t).Some? && LazyThread(env, t).Some? && BodiesGraft(t)
      && Forced(LazyThread(env, t).value.0) != Some(Thread(env, t).value.0)
      && var known := Scan(env, t);
         Thread(known, t).Some? && LazyThread(known, t).Some? && Forced(LazyThread(known, t).value.0) == Some(Thread(known, t).value.0)
  {
    hide IsLocalName, IsFieldNifName, BodyDefines, Thread, LazyThread, BodiesGraft, Registered, LoadNode, Scan;
    var env, t := Env(map[], map[]), BodyDefines(name, typ);
    var known := Scan(env, t);
    EagerUse(env, name, typ);
    LazyUse(env, name, typ);
    BodyGrafts(name, typ);
    var p := LazyThread(env, t).value.0;
    if Forced(p).Some? {
      ForcedAt(p.sons, BODY_POS + 1);
    }
    ScanFinds(env, name, typ);
    EagerUse(known, name, typ);
    ThreadKeeps(known, t);
    LazyForces(known, t);
  }
}
