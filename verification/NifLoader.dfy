/** The loader's view of the written trees: what a node, a symbol definition and a type
    definition read back as. References are names; a failed reading is None. */
module NifLoader {
  import opened NifTokens
  import opened NifNames
  import opened NifGraph
  import opened Options

  /** A loaded node. A symbol's tells whether it stands in the place of a definition. */
  datatype LNode =
    | LNil
    | LEmpty(flags: string, typ: Option<string>)
    | LIdent(flags: string, typ: Option<string>, ident: string)
    | LSym(name: string, typ: Option<string>, def: bool)
    | LInt(kind: NodeKind, flags: string, typ: Option<string>, intVal: int)
    | LFloat(kind: NodeKind, flags: string, typ: Option<string>, bits: nat)
    | LStr(kind: NodeKind, flags: string, typ: Option<string>, strVal: string)
    | LNilLit(flags: string, typ: Option<string>)
    | LInner(kind: NodeKind, flags: string, typ: Option<string>, sons: seq<LNode>)

  datatype LLib = LLib(kind: nat, generated: bool, overridden: bool, name: string, path: LNode)

  datatype LSymInfo = LSymInfo(
    name: string, exported: bool, kind: SymKind,
    guard: Option<string>, bitsize: int, alignment: int,
    magic: Option<string>, flags: string, options: string, offset: int, position: Option<int>,
    annex: Option<LLib>, typ: Option<string>, owner: Option<string>, ast: LNode, loc: seq<Tok>,
    constraint: LNode, instantiatedFrom: Option<string>, transformedBody: LNode)

  datatype LTypeInfo = LTypeInfo(
    name: string, attrs: seq<Tok>, typeInst: Option<string>, n: LNode, owner: Option<string>, sym: Option<string>,
    loc: seq<Tok>, sons: seq<Option<string>>)

  /** What is known when a tree is read: the types of the symbols with global names, and
      the types of the local symbols registered so far. */
  datatype Env = Env(symTypes: map<string, Option<string>>, locals: map<string, Option<string>>)

  // ---------- references ----------

  function LoadFlags(t: Tree): Option<string>
  {
    match t
    case Atom(Dot) => Some("")
    case Atom(Ident(text)) => Some(text)
    case _ => None
  }

  /** A type in a type slot: none, a use, or an inline definition. */
  function LoadTypeRef(t: Tree): Option<Option<string>>
  {
    match t
    case Atom(Dot) => Some(None)
    case Atom(Sym(name)) => Some(Some(name))
    case Branch(TypeDefTag, kids) =>
      if kids != [] && kids[0].Atom? && kids[0].tok.SymDef? then Some(Some(kids[0].tok.name)) else None
    case _ => None
  }

  /** A symbol in a symbol slot: none, a use, or an inline definition. */
  function LoadSymRef(t: Tree): Option<Option<string>>
  {
    match t
    case Atom(Dot) => Some(None)
    case Atom(Sym(name)) => Some(Some(name))
    case Branch(SymDefTag, kids) =>
      if kids != [] && kids[0].Atom? && kids[0].tok.SymDef? then Some(Some(kids[0].tok.name)) else None
    case _ => None
  }

  // The children of a symbol definition.
  const SD_KIND := 2
  const SD_MAGIC := 3
  const SD_ANNEX := 8
  const SD_TYPE := 9
  const SD_OWNER := 10
  const SD_AST := 11
  const SD_LOC := 12
  const SD_CONSTRAINT := 16
  const SD_INST := 17
  const SD_BODY := 18
  const SD_COUNT := 19

  /** The type of a name met as a use: a registered local's, none for a field that is not
      registered, and the indexed symbol's for a global name. */
  function UseType(env: Env, name: string): Option<Option<string>>
  {
    if name in env.locals then Some(env.locals[name])
    else if IsLocalName(name) then (if IsFieldNifName(name) then Some(None) else None)
    else if name in env.symTypes then Some(env.symTypes[name])
    else None
  }

  /** The name and the type that an inline definition gives its node: a local symbol is
      loaded on the spot, a global one is looked up. */
  function LoadDefSym(env: Env, kids: seq<Tree>): Option<LNode>
  {
    if kids == [] || !kids[0].Atom? || !kids[0].tok.SymDef? then None
    else
      var name := kids[0].tok.name;
      if IsLocalName(name) then
        if |kids| <= SD_TYPE then None
        else
          var typ :- LoadTypeRef(kids[SD_TYPE]);
          Some(LSym(name, typ, true))
      else
        var typ :- UseType(env, name);
        Some(LSym(name, typ, true))
  }

  // ---------- nodes ----------

  /** The `int64` that a `uint64` is the bit pattern of. */
  function AsInt64(u: nat): int
  {
    if u < 0x8000_0000_0000_0000 then u else u - 0x1_0000_0000_0000_0000
  }

  function AsUInt64(i: int): nat
    requires -0x8000_0000_0000_0000 <= i
  {
    if i >= 0 then i else i + 0x1_0000_0000_0000_0000
  }

  function LoadNode(env: Env, t: Tree): Option<LNode>
    decreases t, 0
  {
    match t
    case Atom(Sym(name)) =>
      var typ :- UseType(env, name);
      Some(LSym(name, typ, false))
    case Atom(Dot) => Some(LNil)
    case Atom(Str(text)) => Some(LStr(NkStrLit(0), "", None, text))
    case Atom(_) => None
    case Branch(tag, kids) => LoadBranch(env, tag, kids)
  }

  function LoadBranch(env: Env, tag: Tag, kids: seq<Tree>): Option<LNode>
    decreases kids, 2
  {
    if tag.HiddenType? then LoadHidden(kids)
    else if tag.SymDefTag? then LoadDefSym(env, kids)
    else if !tag.KindTag? then None
    else if tag.node.NkNone? then
      // the flags are demanded, and dropped with the kind
      if kids == [] then None else var flags :- LoadFlags(kids[0]); Some(LInner(NkNone, flags, None, []))
    else if tag.node.NkEmpty? && kids == [] then Some(LEmpty("", None))
    else if |kids| < 2 then None
    else
      var flags :- LoadFlags(kids[0]);
      var typ :- LoadTypeRef(kids[1]);
      LoadPayload(env, tag.node, flags, typ, kids[2..])
  }

  /** A symbol node with its type in front. */
  function LoadHidden(kids: seq<Tree>): Option<LNode>
  {
    if |kids| != 2 then None
    else
      var typ :- LoadTypeRef(kids[0]);
      var sym :- LoadSymRef(kids[1]);
      if sym.None? then None else Some(LSym(sym.value, typ, kids[1].Branch?))
  }

  function LoadPayload(env: Env, kind: NodeKind, flags: string, typ: Option<string>, rest: seq<Tree>): Option<LNode>
    decreases rest, 1
  {
    match kind
    case NkEmpty => if rest == [] then Some(LEmpty(flags, typ)) else None
    case NkNilLit => if rest == [] then Some(LNilLit(flags, typ)) else None
    case NkSym => None
    case NkNone => None
    case NkIdent =>
      if |rest| == 1 && rest[0].Atom? && rest[0].tok.Ident? then Some(LIdent(flags, typ, rest[0].tok.text)) else None
    case NkCharLit =>
      if |rest| == 1 && rest[0].Atom? && rest[0].tok.CharTok? then Some(LInt(kind, flags, typ, rest[0].tok.code)) else None
    case NkIntLit(_) =>
      if |rest| == 1 && rest[0].Atom? && rest[0].tok.IntTok? then Some(LInt(kind, flags, typ, rest[0].tok.ival)) else None
    case NkUIntLit(_) =>
      if |rest| == 1 && rest[0].Atom? && rest[0].tok.UIntTok? then Some(LInt(kind, flags, typ, AsInt64(rest[0].tok.uval))) else None
    case NkFloatLit(_) =>
      if |rest| == 1 && rest[0].Atom? && rest[0].tok.FloatTok? then Some(LFloat(kind, flags, typ, rest[0].tok.bits)) else None
    case NkStrLit(_) =>
      if |rest| == 1 && rest[0].Atom? && rest[0].tok.Str? then Some(LStr(kind, flags, typ, rest[0].tok.text)) else None
    case _ =>
      var sons :- LoadNodes(env, rest);
      Some(LInner(kind, flags, typ, sons))
  }

  function LoadNodes(env: Env, ts: seq<Tree>): Option<seq<LNode>>
    decreases ts, 0
  {
    if ts == [] then Some([])
    else
      var head :- LoadNode(env, ts[0]);
      var tail :- LoadNodes(env, ts[1..]);
      Some([head] + tail)
  }

  // ---------- symbols and types ----------

  function LoadInt(t: Tree): Option<int>
  {
    if t.Atom? && t.tok.IntTok? then Some(t.tok.ival) else None
  }

  function LoadOptIdent(t: Tree): Option<Option<string>>
  {
    match t
    case Atom(Dot) => Some(None)
    case Atom(Ident(text)) => Some(Some(text))
    case _ => None
  }

  function LoadBool(t: Tree): Option<bool>
  {
    if t.Branch? && t.tag.BoolTag? then Some(t.tag.value) else None
  }

  predicate HasGuard(kind: SymKind) { kind.SkLet? || kind.SkVar? || kind.SkField? || kind.SkForVar? }

  function LoadAnnex(env: Env, t: Tree): Option<Option<LLib>>
  {
    match t
    case Atom(Dot) => Some(None)
    case Branch(LibTag(kind), kids) =>
      if |kids| != 4 || !kids[2].Atom? || !kids[2].tok.Str? then None
      else
        var generated :- LoadBool(kids[0]);
        var overridden :- LoadBool(kids[1]);
        var path :- LoadNode(env, kids[3]);
        Some(Some(LLib(kind, generated, overridden, kids[2].tok.text, path)))
    case _ => None
  }

  /** The guard, the bit size and the alignment inside a kind's subtree. */
  function LoadGuard(t: Tree): Option<(SymKind, Option<string>, int, int)>
  {
    if !t.Branch? || !t.tag.SymKindTag? then None
    else if !HasGuard(t.tag.sym) then Some((t.tag.sym, None, 0, 0))
    else if |t.kids| != 3 then None
    else
      var guard :- LoadSymRef(t.kids[0]);
      var bitsize :- LoadInt(t.kids[1]);
      var alignment :- LoadInt(t.kids[2]);
      Some((t.tag.sym, guard, bitsize, alignment))
  }

  /** The position slot: a dot for a module, which gets its position from the loader. */
  function LoadPosition(kind: SymKind, t: Tree): Option<Option<int>>
  {
    if kind.SkModule? then (if t == Atom(Dot) then Some(None) else None)
    else var position :- LoadInt(t); Some(Some(position))
  }

  function LoadMarker(t: Tree): Option<bool>
  {
    if t == Atom(Ident("x")) then Some(true) else if t == Atom(Dot) then Some(false) else None
  }

  /** The plain attributes of a symbol: magic, flags, options, offset and position. */
  function LoadAttrs(kind: SymKind, ts: seq<Tree>): Option<(Option<string>, string, string, int, Option<int>)>
    requires |ts| == 5
  {
    var magic :- LoadOptIdent(ts[0]);
    var flags :- LoadFlags(ts[1]);
    var options :- LoadFlags(ts[2]);
    var offset :- LoadInt(ts[3]);
    var position :- LoadPosition(kind, ts[4]);
    Some((magic, flags, options, offset, position))
  }

  function Atoms(toks: seq<Tok>): seq<Tree>
  {
    seq(|toks|, i requires 0 <= i < |toks| => Atom(toks[i]))
  }

  /** The atoms of a location, read as they are. */
  function LoadAtoms(ts: seq<Tree>): Option<seq<Tok>>
  {
    if ts == [] then Some([])
    else if !ts[0].Atom? then None
    else var tail :- LoadAtoms(ts[1..]); Some([ts[0].tok] + tail)
  }

  function LoadSym(env: Env, t: Tree): Option<LSymInfo>
  {
    if !t.Branch? || !t.tag.SymDefTag? || |t.kids| != SD_COUNT || !t.kids[0].Atom? || !t.kids[0].tok.SymDef? then None
    else
      var exported :- LoadMarker(t.kids[1]);
      var (kind, guard, bitsize, alignment) :- LoadGuard(t.kids[SD_KIND]);
      var (magic, flags, options, offset, position) :- LoadAttrs(kind, t.kids[SD_MAGIC..SD_ANNEX]);
      var annex :- LoadAnnex(env, t.kids[SD_ANNEX]);
      var typ :- LoadTypeRef(t.kids[SD_TYPE]);
      var owner :- LoadSymRef(t.kids[SD_OWNER]);
      var ast :- LoadNode(env, t.kids[SD_AST]);
      var loc :- LoadAtoms(t.kids[SD_LOC..SD_CONSTRAINT]);
      var constraint :- LoadNode(env, t.kids[SD_CONSTRAINT]);
      var instantiatedFrom :- LoadSymRef(t.kids[SD_INST]);
      var transformedBody :- LoadNode(env, t.kids[SD_BODY]);
      Some(LSymInfo(t.kids[0].tok.name, exported, kind, guard, bitsize, alignment, magic, flags, options, offset, position,
                    annex, typ, owner, ast, loc, constraint, instantiatedFrom, transformedBody))
  }

  // The children of a type definition; the element types follow the location.
  const TD_ATTRS := 2
  const TD_INST := 9
  const TD_NODE := 10
  const TD_OWNER := 11
  const TD_SYM := 12
  const TD_LOC := 13
  const TD_SONS := 17

  function LoadTypeRefs(ts: seq<Tree>): Option<seq<Option<string>>>
  {
    if ts == [] then Some([])
    else
      var head :- LoadTypeRef(ts[0]);
      var tail :- LoadTypeRefs(ts[1..]);
      Some([head] + tail)
  }

  function LoadType(env: Env, t: Tree): Option<LTypeInfo>
  {
    if !t.Branch? || !t.tag.TypeDefTag? || |t.kids| < TD_SONS || !t.kids[0].Atom? || !t.kids[0].tok.SymDef?
       || t.kids[1] != Atom(Dot) then None
    else
      var attrs :- LoadAtoms(t.kids[TD_ATTRS..TD_INST]);
      var typeInst :- LoadTypeRef(t.kids[TD_INST]);
      var n :- LoadNode(env, t.kids[TD_NODE]);
      var owner :- LoadSymRef(t.kids[TD_OWNER]);
      var sym :- LoadSymRef(t.kids[TD_SYM]);
      var loc :- LoadAtoms(t.kids[TD_LOC..TD_SONS]);
      var sons :- LoadTypeRefs(t.kids[TD_SONS..]);
      Some(LTypeInfo(t.kids[0].tok.name, attrs, typeInst, n, owner, sym, loc, sons))
  }

  // ---------- what a graph's nodes are to read back as ----------

  /** Is the parameter list of this routine replaced by an empty node? */
  predicate SkipsParams(g: Graph, kind: NodeKind, sons: seq<Node>)
  {
    kind.NkRoutineDef? && |sons| > NAME_POS && sons[NAME_POS].SymNode? && sons[NAME_POS].sym in g.syms
    && g.syms[sons[NAME_POS].sym].ast != NilNode && g.syms[sons[NAME_POS].sym].typ.Some?
  }

  /** Everything that the writer writes in full is free of `nkNone`. */
  predicate Loadable(g: Graph, n: Node, forAst: bool)
  {
    match n
    case NoneNode => false
    case InnerNode(kind, _, _, sons) =>
      BySymbol(n, forAst) || forall i | 0 <= i < |sons| && !(SkipsParams(g, kind, sons) && i == PARAMS_POS) ::
        Loadable(g, sons[i], forAst)
    case _ => true
  }

  /** A loaded node is what a node of the graph is to come back as: the same tree, with the
      comment flag dropped everywhere, all flags dropped on an empty node without a type
      and on symbol nodes, references replaced by names, and the parameter list of a typed
      routine replaced by an empty node. A field's node without a type comes back with the
      field's type, unless the field is defined in its place. */
  ghost predicate Matches(g: Graph, n: Node, forAst: bool, l: LNode)
    requires GraphOk(g) && NodeOk(g, n, forAst)
    decreases n
  {
    match n
    case NilNode => l == LNil
    case NoneNode => false
    case EmptyNode(flags, typ) => l == LEmpty(if typ.None? then "" else flags.text, TypeRefOf(g, typ))
    case IdentNode(flags, typ, ident) => l == LIdent(flags.text, TypeRefOf(g, typ), ident)
    case SymNode(_, _, _, sym) =>
      var typ := if n.typ.None? && n.lazyType then g.syms[sym].typ else n.typ;
      l.LSym? && l.name == g.syms[sym].name &&
      l.typ == TypeRefOf(g, if g.syms[sym].cls.Field? && typ.None? && !l.def then g.syms[sym].typ else typ)
    case IntNode(kind, flags, typ, v) => l == LInt(kind, flags.text, TypeRefOf(g, typ), v)
    case FloatNode(kind, flags, typ, bits) => l == LFloat(kind, flags.text, TypeRefOf(g, typ), bits)
    case StrNode(kind, flags, typ, text) => l == LStr(kind, flags.text, TypeRefOf(g, typ), text)
    case NilLitNode(flags, typ) => l == LNilLit(flags.text, TypeRefOf(g, typ))
    case InnerNode(kind, flags, typ, sons) =>
      if BySymbol(n, forAst) then
        var sym := sons[NAME_POS].sym;
        l.LSym? && l.name == g.syms[sym].name && l.typ == TypeRefOf(g, g.syms[sym].typ)
      else
        l.LInner? && l.kind == kind && l.flags == flags.text && l.typ == TypeRefOf(g, typ) && |l.sons| == |sons|
        && forall i | 0 <= i < |sons| ::
             if SkipsParams(g, kind, sons) && i == PARAMS_POS then l.sons[i] == LEmpty("", None)
             else Matches(g, sons[i], forAst, l.sons[i])
  }

  /** The environment knows the types of all symbols with global names. */
  ghost predicate EnvOk(g: Graph, env: Env)
    requires GraphOk(g)
  {
    && (forall s | s in g.syms && !g.syms[s].cls.Field? ::
          g.syms[s].name in env.symTypes && env.symTypes[g.syms[s].name] == TypeRefOf(g, g.syms[s].typ))
    && forall n | n in env.locals :: IsLocalName(n)
  }

  /** Reading back a node's tree gives what the node is to come back as, and fails exactly
      if there is an `nkNone` in it. */
  ghost predicate NodeReads(g: Graph, env: Env, n: Node, forAst: bool, t: Tree)
    requires GraphOk(g) && NodeOk(g, n, forAst)
  {
    var r := LoadNode(env, t);
    if Loadable(g, n, forAst) then r.Some? && Matches(g, n, forAst, r.value) else r.None?
  }

  predicate SymLoadable(g: Graph, s: SymInfo)
  {
    && Loadable(g, s.ast, true) && Loadable(g, s.constraint, false)
    && (s.kind.SkRoutine? ==> Loadable(g, s.transformedBody, false))
    && (s.annex.Some? ==> Loadable(g, s.annex.value.path, false))
  }

  ghost predicate AnnexMatches(g: Graph, a: Option<Lib>, l: Option<LLib>)
    requires GraphOk(g) && (a.Some? ==> NodeOk(g, a.value.path, false))
  {
    if a.None? then l.None? else
    l.Some? && l.value.kind == a.value.kind && l.value.generated == a.value.generated
    && l.value.overridden == a.value.overridden && l.value.name == a.value.name
    && Matches(g, a.value.path, false, l.value.path)
  }

  /** What a symbol is to come back as: everything of it, except that the position of a
      module is left to the loader, that of a variable is reset, only a variable has a
      guard, and only a routine a transformed body. */
  ghost predicate SymMatches(g: Graph, s: SymInfo, l: LSymInfo)
    requires GraphOk(g) && SymInfoOk(g, s)
  {
    && l.name == s.name && l.kind == s.kind
    && l.exported == Importable(s)
    && (HasGuard(s.kind) ==> l.guard == SymRefOf(g, s.guard) && l.bitsize == s.bitsize && l.alignment == s.alignment)
    && l.magic == s.magic && l.flags == s.flags && l.options == s.options && l.offset == s.offset
    && l.position == (if s.kind.SkModule? then None else Some(if ResetsPosition(s.kind) then 0 else s.position))
    && AnnexMatches(g, s.annex, l.annex)
    && l.typ == TypeRefOf(g, s.typ) && l.owner == SymRefOf(g, s.owner) && l.instantiatedFrom == SymRefOf(g, s.instantiatedFrom)
    && Matches(g, s.ast, true, l.ast) && Matches(g, s.constraint, false, l.constraint) && l.loc == s.loc
    && (if s.kind.SkRoutine? then Matches(g, s.transformedBody, false, l.transformedBody) else l.transformedBody == LNil)
  }

  predicate ResetsPosition(kind: SymKind) { kind.SkVar? || kind.SkLet? || kind.SkForVar? || kind.SkResult? }

  ghost predicate SymReads(g: Graph, env: Env, s: SymInfo, t: Tree)
    requires GraphOk(g) && SymInfoOk(g, s)
  {
    var r := LoadSym(env, t);
    if SymLoadable(g, s) then r.Some? && SymMatches(g, s, r.value) else r.None?
  }

  ghost predicate TypeMatches(g: Graph, t: TypeInfo, l: LTypeInfo)
    requires GraphOk(g) && TypeInfoOk(g, t)
  {
    && l.name == t.name && l.attrs == t.attrs && l.loc == t.loc
    && l.typeInst == TypeRefOf(g, t.typeInst) && l.owner == SymRefOf(g, t.owner) && l.sym == SymRefOf(g, t.sym)
    && Matches(g, t.n, false, l.n)
    && |l.sons| == |t.sons| && forall i | 0 <= i < |t.sons| :: l.sons[i] == Some(g.types[t.sons[i]].name)
  }

  ghost predicate TypeReads(g: Graph, env: Env, t: TypeInfo, tree: Tree)
    requires GraphOk(g) && TypeInfoOk(g, t)
  {
    var r := LoadType(env, tree);
    if Loadable(g, t.n, false) then r.Some? && TypeMatches(g, t, r.value) else r.None?
  }
}
