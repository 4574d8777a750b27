/** Symbols, types and syntax trees as the serializer sees them: a graph whose nodes refer
    to symbols and types by number, with cycles. */
module NifGraph {
  import opened NifTokens
  import opened NifNames
  import opened Options

  type SymId = nat
  type TypeId = nat

  /** The flags of a node: the text that the flags without the comment flag are written
      as, and the comment flag. */
  datatype NodeFlags = NodeFlags(text: string, hasComment: bool)

  datatype Node =
    | NilNode
    | NoneNode
    | EmptyNode(flags: NodeFlags, typ: Option<TypeId>)
    | IdentNode(flags: NodeFlags, typ: Option<TypeId>, ident: string)
    | SymNode(flags: NodeFlags, lazyType: bool, typ: Option<TypeId>, sym: SymId)
    | IntNode(kind: NodeKind, flags: NodeFlags, typ: Option<TypeId>, intVal: int)
    | FloatNode(kind: NodeKind, flags: NodeFlags, typ: Option<TypeId>, bits: nat)
    | StrNode(kind: NodeKind, flags: NodeFlags, typ: Option<TypeId>, strVal: string)
    | NilLitNode(flags: NodeFlags, typ: Option<TypeId>)
    | InnerNode(kind: NodeKind, flags: NodeFlags, typ: Option<TypeId>, sons: seq<Node>)

  /** How the writer decides about a symbol: by its owner and its state, by the set of
      fields of the current record list, by the set of backend symbols, or by the set of
      package names. */
  datatype SymClass = Ordinary(owned: bool) | Field | Backend | Package(ident: string)

  datatype Lib = Lib(kind: nat, generated: bool, overridden: bool, name: string, path: Node)

  datatype SymInfo = SymInfo(
    name: string,
    cls: SymClass,
    kind: SymKind,
    exported: bool, fromGeneric: bool, pureEnumField: bool,
    guard: Option<SymId>, bitsize: int, alignment: int,
    magic: Option<string>, flags: string, options: string, offset: int, position: int,
    annex: Option<Lib>,
    typ: Option<TypeId>,
    owner: Option<SymId>,
    ast: Node,
    loc: seq<Tok>,
    constraint: Node,
    instantiatedFrom: Option<SymId>,
    transformedBody: Node)

  datatype TypeClass = OrdinaryType(owned: bool) | BackendType

  datatype TypeInfo = TypeInfo(
    name: string,
    cls: TypeClass,
    attrs: seq<Tok>,
    typeInst: Option<TypeId>,
    n: Node,
    owner: Option<SymId>,
    sym: Option<SymId>,
    loc: seq<Tok>,
    sons: seq<TypeId>)

  datatype Graph = Graph(syms: map<SymId, SymInfo>, types: map<TypeId, TypeInfo>)

  const NAME_POS := 0
  const PARAMS_POS := 3

  // ---------- well-formed graphs ----------

  predicate IsIntKind(k: NodeKind) { k.NkCharLit? || k.NkIntLit? || k.NkUIntLit? }

  /** A kind whose nodes have sons and no payload. Import, include and export statements
      are not among them. */
  predicate IsInnerKind(k: NodeKind)
  {
    k.NkRoutineDef? || k.NkLambda? || k.NkDo? || k.NkFormalParams? || k.NkInner?
  }

  predicate IsCallable(k: NodeKind) { k.NkRoutineDef? || k.NkLambda? || k.NkDo? }

  predicate TypOk(g: Graph, typ: Option<TypeId>) { typ.Some? ==> typ.value in g.types }

  predicate SymOk(g: Graph, sym: Option<SymId>) { sym.Some? ==> sym.value in g.syms }

  /** Does the writer write this routine as a mere reference to its symbol? */
  predicate BySymbol(n: Node, forAst: bool)
  {
    n.InnerNode? && n.kind.NkRoutineDef? && !forAst && |n.sons| > NAME_POS && n.sons[NAME_POS].SymNode?
  }

  /** A tree whose references lead into the graph, whose literals fit their kinds, and in
      which a routine that is written in full is its symbol's own ast. */
  predicate NodeOk(g: Graph, n: Node, forAst: bool)
  {
    match n
    case NilNode => true
    case NoneNode => true
    case EmptyNode(_, typ) => TypOk(g, typ)
    case IdentNode(_, typ, _) => TypOk(g, typ)
    case SymNode(_, _, typ, sym) => TypOk(g, typ) && sym in g.syms
    case IntNode(kind, _, typ, v) =>
      TypOk(g, typ) && IsIntKind(kind) && -0x8000_0000_0000_0000 <= v < 0x8000_0000_0000_0000
      && (kind.NkCharLit? ==> 0 <= v < 256)
    case FloatNode(kind, _, typ, _) => TypOk(g, typ) && kind.NkFloatLit?
    case StrNode(kind, _, typ, _) => TypOk(g, typ) && kind.NkStrLit?
    case NilLitNode(_, typ) => TypOk(g, typ)
    case InnerNode(kind, _, typ, sons) =>
      && TypOk(g, typ) && IsInnerKind(kind)
      && (forall i | 0 <= i < |sons| :: NodeOk(g, sons[i], forAst))
      && (IsCallable(kind) ==> |sons| > NAME_POS)
      && (IsCallable(kind) && !BySymbol(n, forAst) && sons[NAME_POS].SymNode? ==>
            sons[NAME_POS].sym in g.syms && g.syms[sons[NAME_POS].sym].ast in {NilNode, n})
      && (BySymbol(n, forAst) ==> sons[NAME_POS].sym in g.syms && !g.syms[sons[NAME_POS].sym].cls.Field?)
  }

  predicate PlainAtoms(toks: seq<Tok>)
  {
    forall t | t in toks :: !t.ParLe? && !t.ParRi? && !t.Sym? && !t.SymDef?
  }

  predicate IsLocalName(name: string) { ParseName(name).suffix == "" }

  predicate SymInfoOk(g: Graph, s: SymInfo)
  {
    && SymOk(g, s.guard) && TypOk(g, s.typ) && SymOk(g, s.owner) && SymOk(g, s.instantiatedFrom)
    && NodeOk(g, s.ast, true) && NodeOk(g, s.constraint, false) && NodeOk(g, s.transformedBody, false)
    && (s.annex.Some? ==> NodeOk(g, s.annex.value.path, false))
    && |s.loc| == 4 && PlainAtoms(s.loc)
    && s.magic != Some("") && (s.cls.Field? <==> s.kind.SkField?) && (s.cls.Field? <==> IsLocalName(s.name))
    && (s.cls.Field? ==> IsFieldNifName(s.name))
  }

  predicate TypeInfoOk(g: Graph, t: TypeInfo)
  {
    && TypOk(g, t.typeInst) && NodeOk(g, t.n, false) && SymOk(g, t.owner) && SymOk(g, t.sym)
    && |t.attrs| == 7 && PlainAtoms(t.attrs) && |t.loc| == 4 && PlainAtoms(t.loc)
    && forall i | 0 <= i < |t.sons| :: t.sons[i] in g.types
  }

  ghost predicate GraphOk(g: Graph)
  {
    && (forall s | s in g.syms :: SymInfoOk(g, g.syms[s]))
    && (forall t | t in g.types :: TypeInfoOk(g, g.types[t]))
  }

  function TypeRefOf(g: Graph, typ: Option<TypeId>): Option<string>
    requires TypOk(g, typ)
  {
    if typ.None? then None else Some(g.types[typ.value].name)
  }

  function SymRefOf(g: Graph, sym: Option<SymId>): Option<string>
    requires SymOk(g, sym)
  {
    if sym.None? then None else Some(g.syms[sym.value].name)
  }

  /** Can an importer use the bare identifier? */
  predicate Importable(s: SymInfo)
  {
    !s.kind.SkField? && !s.pureEnumField && s.exported && !s.fromGeneric
  }

  /** The type of a symbol node: its own, or its symbol's if it says so. */
  function NodeType(g: Graph, n: Node): Option<TypeId>
    requires n.SymNode? && n.sym in g.syms
  {
    if n.typ.None? && n.lazyType then g.syms[n.sym].typ else n.typ
  }
}
