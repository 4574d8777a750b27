/** Why no two entities of a module are written under the same name: the names come from
    identifiers, numbers and items that one front-end and one backend generator hand out. */
module NifNaming {
  import opened Decimal
  import opened NifNames
  import opened NifGraph
  import opened NifDefinitions
  import opened NifIds

  /** What the symbols and types of a graph are named after. */
  datatype Idents = Idents(syms: map<SymId, SymIdent>, types: map<TypeId, TypeIdent>)

  /** Every entity has the name that the writer makes of its identity, and the class that
      goes with it: own symbols and types have the current module as their home. */
  ghost predicate NamedAs(g: Graph, ids: Idents, current: nat, modname: nat -> string)
  {
    && ids.syms.Keys == g.syms.Keys && ids.types.Keys == g.types.Keys
    && (forall s | s in g.syms :: SymNamedAs(g.syms[s], ids.syms[s], current, modname))
    && (forall t | t in g.types :: TypeNamedAs(g.types[t], ids.types[t], current, modname))
  }

  predicate SymNamedAs(s: SymInfo, id: SymIdent, current: nat, modname: nat -> string)
  {
    && s.name == ToNifSymName(id, current, modname)
    && match s.cls
       case Field => id.kind.FieldName? && !id.backend
       case Package(_) => id.kind.PackageName? && !id.backend
       case Backend => id.kind.PlainName? && id.backend
       case Ordinary(owned) => id.kind.PlainName? && !id.backend && (owned <==> id.home == current)
  }

  predicate TypeNamedAs(t: TypeInfo, id: TypeIdent, current: nat, modname: nat -> string)
  {
    && t.name == ToNifTypeName(id, current, modname)
    && match t.cls
       case BackendType => id.backend
       case OrdinaryType(owned) => !id.backend && (owned <==> id.home == current)
  }

  /** What a name says besides the module's suffix: an identifier with its marker, whether the
      backend made the entity, and a number. */
  function Mark(id: SymIdent): (string, bool, nat) { (MarkedIdent(id), id.backend, NameCount(id)) }

  function TypeMark(id: TypeIdent): (string, bool, nat) { ("`t" + Numeral(id.kind), id.backend, id.item) }

  /** Own symbols, and packages, which carry the suffix of every module that names them. */
  predicate NamedHere(cls: SymClass) { IsOwn(cls) || cls.Package? }

  predicate IsOwn(cls: SymClass) { cls.Backend? || cls == Ordinary(true) }

  predicate IsOwnType(cls: TypeClass) { cls.BackendType? || cls == OrdinaryType(true) }

  function KeyMark(g: Graph, ids: Idents, k: Key): (string, bool, nat)
    requires ids.syms.Keys == g.syms.Keys && ids.types.Keys == g.types.Keys && Tracked(g, k)
  {
    match k
    case SymKey(s) => Mark(ids.syms[s])
    case TypeKey(t) => TypeMark(ids.types[t])
  }

  /** Nothing else that is named after this module has the mark of an own entity. */
  ghost predicate MarksDiffer(g: Graph, ids: Idents)
    requires ids.syms.Keys == g.syms.Keys && ids.types.Keys == g.types.Keys
  {
    && (forall k, s | Tracked(g, k) && s in g.syms :: NamedHere(g.syms[s].cls) && Mark(ids.syms[s]) == KeyMark(g, ids, k) ==> k == SymKey(s))
    && (forall k, t | Tracked(g, k) && t in g.types :: IsOwnType(g.types[t].cls) && TypeMark(ids.types[t]) == KeyMark(g, ids, k) ==> k == TypeKey(t))
  }

  /** The names of a module's own entities are theirs alone if and only if nothing that is named
      after this module has the mark of another own entity. Whatever their identifiers are, no
      symbol or type of another module and no field can take one of these names. */
  lemma NamesDistinctExactly(g: Graph, ids: Idents, current: nat, modname: nat -> string, register: string -> nat)
    requires Registry(modname, register) && NamedAs(g, ids, current, modname)
    ensures NamesDistinct(g) <==> MarksDiffer(g, ids)
  {
    hide Registry, SymNamedAs, TypeNamedAs, Mark, TypeMark;
    forall k, s | Tracked(g, k) && s in g.syms
      ensures g.syms[s].name == KeyName(g, k) <==> NamedHere(g.syms[s].cls) && Mark(ids.syms[s]) == KeyMark(g, ids, k)
    {
      match k
      case SymKey(o) => SymNamesMeet(g.syms[o], g.syms[s], ids.syms[o], ids.syms[s], current, modname, register);
      case TypeKey(o) => SymMeetsType(g.syms[s], g.types[o], ids.syms[s], ids.types[o], current, modname, register);
    }
    forall k, t | Tracked(g, k) && t in g.types
      ensures g.types[t].name == KeyName(g, k) <==> IsOwnType(g.types[t].cls) && TypeMark(ids.types[t]) == KeyMark(g, ids, k)
    {
      match k
      case SymKey(o) => SymMeetsType(g.syms[o], g.types[t], ids.syms[o], ids.types[t], current, modname, register);
      case TypeKey(o) => TypeNamesMeet(g.types[o], g.types[t], ids.types[o], ids.types[t], current, modname, register);
    }
  }

  lemma SymNamesMeet(s: SymInfo, t: SymInfo, a: SymIdent, b: SymIdent, current: nat, modname: nat -> string, register: string -> nat)
    requires Registry(modname, register) && IsOwn(s.cls)
    requires SymNamedAs(s, a, current, modname) && SymNamedAs(t, b, current, modname)
    ensures t.name == s.name <==> NamedHere(t.cls) && Mark(b) == Mark(a)
  {
    SymNamesEqual(a, b, current, modname, register);
  }

  lemma TypeNamesMeet(s: TypeInfo, t: TypeInfo, a: TypeIdent, b: TypeIdent, current: nat, modname: nat -> string, register: string -> nat)
    requires Registry(modname, register) && IsOwnType(s.cls)
    requires TypeNamedAs(s, a, current, modname) && TypeNamedAs(t, b, current, modname)
    ensures t.name == s.name <==> IsOwnType(t.cls) && TypeMark(b) == TypeMark(a)
  {
    TypeStubReadsBack(a, current, modname, register);
    TypeStubReadsBack(b, current, modname, register);
    KindsDiffer(a.kind, b.kind);
  }

  lemma KindsDiffer(k: nat, l: nat)
    ensures "`t" + Numeral(k) == "`t" + Numeral(l) <==> k == l
  {
    assert ("`t" + Numeral(k))[2..] == Numeral(k) && ("`t" + Numeral(l))[2..] == Numeral(l);
    if Numeral(k) == Numeral(l) { NumeralInjective(k, l); }
  }

  /** A symbol and a type have one name, one of them being this module's own, if and only if
      both are named after this module and have the same mark. */
  lemma SymMeetsType(s: SymInfo, t: TypeInfo, a: SymIdent, b: TypeIdent, current: nat, modname: nat -> string, register: string -> nat)
    requires Registry(modname, register) && (IsOwn(s.cls) || IsOwnType(t.cls))
    requires SymNamedAs(s, a, current, modname) && TypeNamedAs(t, b, current, modname)
    ensures s.name == t.name <==> NamedHere(s.cls) && IsOwnType(t.cls) && Mark(a) == TypeMark(b)
  {
    hide ToNifSymName, ToNifTypeName, ParseName, GlobalForm, Numeral, StripBkSuffix, SuffixOk;
    SymNameParses(a, current, modname, register);
    TypeNameParses(b, current, modname, register);
    if !a.kind.FieldName? { SuffixTellsHome(a, current, modname, register); }
  }

  function TypeSuffix(t: TypeIdent, current: nat, modname: nat -> string): string
  {
    if t.backend then modname(current) + BACKEND_MARKER else if t.home < 0 then SYS_SUFFIX else modname(t.home)
  }

  /** The name of a type, read as that of a symbol. */
  lemma TypeNameParses(t: TypeIdent, current: nat, modname: nat -> string, register: string -> nat)
    requires Registry(modname, register)
    ensures var suffix := TypeSuffix(t, current, modname);
      && ToNifTypeName(t, current, modname) == GlobalForm("`t" + Numeral(t.kind), t.item, suffix)
      && ParseName(ToNifTypeName(t, current, modname)) == ParsedSymName("`t" + Numeral(t.kind), suffix, t.item)
      && suffix != "" && StripBkSuffix(suffix) == (t.backend, if t.backend then modname(current) else suffix)
      && (!t.backend && t.home < 0 ==> forall m: nat :: suffix != modname(m))
  {
    var suffix := TypeSuffix(t, current, modname);
    assert SuffixOk(modname(current)) && (t.home >= 0 ==> SuffixOk(modname(t.home)));
    BackendSuffixOk(modname(current));
    assert SuffixOk(SYS_SUFFIX) && SYS_SUFFIX[0] == '@' && SYS_SUFFIX[3] == 's' && BACKEND_MARKER[2] == 'k';
    TailChars(SYS_SUFFIX, BACKEND_MARKER);
    GlobalFormReadsBack("`t" + Numeral(t.kind), t.item, suffix);
  }

  /** Why identifiers must not start like the name of a type: such a symbol has that name. */
  lemma TypeNameTaken(kind: nat, item: nat, current: nat, modname: nat -> string, register: string -> nat)
    requires Registry(modname, register)
    ensures ToNifSymName(SymIdent(PlainName, "`t" + Numeral(kind), item, current, 0, 0, false), current, modname)
         == ToNifTypeName(TypeIdent(kind, current, item, false), current, modname)
  {
    TypeNameParses(TypeIdent(kind, current, item, false), current, modname, register);
  }

  /** What the writer and the loader take for granted of names: those of fields, and no others,
      have no suffix, and the loader knows them as such. */
  lemma FieldsAreLocal(s: SymInfo, id: SymIdent, current: nat, modname: nat -> string, register: string -> nat)
    requires Registry(modname, register) && SymNamedAs(s, id, current, modname)
    ensures (s.cls.Field? <==> IsLocalName(s.name)) && (s.cls.Field? <==> IsFieldNifName(s.name))
  {
    FieldNamesAreTold(id, current, modname, register);
    SymNameParses(id, current, modname, register);
    if !id.kind.FieldName? { SuffixTellsHome(id, current, modname, register); }
  }

  /** Does an identifier end like that of a package, or start like the name of a type? */
  predicate Free(ident: string) { !EndsWith(ident, PKG_MARKER) && !StartsLikeType(ident) }

  /** Own symbols with such identifiers and different marks, and own types with different
      marks, have no marks in common with each other or with packages. */
  lemma FreeMarks(g: Graph, ids: Idents, current: nat, modname: nat -> string)
    requires NamedAs(g, ids, current, modname)
    requires forall s | Tracked(g, SymKey(s)) :: Free(ids.syms[s].ident)
    requires forall s, t | Tracked(g, SymKey(s)) && Tracked(g, SymKey(t)) && s != t :: Mark(ids.syms[s]) != Mark(ids.syms[t])
    requires forall s, t | Tracked(g, TypeKey(s)) && Tracked(g, TypeKey(t)) && s != t :: TypeMark(ids.types[s]) != TypeMark(ids.types[t])
    ensures MarksDiffer(g, ids)
  {
    hide ToNifSymName, ToNifTypeName, EndsWith, StartsLikeType, TypeMark;
    forall k, s | Tracked(g, k) && s in g.syms && NamedHere(g.syms[s].cls) && Mark(ids.syms[s]) == KeyMark(g, ids, k) ensures k == SymKey(s) {
      PackageMark(ids.syms[s]);
      if k.TypeKey? { TypeMarkShape(ids.types[k.t]); }
    }
    forall k, t | Tracked(g, k) && t in g.types && IsOwnType(g.types[t].cls) && TypeMark(ids.types[t]) == KeyMark(g, ids, k) ensures k == TypeKey(t) {
      TypeMarkShape(ids.types[t]);
    }
  }

  lemma PackageMark(id: SymIdent)
    ensures id.kind.PackageName? ==> EndsWith(MarkedIdent(id), PKG_MARKER)
  {
    EndsWithAppend(id.ident, PKG_MARKER);
  }

  lemma TypeMarkShape(id: TypeIdent)
    ensures StartsLikeType(TypeMark(id).0) && !EndsWith(TypeMark(id).0, PKG_MARKER)
  {
    var text := TypeMark(id).0;
    assert text[..2] == "`t" && IsDigit(text[|text| - 1]) by { assert text[|text| - 1] == Numeral(id.kind)[|Numeral(id.kind)| - 1]; }
    TailChars(text, PKG_MARKER);
    assert PKG_MARKER[3] == 'g';
  }

  // ---------- where the marks come from ----------

  /** No two of the draws have the same mark. */
  predicate SymsDiffer(draws: seq<SymIdent>)
  {
    forall i, j | 0 <= i < j < |draws| :: Mark(draws[i]) != Mark(draws[j])
  }

  predicate TypesDiffer(draws: seq<TypeIdent>)
  {
    forall i, j | 0 <= i < j < |draws| :: TypeMark(draws[i]) != TypeMark(draws[j])
  }

  /** Draws symbols of the given identifiers. Their marks differ from each other, and from
      the mark of the module's own symbol. */
  method MintSyms(gen: IdGenerator, program: DecodeContext, idents: seq<string>) returns (draws: seq<SymIdent>)
    requires gen.Valid() && program.Valid() && gen.home >= 0 && gen.symId >= 0
    modifies gen`symId, gen`disambTable, gen`made, program`mods, program`syms
    ensures gen.Valid() && program.Valid() && |draws| == |idents|
    ensures forall i | 0 <= i < |draws| :: draws[i].ident == idents[i] && draws[i].kind == PlainName
                                        && draws[i].home == gen.home && draws[i].backend == gen.backendMinted
    ensures SymsDiffer(draws)
    ensures gen.reserved.Some? && !gen.backendMinted ==> forall d | d in draws :: Mark(d) != (gen.reserved.value, false, 0)
  {
    draws := [];
    ghost var loaded := gen.home in program.mods;
    for n := 0 to |idents|
      invariant gen.Valid() && program.Valid() && gen.symId >= 0 && |draws| == n && (gen.home in program.mods <==> loaded)
      invariant forall i | 0 <= i < n :: draws[i].ident == idents[i] && draws[i].kind == PlainName
                                      && draws[i].home == gen.home && draws[i].backend == gen.backendMinted
      invariant forall i | 0 <= i < n :: (idents[i], draws[i].disamb) in gen.made
      invariant gen.backendMinted ==> forall i | 0 <= i < n ::
                  if loaded then (gen.home, draws[i].item) in program.syms else draws[i].item <= gen.symId
      invariant forall i, j | 0 <= i < j < n :: Mark(draws[i]) != Mark(draws[j])
      invariant gen.reserved.Some? && !gen.backendMinted ==> forall d | d in draws :: Mark(d) != (gen.reserved.value, false, 0)
    {
      var id, disamb := gen.NewSym(idents[n], program);
      draws := draws + [SymIdent(PlainName, idents[n], disamb, gen.home, id.item, 0, gen.backendMinted)];
    }
  }

  /** Draws types of the given kinds; their marks differ from each other. */
  method MintTypes(gen: IdGenerator, program: DecodeContext, kinds: seq<nat>) returns (draws: seq<TypeIdent>)
    requires gen.Valid() && program.Valid() && gen.home >= 0
    modifies gen`typeId, program`mods, program`types
    ensures gen.Valid() && program.Valid() && |draws| == |kinds|
    ensures forall i | 0 <= i < |draws| :: draws[i].kind == kinds[i] && draws[i].home == gen.home && draws[i].backend == gen.backendMinted
    ensures TypesDiffer(draws)
  {
    draws := [];
    ghost var counts := gen.backendMinted && gen.home in program.mods;
    for n := 0 to |kinds|
      invariant gen.Valid() && program.Valid() && |draws| == n && (counts <==> gen.backendMinted && gen.home in program.mods)
      invariant forall i | 0 <= i < n :: draws[i].kind == kinds[i] && draws[i].home == gen.home && draws[i].backend == gen.backendMinted
      invariant forall i | 0 <= i < n :: if counts then (gen.home, draws[i].item) in program.types else draws[i].item <= gen.typeId
      invariant forall i, j | 0 <= i < j < n :: draws[i].item != draws[j].item
    {
      var id := gen.NextTypeId(program);
      draws := draws + [TypeIdent(kinds[n], gen.home, id.item, gen.backendMinted)];
    }
  }

  /** Every own entity of the graph is a draw of its own. */
  ghost predicate Drawn(g: Graph, ids: Idents, syms: seq<SymIdent>, types: seq<TypeIdent>, symAt: map<SymId, nat>, typeAt: map<TypeId, nat>)
    requires ids.syms.Keys == g.syms.Keys && ids.types.Keys == g.types.Keys
  {
    && (forall s | Tracked(g, SymKey(s)) :: s in symAt && symAt[s] < |syms| && ids.syms[s] == syms[symAt[s]])
    && (forall t | Tracked(g, TypeKey(t)) :: t in typeAt && typeAt[t] < |types| && ids.types[t] == types[typeAt[t]])
    && (forall s, t | s in symAt && t in symAt && s != t :: symAt[s] != symAt[t])
    && (forall s, t | s in typeAt && t in typeAt && s != t :: typeAt[s] != typeAt[t])
  }

  lemma DrawsDiffer(g: Graph, ids: Idents, syms: seq<SymIdent>, types: seq<TypeIdent>, symAt: map<SymId, nat>, typeAt: map<TypeId, nat>,
                    current: nat, modname: nat -> string)
    requires NamedAs(g, ids, current, modname) && Drawn(g, ids, syms, types, symAt, typeAt)
    requires SymsDiffer(syms) && TypesDiffer(types) && forall d | d in syms :: Free(d.ident)
    ensures MarksDiffer(g, ids)
  {
    hide Mark, TypeMark, NamedAs, MarksDiffer, Free;
    FreeMarks(g, ids, current, modname);
  }

  /** Whatever a module's front end and backend draw, in any number, a graph whose own
      symbols are the module's symbol and such draws, and whose own types are such draws, has
      no two entities of the same name. */
  method DrawnNamesDiffer(front: IdGenerator, back: IdGenerator, program: DecodeContext, moduleSym: SymIdent,
                          fronts: seq<string>, backs: seq<string>, frontKinds: seq<nat>, backKinds: seq<nat>,
                          modname: nat -> string, register: string -> nat)
      returns (syms: seq<SymIdent>, types: seq<TypeIdent>)
    requires front != back && front.Valid() && back.Valid() && program.Valid()
    requires front.home == back.home >= 0 && !front.backendMinted && back.backendMinted && front.symId >= 0 && back.symId >= 0
    requires front.reserved.Some? && Mark(moduleSym) == (front.reserved.value, false, 0) && Registry(modname, register)
    requires Free(moduleSym.ident) && (forall x | x in fronts :: Free(x)) && forall x | x in backs :: Free(x)
    modifies front, back, program
    ensures |syms| == 1 + |fronts| + |backs| && |types| == |frontKinds| + |backKinds|
    ensures forall g, ids, symAt, typeAt | NamedAs(g, ids, front.home, modname) && Drawn(g, ids, syms, types, symAt, typeAt) :: NamesDistinct(g)
  {
    var a := MintSyms(front, program, fronts);
    var b := MintSyms(back, program, backs);
    var c := MintTypes(front, program, frontKinds);
    var d := MintTypes(back, program, backKinds);
    syms, types := [moduleSym] + a + b, c + d;
    assert SymsDiffer(syms) && forall d | d in syms :: Free(d.ident);
    assert TypesDiffer(types);
    forall g, ids, symAt, typeAt | NamedAs(g, ids, front.home, modname) && Drawn(g, ids, syms, types, symAt, typeAt) ensures NamesDistinct(g) {
      DrawsDiffer(g, ids, syms, types, symAt, typeAt, front.home, modname);
      NamesDistinctExactly(g, ids, front.home, modname, register);
    }
  }
}
