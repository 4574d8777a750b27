/** The hash input of an interface does not see the numbers that a module's own counters give
    to what its hashed regions define and to its types, said of the names as they are made. */
module NifRenumbering {
  import opened NifTokens
  import opened NifNames
  import opened NifCookie
  import opened NifInterface
  import opened Decimal
  import NifGraph
  import NifDefinitions
  import NifModule
  import NifSensitivity
  import NifWritten

  /** A new number for each identifier and number. */
  type Numbers = (string, nat) -> nat

  ghost predicate Injective(f: Numbers)
  {
    forall x, m, n :: f(x, m) == f(x, n) ==> m == n
  }

  /** Is the name one of this module's own, made of an identifier, a number and its suffix? */
  predicate IsOwn(self: string, name: string)
  {
    var p := ParseName(name);
    name == GlobalForm(p.name, p.count, self)
  }

  /** Own names with new numbers; other names as they are. */
  function Renumber(self: string, f: Numbers): Renaming
  {
    name => var p := ParseName(name);
            if name == GlobalForm(p.name, p.count, self) then GlobalForm(p.name, f(p.name, p.count), self) else name
  }

  lemma OwnForm(self: string, f: Numbers, ident: string, count: nat)
    requires SuffixOk(self)
    ensures var name := GlobalForm(ident, count, self);
      IsOwn(self, name) && ParseName(name) == ParsedSymName(ident, self, count) && Renumber(self, f)(name) == GlobalForm(ident, f(ident, count), self)
  {
    GlobalFormReadsBack(ident, count, self);
  }

  /** A symbol and a type of the module get their new numbers, and keep everything else. */
  lemma OwnNamesRenumbered(f: Numbers, sym: SymIdent, t: TypeIdent, current: nat, modname: nat -> string)
    requires SuffixOk(modname(current)) && t.home == current && !t.backend
    requires sym.kind.PlainName? && !sym.backend && sym.home == current
    ensures var r := Renumber(modname(current), f);
      && r(ToNifSymName(sym, current, modname)) == ToNifSymName(sym.(disamb := f(sym.ident, sym.disamb)), current, modname)
      && r(ToNifTypeName(t, current, modname)) == ToNifTypeName(t.(item := f("`t" + Numeral(t.kind), t.item)), current, modname)
  {
    OwnForm(modname(current), f, sym.ident, sym.disamb);
    OwnForm(modname(current), f, "`t" + Numeral(t.kind), t.item);
    assert TypeName(t.kind, t.item, modname(current)) == GlobalForm("`t" + Numeral(t.kind), t.item, modname(current));
    var j := f("`t" + Numeral(t.kind), t.item);
    assert TypeName(t.kind, j, modname(current)) == GlobalForm("`t" + Numeral(t.kind), j, modname(current));
  }

  lemma RenumberInjective(self: string, f: Numbers, a: string, b: string)
    requires SuffixOk(self) && Injective(f) && Renumber(self, f)(a) == Renumber(self, f)(b)
    ensures a == b
  {
    hide ParseName, GlobalForm;
    var p, q := ParseName(a), ParseName(b);
    OwnForm(self, f, p.name, f(p.name, p.count));
    OwnForm(self, f, q.name, f(q.name, q.count));
  }

  /** What decides how a name is hashed is not renumbered. */
  lemma RenumberKeepsKind(self: string, f: Numbers, name: string)
    requires SuffixOk(self)
    ensures var r := Renumber(self, f);
      ModuleLocal(self, r(name)) == ModuleLocal(self, name) && TypeLike(r(name)) == TypeLike(name)
    ensures Renumber(self, f)(name) != name ==> ModuleLocal(self, name)
  {
    var p := ParseName(name);
    if IsOwn(self, name) {
      OwnForm(self, f, p.name, p.count);
      OwnForm(self, f, p.name, f(p.name, p.count));
      TypeLikeForm(p.name, p.count, self);
      TypeLikeForm(p.name, f(p.name, p.count), self);
    }
  }

  lemma TypeLikeForm(ident: string, count: nat, suffix: string)
    ensures TypeLike(GlobalForm(ident, count, suffix)) <==> |ident| >= 2 && ident[0] == '`' && ident[1] == 't'
  {
    var name := GlobalForm(ident, count, suffix);
    NifSensitivity.TypeLikeIs(name);
    assert |ident| < 2 ==> name[|ident|] == '.';
    assert |ident| >= 2 ==> name[0] == ident[0] && name[1] == ident[1];
  }

  /** Every name of the region that gets a new number is defined in the region, not only as the
      first definition if that is kept, or is that of a type whose definition the module has. */
  ghost predicate MayRenumber(self: string, f: Numbers, tds: map<string, seq<Tok>>, toks: seq<Tok>, keep: bool)
  {
    && (forall t | t in toks && IsName(t) && Renumber(self, f)(t.name) != t.name ::
          DefinedBehind(toks, keep, t.name) || (|t.name| >= 2 && t.name[0] == '`' && t.name[1] == 't' && t.name in tds))
    && (forall i | 0 <= i < |toks| && NifSensitivity.IsKept(toks, keep, i) :: Renumber(self, f)(toks[i].name) == toks[i].name)
  }

  ghost predicate DefinedBehind(toks: seq<Tok>, keep: bool, name: string)
  {
    exists i, j :: 0 <= j <= i < |toks| && toks[i] == SymDef(name) && (keep ==> j < i && toks[j].SymDef?)
  }

  lemma MayIsHarmless(s: Surface, f: Numbers, toks: seq<Tok>, keep: bool)
    requires SuffixOk(s.self) && MayRenumber(s.self, f, s.tds, toks, keep)
    ensures Harmless(Renumber(s.self, f), s, toks, keep)
  {
    hide ParseName, GlobalForm, Renumber, Defs;
    forall t | t in toks && IsName(t) && Renumber(s.self, f)(t.name) != t.name
      ensures t.name in Defs(s.self, toks, keep) || (Expandable(s.self, Defs(s.self, toks, keep), t.name) && t.name in s.tds)
    {
      RenumberKeepsKind(s.self, f, t.name);
      NifSensitivity.HiddenIs(s.self, toks, keep, t.name);
      NifSensitivity.TypeLikeIs(t.name);
    }
    forall i | 0 <= i < |toks| && toks[i].SymDef? && keep && !HasDef(toks, i) ensures Renumber(s.self, f)(toks[i].name) == toks[i].name {
      assert NifSensitivity.IsKept(toks, keep, i);
    }
  }

  /** The definitions of types refer to each other without a circle: to types that rank below
      them, or that they define themselves. */
  ghost predicate TypesRanked(tds: map<string, seq<Tok>>, rank: string -> nat)
  {
    forall name, t | name in tds && t in tds[name] && IsName(t) && t.name in tds && SymDef(t.name) !in tds[name] :: rank(t.name) < rank(name)
  }

  lemma TypesRankedIsRanked(s: Surface, rank: string -> nat)
    requires TypesRanked(s.tds, rank)
    ensures Ranked(s, rank)
  {
    hide ParseName, Defs;
    forall name, t | name in s.tds && t in s.tds[name] && IsName(t)
                     && Expandable(s.self, Defs(s.self, s.tds[name], false), t.name) && t.name in s.tds
      ensures rank(t.name) < rank(name)
    {
      var toks := s.tds[name];
      if SymDef(t.name) in toks {
        var i :| 0 <= i < |toks| && toks[i] == SymDef(t.name);
        assert 0 <= i <= i < |toks|;
        NifSensitivity.HiddenIs(s.self, toks, false, t.name);
      }
    }
  }

  /** A region gives the same atoms when what it defines, and the types of the module, get new
      numbers. */
  lemma RegionRenumbered(s: Surface, s': Surface, f: Numbers, names: set<string>, digest: Digest, rank: string -> nat, toks: seq<Tok>, keep: bool)
    requires SuffixOk(s.self) && s'.self == s.self && Injective(f) && TypesRanked(s.tds, rank)
    requires TdsImage(Renumber(s.self, f), names, s.tds, s'.tds) && NamesAmong(toks, names)
    requires MayRenumber(s.self, f, s.tds, toks, keep) && forall n | n in names && n in s.tds :: MayRenumber(s.self, f, s.tds, s.tds[n], false)
    ensures Atoms(s', digest, RenameToks(Renumber(s.self, f), toks), keep, {}) == Atoms(s, digest, toks, keep, {})
  {
    hide ParseName, GlobalForm, Renumber, Defs, Atoms, MayRenumber, Harmless, ModuleLocal, TypeLike;
    var r := Renumber(s.self, f);
    TypesRankedIsRanked(s, rank);
    MayIsHarmless(s, f, toks, keep);
    forall n | n in names && n in s.tds ensures Harmless(r, s, s.tds[n], false) {
      MayIsHarmless(s, f, s.tds[n], false);
    }
    forall m, n | m in names && n in names && r(m) == r(n) ensures m == n {
      RenumberInjective(s.self, f, m, n);
    }
    forall n | n in names ensures ModuleLocal(s.self, r(n)) == ModuleLocal(s.self, n) && TypeLike(r(n)) == TypeLike(n) {
      RenumberKeepsKind(s.self, f, n);
    }
    assert RegionRanked(s, toks, keep, rank, {}) && ImageOf(r, names, {}, {});
    AtomsRenamed(r, s, s', names, digest, rank, toks, keep, {}, {});
  }

  /** In every region that the scan shows, and in every definition of a type, only what may be
      renumbered is. */
  ghost predicate ModuleMayRenumber(self: string, f: Numbers, ts: seq<Tree>)
  {
    var tds := SurfaceOf(self, ts).tds;
    && (forall e | e in NifSensitivity.AllShown(ts) :: MayRenumber(self, f, tds, Flat(e.tree), e.keepFirst))
    && forall n | n in tds :: MayRenumber(self, f, tds, tds[n], false)
  }

  lemma {:induction false} ShownHarmless(r: Renaming, s: Surface, t: Tree)
    requires Shaped(t) && forall e | e in NifSensitivity.ShownIn(t) :: Harmless(r, s, Flat(e.tree), e.keepFirst)
    ensures HarmlessTree(r, s, t)
    decreases t, 0
  {
    hide Harmless, Flat, Signature, Exported, SdShape, NifSensitivity.WithoutBody, NifSensitivity.IsExport;
    match t
    case Atom(_) =>
    case Branch(tag, kids) =>
      if tag.SymDefTag? {
        NifSensitivity.SignatureIs(t);
        assert Exported(kids) ==> NifSensitivity.Shown(NifSensitivity.WithoutBody(t), true) in NifSensitivity.ShownIn(t);
      } else if HashedWhole(tag) {
        assert NifSensitivity.Shown(t, false) in NifSensitivity.ShownIn(t);
      } else if !tag.Implementation? {
        AllShownHarmless(r, s, kids);
      }
  }

  lemma {:induction false} AllShownHarmless(r: Renaming, s: Surface, ts: seq<Tree>)
    requires AllShaped(ts) && forall e | e in NifSensitivity.AllShown(ts) :: Harmless(r, s, Flat(e.tree), e.keepFirst)
    ensures HarmlessTrees(r, s, ts)
    decreases ts, 1
  {
    hide Harmless, Flat, Shaped, HarmlessTree, NifSensitivity.ShownIn;
    if ts != [] {
      ShownHarmless(r, s, ts[0]);
      AllShownHarmless(r, s, ts[1..]);
    }
  }

  lemma ModuleHarmless(self: string, f: Numbers, ts: seq<Tree>)
    requires SuffixOk(self) && AllShaped(ts) && ModuleMayRenumber(self, f, ts)
    ensures var s := SurfaceOf(self, ts);
      HarmlessTrees(Renumber(self, f), s, ts) && forall n | n in s.tds :: Harmless(Renumber(self, f), s, s.tds[n], false)
  {
    hide MayRenumber, Harmless, Flat, AllShaped, NifSensitivity.AllShown, Renumber, HarmlessTrees, AddAllTds, SuffixOk;
    var s := SurfaceOf(self, ts);
    forall e | e in NifSensitivity.AllShown(ts) ensures Harmless(Renumber(self, f), s, Flat(e.tree), e.keepFirst) {
      MayIsHarmless(s, f, Flat(e.tree), e.keepFirst);
    }
    AllShownHarmless(Renumber(self, f), s, ts);
    forall n | n in s.tds ensures Harmless(Renumber(self, f), s, s.tds[n], false) {
      MayIsHarmless(s, f, s.tds[n], false);
    }
  }

  ghost function NamesOf(ts: seq<Tree>): set<string>
  {
    set t | t in FlatAll(ts) && IsName(t) :: t.name
  }

  lemma RenumberIsRenaming(self: string, f: Numbers, ts: seq<Tree>)
    requires SuffixOk(self) && Injective(f)
    ensures var r, names := Renumber(self, f), NamesOf(ts);
      && NamesAmong(FlatAll(ts), names) && InjectiveOn(r, names)
      && forall n | n in names :: ModuleLocal(self, r(n)) == ModuleLocal(self, n) && TypeLike(r(n)) == TypeLike(n)
  {
    hide ParseName, GlobalForm, Renumber, ModuleLocal, TypeLike, FlatAll;
    var r, names := Renumber(self, f), NamesOf(ts);
    forall m, n | m in names && n in names && r(m) == r(n) ensures m == n {
      RenumberInjective(self, f, m, n);
    }
    forall n | n in names ensures ModuleLocal(self, r(n)) == ModuleLocal(self, n) && TypeLike(r(n)) == TypeLike(n) {
      RenumberKeepsKind(self, f, n);
    }
  }

  /** The hash input of a whole interface stays the same when the module's counters give other
      numbers to what the hashed regions define and to the types that the module defines. */
  lemma InterfaceRenumbered(self: string, f: Numbers, digest: Digest, rank: string -> nat, ts: seq<Tree>)
    requires SuffixOk(self) && Injective(f) && AllShaped(ts) && ModuleMayRenumber(self, f, ts) && TypesRanked(SurfaceOf(self, ts).tds, rank)
    ensures AllShaped(RenameTrees(Renumber(self, f), ts))
    ensures InterfaceAtoms(self, digest, RenameTrees(Renumber(self, f), ts)) == InterfaceAtoms(self, digest, ts)
  {
    hide MayRenumber, Harmless, AllShaped, Renumber, HarmlessTrees, SurfaceOf, InterfaceAtoms, TypesRanked, Ranked, ModuleMayRenumber, ModuleLocal, TypeLike, FlatAll;
    RenumberIsRenaming(self, f, ts);
    ModuleHarmless(self, f, ts);
    SelfOf(self, ts);
    TypesRankedIsRanked(SurfaceOf(self, ts), rank);
    InterfaceIgnoresRenaming(Renumber(self, f), self, NamesOf(ts), digest, rank, ts);
  }

  lemma SelfOf(self: string, ts: seq<Tree>)
    ensures SurfaceOf(self, ts).self == self
  {
  }

  /** The same for every file that the writer puts out, whose types have no circles anyway. */
  lemma WrittenRenumbered(g: NifGraph.Graph, w0: set<NifDefinitions.Key>, w1: set<NifDefinitions.Key>, file: Tree,
                          self: string, f: Numbers, digest: Digest)
    requires NifDefinitions.NamesDistinct(g) && NifModule.WellWritten(g, w0, w1, file) && AllShaped([file])
    requires SuffixOk(self) && Injective(f) && ModuleMayRenumber(self, f, [file])
    ensures AllShaped(RenameTrees(Renumber(self, f), [file]))
    ensures InterfaceAtoms(self, digest, RenameTrees(Renumber(self, f), [file])) == InterfaceAtoms(self, digest, [file])
  {
    hide MayRenumber, Harmless, AllShaped, Renumber, HarmlessTrees, SurfaceOf, InterfaceAtoms, ModuleMayRenumber, ModuleLocal, TypeLike, FlatAll,
      NifModule.WellWritten, NifDefinitions.NamesDistinct;
    RenumberIsRenaming(self, f, [file]);
    ModuleHarmless(self, f, [file]);
    NifWritten.WrittenIgnoresRenaming(g, w0, w1, file, Renumber(self, f), self, NamesOf([file]), digest);
  }

  /** The names of other modules are hashed as they are. */
  lemma ForeignNamesStay(s: Surface, digest: Digest, toks: seq<Tok>, keep: bool, busy: set<string>, i: nat,
                         ident: string, count: nat, suffix: string)
    requires i < |toks| && IsName(toks[i]) && toks[i].name == GlobalForm(ident, count, suffix) && SuffixOk(suffix) && suffix != s.self
    ensures AtomAt(s, digest, toks, keep, busy, i) == NameAtom(toks[i].SymDef?, Plain(toks[i].name))
  {
    hide Defs, Atoms;
    GlobalFormReadsBack(ident, count, suffix);
    NifSensitivity.HiddenIs(s.self, toks, keep, toks[i].name);
    NifSensitivity.NameReads(s, digest, toks, keep, busy, i);
  }
}
