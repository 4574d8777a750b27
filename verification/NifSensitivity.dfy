/** What the hash input of an interface tells: two modules with the same input have the same
    replayed actions, registrations and exported signatures, up to the names that the hash
    is meant to hide. The scan is described here by the tags of the format themselves. */
module NifSensitivity {
  import opened NifTokens
  import NifNames
  import opened NifCookie
  import opened NifParser
  import opened NifGraph
  import opened NifInventory
  import opened NifModule
  import opened NifInterface

  // ---------- what the scan shows, tag by tag ----------

  /** A tree that is hashed as one; the first name that it defines is kept or not. */
  datatype Shown = Shown(tree: Tree, keepFirst: bool)

  /** A definition whose marker says that importers can use its bare name. */
  predicate IsExport(t: Tree)
  {
    t.Branch? && t.tag == SymDefTag && |t.kids| >= 2 && t.kids[0].Atom? && t.kids[0].tok.SymDef? && t.kids[1] == Atom(Ident("x"))
  }

  /** The children of a definition are its name, its marker, its kind, five attributes, its
      library, type and owner, and then its ast. In the ast of a routine, flags and type stand
      in front of the sons, of which the body is the seventh: it is left out. */
  function WithoutBody(t: Tree): Tree
  {
    if t.Branch? && |t.kids| > 11 && t.kids[2].Branch? && t.kids[2].tag.SymKindTag? && t.kids[2].tag.sym.SkRoutine?
       && t.kids[11].Branch? && |t.kids[11].kids| > 8
    then Branch(t.tag, t.kids[11 := Branch(t.kids[11].tag, t.kids[11].kids[..8] + t.kids[11].kids[9..])])
    else t
  }

  function ShownIn(t: Tree): seq<Shown>
    decreases t, 0
  {
    match t
    case Atom(_) => []
    case Branch(SymDefTag, _) => if IsExport(t) then [Shown(WithoutBody(t), true)] else []
    case Branch(Implementation, _) => []
    case Branch(Replay, _) => [Shown(t, false)]
    case Branch(Registration(PureEnumEntry), kids) => AllShown(kids)
    case Branch(Registration(_), _) => [Shown(t, false)]
    case Branch(KindTag(NkImportStmt), _) => [Shown(t, false)]
    case Branch(KindTag(NkIncludeStmt), _) => [Shown(t, false)]
    case Branch(KindTag(NkExportStmt), _) => [Shown(t, false)]
    case Branch(KindTag(NkExportExceptStmt), _) => [Shown(t, false)]
    case Branch(_, kids) => AllShown(kids)
  }

  function AllShown(ts: seq<Tree>): seq<Shown>
    decreases ts, 1
  {
    if ts == [] then [] else ShownIn(ts[0]) + AllShown(ts[1..])
  }

  function ShownAtoms(s: Surface, digest: Digest, shown: seq<Shown>): seq<HashAtom>
  {
    if shown == [] then []
    else Atoms(s, digest, Flat(shown[0].tree), shown[0].keepFirst, {}) + ShownAtoms(s, digest, shown[1..])
  }

  lemma {:induction false} ShownAppend(s: Surface, digest: Digest, a: seq<Shown>, b: seq<Shown>)
    ensures ShownAtoms(s, digest, a + b) == ShownAtoms(s, digest, a) + ShownAtoms(s, digest, b)
    decreases |a|
  {
    hide Atoms, Flat;
    if a == [] {
      assert a + b == b;
    } else {
      ShownAppend(s, digest, a[1..], b);
      assert (a + b)[1..] == a[1..] + b;
      Regroup(Atoms(s, digest, Flat(a[0].tree), a[0].keepFirst, {}), ShownAtoms(s, digest, a[1..]), ShownAtoms(s, digest, b));
    }
  }

  lemma SignatureIs(t: Tree)
    requires t.Branch? && t.tag.SymDefTag? && SdShape(t.kids)
    ensures Exported(t.kids) <==> IsExport(t)
    ensures Exported(t.kids) ==> Branch(t.tag, Signature(t.kids)) == WithoutBody(t)
  {
  }

  lemma OneShown(s: Surface, digest: Digest, one: Shown)
    ensures ShownAtoms(s, digest, [one]) == Atoms(s, digest, Flat(one.tree), one.keepFirst, {})
  {
    assert [one][1..] == [] && ShownAtoms(s, digest, []) == [];
  }

  /** The scan contributes the trees that it shows. */
  lemma {:induction false} ScanShows(s: Surface, digest: Digest, t: Tree)
    requires Shaped(t)
    ensures ScanTree(s, digest, t) == ShownAtoms(s, digest, ShownIn(t))
    decreases t, 0
  {
    hide Atoms, SdShape, Signature, WithoutBody, IsExport, Exported, Flat;
    match t
    case Atom(_) =>
    case Branch(tag, kids) =>
      if tag.SymDefTag? {
        SignatureIs(t);
        OneShown(s, digest, Shown(WithoutBody(t), true));
      } else if tag.Implementation? {
      } else if HashedWhole(tag) {
        OneShown(s, digest, Shown(t, false));
      } else {
        ScansShow(s, digest, kids);
      }
  }

  lemma {:induction false} ScansShow(s: Surface, digest: Digest, ts: seq<Tree>)
    requires AllShaped(ts)
    ensures ScanTrees(s, digest, ts) == ShownAtoms(s, digest, AllShown(ts))
    decreases ts, 1
  {
    hide Atoms, Shaped, ScanTree, ShownIn, ShownAtoms;
    if ts != [] {
      ScanShows(s, digest, ts[0]);
      ScansShow(s, digest, ts[1..]);
      ShownAppend(s, digest, ShownIn(ts[0]), AllShown(ts[1..]));
    } else {
      assert ShownAtoms(s, digest, []) == [] by { NothingShown(s, digest); }
    }
  }

  lemma NothingShown(s: Surface, digest: Digest)
    ensures ShownAtoms(s, digest, []) == []
  {
  }

  // ---------- which tree an atom belongs to ----------

  /** The tokens with all names blanked out; a hash input shows as much of them. */
  function Blank(t: Tok): Tok { if IsName(t) then Dot else t }

  function Bone(a: HashAtom): Tok { match a case Content(tok) => tok case NameAtom(_, _) => Dot }

  function Blanks(toks: seq<Tok>): seq<Tok>
  {
    seq(|toks|, i requires 0 <= i < |toks| => Blank(toks[i]))
  }

  function Bones(atoms: seq<HashAtom>): seq<Tok>
  {
    seq(|atoms|, i requires 0 <= i < |atoms| => Bone(atoms[i]))
  }

  lemma BonesOfAtoms(s: Surface, digest: Digest, toks: seq<Tok>, keep: bool, busy: set<string>)
    ensures Bones(Atoms(s, digest, toks, keep, busy)) == Blanks(toks)
  {
    forall i | 0 <= i < |toks| ensures Bone(AtomAt(s, digest, toks, keep, busy, i)) == Blank(toks[i]) {
    }
  }

  function BlankTree(t: Tree): Tree
    decreases t, 0
  {
    match t
    case Atom(tok) => Atom(Blank(tok))
    case Branch(tag, kids) => Branch(tag, BlankTrees(kids))
  }

  function BlankTrees(ts: seq<Tree>): seq<Tree>
    decreases ts, 1
  {
    if ts == [] then [] else [BlankTree(ts[0])] + BlankTrees(ts[1..])
  }

  lemma BlanksAppend(a: seq<Tok>, b: seq<Tok>)
    ensures Blanks(a + b) == Blanks(a) + Blanks(b)
  {
  }

  lemma {:induction false} BlankFlat(t: Tree)
    ensures Flat(BlankTree(t)) == Blanks(Flat(t)) && (IsTree(t) ==> IsTree(BlankTree(t)))
    decreases t, 0
  {
    match t
    case Atom(_) =>
    case Branch(tag, kids) =>
      BlankFlats(kids);
      BlanksAppend([ParLe(tag)] + FlatAll(kids), [ParRi]);
      BlanksAppend([ParLe(tag)], FlatAll(kids));
      assert Blanks([ParLe(tag)]) == [ParLe(tag)] && Blanks([ParRi]) == [ParRi];
  }

  lemma {:induction false} BlankFlats(ts: seq<Tree>)
    ensures FlatAll(BlankTrees(ts)) == Blanks(FlatAll(ts)) && (AreTrees(ts) ==> AreTrees(BlankTrees(ts)))
    decreases ts, 1
  {
    if ts != [] {
      BlankFlat(ts[0]);
      BlankFlats(ts[1..]);
      BlanksAppend(Flat(ts[0]), FlatAll(ts[1..]));
    }
  }

  lemma BonesAppend(a: seq<HashAtom>, b: seq<HashAtom>)
    ensures Bones(a + b) == Bones(a) + Bones(b)
  {
  }

  /** Where one hashed tree ends can be seen from the atoms. */
  lemma FirstShownEnds(s: Surface, z: Surface, digest: Digest, a: Shown, b: Shown, as': seq<HashAtom>, bs': seq<HashAtom>)
    requires IsTree(a.tree) && IsTree(b.tree)
    requires Atoms(s, digest, Flat(a.tree), a.keepFirst, {}) + as' == Atoms(z, digest, Flat(b.tree), b.keepFirst, {}) + bs'
    ensures Atoms(s, digest, Flat(a.tree), a.keepFirst, {}) == Atoms(z, digest, Flat(b.tree), b.keepFirst, {}) && as' == bs'
  {
    var x, y := Atoms(s, digest, Flat(a.tree), a.keepFirst, {}), Atoms(z, digest, Flat(b.tree), b.keepFirst, {});
    hide Atoms, Flat, IsTree;
    BonesAppend(x, as');
    BonesAppend(y, bs');
    BonesOfAtoms(s, digest, Flat(a.tree), a.keepFirst, {});
    BonesOfAtoms(z, digest, Flat(b.tree), b.keepFirst, {});
    BlankFlat(a.tree);
    BlankFlat(b.tree);
    TreeReadsBack(BlankTree(a.tree), Bones(as'));
    TreeReadsBack(BlankTree(b.tree), Bones(bs'));
    assert |Flat(a.tree)| == |Bones(x)| == |Bones(y)|;
    assert x == (x + as')[..|x|] && y == (y + bs')[..|y|] && as' == (x + as')[|x|..] && bs' == (y + bs')[|y|..];
  }

  predicate TreesShown(shown: seq<Shown>)
  {
    forall one | one in shown :: IsTree(one.tree)
  }

  /** Equal inputs come from as many hashed trees, which give equal inputs one by one. */
  lemma {:induction false} ShownOneByOne(s: Surface, z: Surface, digest: Digest, a: seq<Shown>, b: seq<Shown>)
    requires TreesShown(a) && TreesShown(b) && ShownAtoms(s, digest, a) == ShownAtoms(z, digest, b)
    ensures |a| == |b| && forall i | 0 <= i < |a| ::
      Atoms(s, digest, Flat(a[i].tree), a[i].keepFirst, {}) == Atoms(z, digest, Flat(b[i].tree), b[i].keepFirst, {})
    decreases |a|
  {
    hide Atoms, Flat, IsTree;
    if a != [] { SomeAtoms(s, digest, a[0]); }
    if b != [] { SomeAtoms(z, digest, b[0]); }
    if a != [] && b != [] {
      FirstShownEnds(s, z, digest, a[0], b[0], ShownAtoms(s, digest, a[1..]), ShownAtoms(z, digest, b[1..]));
      ShownOneByOne(s, z, digest, a[1..], b[1..]);
    }
  }

  lemma SomeAtoms(s: Surface, digest: Digest, one: Shown)
    ensures Atoms(s, digest, Flat(one.tree), one.keepFirst, {}) != []
  {
  }

  // ---------- what the atoms of a tree tell ----------

  predicate Own(self: string, name: string) { NifNames.ParseName(name).suffix == "" || NifNames.ParseName(name).suffix == self }

  /** Does the region define the name, with a definition that is hidden? The first definition
      of the region is not if it is kept. */
  ghost predicate Hidden(self: string, toks: seq<Tok>, keep: bool, name: string)
  {
    Own(self, name) && exists i, j :: 0 <= j <= i < |toks| && toks[i] == SymDef(name) && (keep ==> j < i && toks[j].SymDef?)
  }

  predicate IsKept(toks: seq<Tok>, keep: bool, i: nat)
    requires i < |toks|
  {
    keep && toks[i].SymDef? && forall j | 0 <= j < i :: !toks[j].SymDef?
  }

  /** A type's name that is replaced by what the type is. */
  predicate Opened(s: Surface, busy: set<string>, name: string)
  {
    |name| >= 2 && name[0] == '`' && name[1] == 't' && Own(s.self, name) && name in s.tds && name !in busy
  }

  /** The names at a place agree: they are literally the same, unless both regions hide them,
      and then they are used alike, or both are names of types. */
  ghost predicate NamesAgree(s: Surface, z: Surface, busy: set<string>, busy': set<string>, a: seq<Tok>, b: seq<Tok>, keep: bool, i: nat)
    requires i < |a| == |b|
  {
    IsName(a[i]) && IsName(b[i]) && (a[i].SymDef? <==> b[i].SymDef?) &&
    if IsKept(a, keep, i) then a[i].name == b[i].name
    else if Hidden(s.self, a, keep, a[i].name) then
      Hidden(z.self, b, keep, b[i].name) &&
      forall j | 0 <= j < |a| && IsName(a[j]) && !IsKept(a, keep, j) && Hidden(s.self, a, keep, a[j].name) ::
        IsName(b[j]) && (a[i].name == a[j].name <==> b[i].name == b[j].name)
    else
      !Hidden(z.self, b, keep, b[i].name) &&
      if Opened(s, busy, a[i].name) then Opened(z, busy', b[i].name) else a[i].name == b[i].name
  }

  predicate OpenedAt(s: Surface, busy: set<string>, toks: seq<Tok>, keep: bool, i: nat)
    requires i < |toks|
  {
    IsName(toks[i]) && !IsKept(toks, keep, i) && toks[i].name !in Defs(s.self, toks, keep) && Opened(s, busy, toks[i].name)
  }

  /** The regions agree, token by token, and so do the definitions of the types that they refer
      to, down to a depth. */
  ghost predicate Agree(depth: nat, s: Surface, z: Surface, busy: set<string>, busy': set<string>, a: seq<Tok>, b: seq<Tok>, keep: bool)
    decreases depth
  {
    && |a| == |b|
    && (forall i | 0 <= i < |a| :: if IsName(a[i]) then NamesAgree(s, z, busy, busy', a, b, keep, i) else a[i] == b[i])
    && (depth > 0 ==> forall i | 0 <= i < |a| && OpenedAt(s, busy, a, keep, i) ::
          IsName(b[i]) && b[i].name in z.tds &&
          Agree(depth - 1, s, z, busy + {a[i].name}, busy' + {b[i].name}, s.tds[a[i].name], z.tds[b[i].name], false))
  }

  lemma {:induction false} HiddenTo(self: string, toks: seq<Tok>, k: nat, keep: bool, name: string)
    requires k <= |toks|
    ensures name in DefsTo(self, toks, k, keep) <==>
      Own(self, name) && exists i, j :: 0 <= j <= i < k && toks[i] == SymDef(name) && (keep ==> j < i && toks[j].SymDef?)
    decreases k
  {
    hide NifNames.ParseName;
    if k > 0 {
      HiddenTo(self, toks, k - 1, keep, name);
      if Numbered(self, toks, k - 1, keep) && toks[k - 1].name == name {
        if keep {
          var j :| 0 <= j < k - 1 && toks[j].SymDef?;
          assert 0 <= j <= k - 1 < k && toks[k - 1] == SymDef(name);
        } else {
          assert 0 <= k - 1 <= k - 1 < k && toks[k - 1] == SymDef(name);
        }
      }
    }
  }

  lemma HiddenIs(self: string, toks: seq<Tok>, keep: bool, name: string)
    ensures Hidden(self, toks, keep, name) <==> name in Defs(self, toks, keep)
  {
    HiddenTo(self, toks, |toks|, keep, name);
  }

  /** How a name is read. */
  lemma NameReads(s: Surface, digest: Digest, toks: seq<Tok>, keep: bool, busy: set<string>, i: nat)
    requires i < |toks| && IsName(toks[i])
    ensures var atom, name := AtomAt(s, digest, toks, keep, busy, i), toks[i].name;
      && atom.NameAtom? && atom.def == toks[i].SymDef?
      && if IsKept(toks, keep, i) then atom.text == Plain(name)
         else if Hidden(s.self, toks, keep, name) then
           name in Defs(s.self, toks, keep) && atom.text == Ordinal(IndexOf(Defs(s.self, toks, keep), name))
         else if Opened(s, busy, name) then
           name !in Defs(s.self, toks, keep) && atom.text == Structure(digest(Atoms(s, digest, s.tds[name], false, busy + {name})))
         else atom.text == Plain(name)
  {
    hide NifNames.ParseName, Defs, Atoms, Hidden, IndexOf, TextOf, Opened;
    HiddenIs(s.self, toks, keep, toks[i].name);
    assert HasDef(toks, i) <==> !forall j | 0 <= j < i :: !toks[j].SymDef?;
    TextReads(s, digest, Defs(s.self, toks, keep), toks[i].name, busy);
  }

  lemma TextReads(s: Surface, digest: Digest, defs: seq<string>, name: string, busy: set<string>)
    ensures TextOf(s, digest, defs, name, busy) ==
      if name in defs then Ordinal(IndexOf(defs, name))
      else if Opened(s, busy, name) then Structure(digest(Atoms(s, digest, s.tds[name], false, busy + {name})))
      else Plain(name)
  {
    hide NifNames.ParseName, Atoms, IndexOf;
    TypeLikeIs(name);
    assert Expand(s, digest, name, busy) ==
      if name !in s.tds || name in busy then Plain(name) else Structure(digest(Atoms(s, digest, s.tds[name], false, busy + {name})));
  }

  lemma TypeLikeIs(name: string)
    ensures TypeLike(name) <==> |name| >= 2 && name[0] == '`' && name[1] == 't'
  {
    assert |name| >= 2 ==> name[..2] == [name[0], name[1]];
  }

  /** Regions with equal inputs agree, to any depth, if the digest never collides. */
  lemma {:induction false} InputTells(depth: nat, s: Surface, z: Surface, digest: Digest, busy: set<string>, busy': set<string>,
                                      a: seq<Tok>, b: seq<Tok>, keep: bool)
    requires Injective(digest) && Atoms(s, digest, a, keep, busy) == Atoms(z, digest, b, keep, busy')
    ensures Agree(depth, s, z, busy, busy', a, b, keep)
    decreases depth
  {
    hide Injective, NamesAgree, IsKept, Defs, NifNames.ParseName, Atoms;
    SameAtoms(s, z, digest, busy, busy', a, b, keep);
    forall i | 0 <= i < |a| ensures if IsName(a[i]) then NamesAgree(s, z, busy, busy', a, b, keep, i) else a[i] == b[i] {
      TokenTells(s, z, digest, busy, busy', a, b, keep, i);
    }
    if depth > 0 {
      forall i | 0 <= i < |a| && OpenedAt(s, busy, a, keep, i)
        ensures IsName(b[i]) && b[i].name in z.tds &&
          Agree(depth - 1, s, z, busy + {a[i].name}, busy' + {b[i].name}, s.tds[a[i].name], z.tds[b[i].name], false)
      {
        OpenedTells(s, z, digest, busy, busy', a, b, keep, i);
        InputTells(depth - 1, s, z, digest, busy + {a[i].name}, busy' + {b[i].name}, s.tds[a[i].name], z.tds[b[i].name], false);
      }
    }
  }

  /** The regions have as many tokens, and each gives the same atom. */
  ghost predicate Atomwise(s: Surface, z: Surface, digest: Digest, busy: set<string>, busy': set<string>, a: seq<Tok>, b: seq<Tok>, keep: bool)
  {
    |a| == |b| && forall i | 0 <= i < |a| :: AtomAt(s, digest, a, keep, busy, i) == AtomAt(z, digest, b, keep, busy', i)
  }

  lemma SameAtoms(s: Surface, z: Surface, digest: Digest, busy: set<string>, busy': set<string>, a: seq<Tok>, b: seq<Tok>, keep: bool)
    requires Atoms(s, digest, a, keep, busy) == Atoms(z, digest, b, keep, busy')
    ensures Atomwise(s, z, digest, busy, busy', a, b, keep)
  {
    var x, y := Atoms(s, digest, a, keep, busy), Atoms(z, digest, b, keep, busy');
    hide AtomAt;
    assert |x| == |y|;
    forall i | 0 <= i < |a| ensures AtomAt(s, digest, a, keep, busy, i) == AtomAt(z, digest, b, keep, busy', i) {
      assert x[i] == y[i];
    }
  }

  /** Which tokens are names, and which of these define. */
  lemma SameKinds(s: Surface, z: Surface, digest: Digest, busy: set<string>, busy': set<string>, a: seq<Tok>, b: seq<Tok>, keep: bool, i: nat)
    requires Atomwise(s, z, digest, busy, busy', a, b, keep) && i < |a|
    ensures (IsName(a[i]) <==> IsName(b[i])) && (a[i].SymDef? <==> b[i].SymDef?) && (!IsName(a[i]) ==> a[i] == b[i])
    ensures IsKept(a, keep, i) <==> IsKept(b, keep, i)
  {
    hide TextOf, Defs;
    forall k | 0 <= k < |a|
      ensures (IsName(a[k]) <==> IsName(b[k])) && (a[k].SymDef? <==> b[k].SymDef?) && (!IsName(a[k]) ==> a[k] == b[k])
    {
      assert AtomAt(s, digest, a, keep, busy, k) == AtomAt(z, digest, b, keep, busy', k);
    }
  }

  lemma TokenTells(s: Surface, z: Surface, digest: Digest, busy: set<string>, busy': set<string>, a: seq<Tok>, b: seq<Tok>, keep: bool, i: nat)
    requires Atomwise(s, z, digest, busy, busy', a, b, keep) && i < |a|
    ensures if IsName(a[i]) then NamesAgree(s, z, busy, busy', a, b, keep, i) else a[i] == b[i]
  {
    hide AtomAt, Hidden, Opened, Defs, IsKept, Atoms;
    SameKinds(s, z, digest, busy, busy', a, b, keep, i);
    if IsName(a[i]) {
      NameReads(s, digest, a, keep, busy, i);
      NameReads(z, digest, b, keep, busy', i);
      forall j | 0 <= j < |a| && IsName(a[j]) && !IsKept(a, keep, j) && Hidden(s.self, a, keep, a[j].name)
               && !IsKept(a, keep, i) && Hidden(s.self, a, keep, a[i].name)
        ensures IsName(b[j]) && (a[i].name == a[j].name <==> b[i].name == b[j].name)
      {
        SameKinds(s, z, digest, busy, busy', a, b, keep, j);
        NameReads(s, digest, a, keep, busy, j);
        NameReads(z, digest, b, keep, busy', j);
      }
    }
  }

  lemma OpenedTells(s: Surface, z: Surface, digest: Digest, busy: set<string>, busy': set<string>, a: seq<Tok>, b: seq<Tok>, keep: bool, i: nat)
    requires Injective(digest) && Atomwise(s, z, digest, busy, busy', a, b, keep) && i < |a| && OpenedAt(s, busy, a, keep, i)
    ensures IsName(b[i]) && b[i].name in z.tds
    ensures Atoms(s, digest, s.tds[a[i].name], false, busy + {a[i].name}) == Atoms(z, digest, z.tds[b[i].name], false, busy' + {b[i].name})
  {
    hide AtomAt, Hidden, Defs, IsKept, Atoms, NifNames.ParseName;
    SameKinds(s, z, digest, busy, busy', a, b, keep, i);
    NameReads(s, digest, a, keep, busy, i);
    NameReads(z, digest, b, keep, busy', i);
  }

  // ---------- a written file ----------

  /** The exported definitions that are not inside other definitions. */
  function Exports(t: Tree): seq<Tree>
    decreases t, 0
  {
    match t
    case Atom(_) => []
    case Branch(SymDefTag, _) => if IsExport(t) then [t] else []
    case Branch(_, kids) => AllExports(kids)
  }

  function AllExports(ts: seq<Tree>): seq<Tree>
    decreases ts, 1
  {
    if ts == [] then [] else Exports(ts[0]) + AllExports(ts[1..])
  }

  function Signatures(ts: seq<Tree>): seq<Shown>
  {
    seq(|ts|, i requires 0 <= i < |ts| => Shown(WithoutBody(ts[i]), true))
  }

  /** Of trees without the tags of a file's own sections, the scan shows the exports. */
  lemma {:induction false} ExportsShown(t: Tree)
    requires NoMark(t)
    ensures (forall e | e in Exports(t) :: IsExport(e)) && ShownIn(t) == Signatures(Exports(t))
    decreases t, 0
  {
    hide WithoutBody;
    if t.Branch? && !t.tag.SymDefTag? {
      AllExportsShown(t.kids);
    }
  }

  lemma {:induction false} AllExportsShown(ts: seq<Tree>)
    requires NoMarks(ts)
    ensures (forall e | e in AllExports(ts) :: IsExport(e)) && AllShown(ts) == Signatures(AllExports(ts))
    decreases ts, 1
  {
    hide WithoutBody, IsExport, ShownIn, Exports, NoMark;
    if ts != [] {
      ExportsShown(ts[0]);
      AllExportsShown(ts[1..]);
    }
  }

  lemma {:induction false} AllShownAppend(a: seq<Tree>, b: seq<Tree>)
    ensures AllShown(a + b) == AllShown(a) + AllShown(b)
    decreases |a|
  {
    hide ShownIn;
    if a == [] {
      assert a + b == b;
    } else {
      AllShownAppend(a[1..], b);
      assert (a + b)[1..] == a[1..] + b;
    }
  }

  /** The entries of the log that the hash sees: not those of pure enums, and not those of
      instances of generics, which are not written. */
  function Hashed(ops: seq<Op>): seq<Op>
  {
    if ops == [] then []
    else
      var op := ops[|ops| - 1];
      Hashed(ops[..|ops| - 1]) + if op.kind == PureEnumEntry || op.kind == GenericInstEntry then [] else [op]
  }

  /** A registration: its kind, its key and the name of its symbol. */
  function OpTree(g: Graph, op: Op): Tree
    requires op.sym in g.syms
  {
    Branch(Registration(op.kind), [Atom(Str(op.key)), Atom(Sym(g.syms[op.sym].name))])
  }

  function ShownOps(g: Graph, ops: seq<Op>): seq<Shown>
    requires forall op | op in ops :: op.sym in g.syms
  {
    seq(|ops|, i requires 0 <= i < |ops| => Shown(OpTree(g, ops[i]), false))
  }

  lemma {:induction false} OpsShown(g: Graph, ops: seq<Op>)
    requires OpsOk(g, ops)
    ensures (forall op | op in Hashed(ops) :: op.sym in g.syms) && AllShown(OpsTrees(g, ops)) == ShownOps(g, Hashed(ops))
    decreases |ops|
  {
    if ops != [] {
      var front, op := ops[..|ops| - 1], ops[|ops| - 1];
      OpsShown(g, front);
      AllShownAppend(OpsTrees(g, front), OpTrees(g, op));
      OneOpShown(g, op);
    }
  }

  lemma OneOpShown(g: Graph, op: Op)
    requires op.sym in g.syms
    ensures AllShown(OpTrees(g, op)) == if op.kind.PureEnumEntry? || op.kind.GenericInstEntry? then [] else [Shown(OpTree(g, op), false)]
  {
    var kids := [Atom(Str(op.key)), Atom(Sym(g.syms[op.sym].name))];
    assert kids[1..] == [kids[1]] && kids[1..][1..] == [];
    assert AllShown([kids[1]]) == ShownIn(kids[1]) + AllShown([]) == [];
    assert AllShown(kids) == ShownIn(kids[0]) + AllShown([kids[1]]) == [];
    assert AllShown(OpTrees(g, op)) == if op.kind.GenericInstEntry? then [] else ShownIn(OpTree(g, op)) by {
      if !op.kind.GenericInstEntry? { assert [OpTree(g, op)][1..] == []; }
    }
  }

  function ShownActions(actions: seq<Node>, rs: seq<Tree>): seq<Shown>
  {
    if actions == [] then [] else [Shown(Branch(Replay, rs), false)]
  }

  /** What the scan shows of a written file: the replayed actions, the registrations, and the
      signatures of what is exported. */
  lemma FileShown(g: Graph, actions: seq<Node>, ops: seq<Op>, rs: seq<Tree>, cs: seq<Tree>, bs: seq<Tree>, extra: seq<Tree>)
    requires OpsOk(g, ops) && NoMarks(cs + bs + extra)
    ensures (forall op | op in Hashed(ops) :: op.sym in g.syms) && (forall e | e in AllExports(cs + bs + extra) :: IsExport(e))
    ensures AllShown([FileTree(g, actions, ops, rs, cs, bs, extra)])
         == ShownActions(actions, rs) + ShownOps(g, Hashed(ops)) + Signatures(AllExports(cs + bs + extra))
  {
    var r, o, t := Replayed(actions, rs), OpsTrees(g, ops), FileTree(g, actions, ops, rs, cs, bs, extra);
    OpsShown(g, ops);
    AllExportsShown(cs + bs + extra);
    FileOpens(t);
    ActionsShown(actions, rs);
    hide AllShown, ShownIn, Hashed, OpsTrees, AllExports, Signatures, ShownOps, IsExport, ShownActions, Replayed;
    SectionsShown(r, o, cs, bs, extra);
  }

  lemma FileOpens(t: Tree)
    requires t.Branch? && t.tag == KindTag(NK_STMT_LIST)
    ensures AllShown([t]) == AllShown(t.kids)
  {
    assert [t][1..] == [] && AllShown([t]) == ShownIn(t) + AllShown([]);
  }

  lemma ActionsShown(actions: seq<Node>, rs: seq<Tree>)
    ensures AllShown(Replayed(actions, rs)) == ShownActions(actions, rs)
  {
    if actions != [] {
      var t := Branch(Replay, rs);
      assert [t][1..] == [] && AllShown([t]) == ShownIn(t) + AllShown([]);
    }
  }

  lemma FrameShown()
    ensures AllShown([Atom(Dot), Atom(Dot)]) == [] && AllShown([Branch(Implementation, [])]) == []
  {
    var dots, mark := [Atom(Dot), Atom(Dot)], [Branch(Implementation, [])];
    assert dots[1..] == [Atom(Dot)] && dots[1..][1..] == [] && AllShown([Atom(Dot)]) == [];
    assert mark[1..] == [];
  }

  lemma SectionsShown(r: seq<Tree>, o: seq<Tree>, c: seq<Tree>, b: seq<Tree>, e: seq<Tree>)
    ensures AllShown([Atom(Dot), Atom(Dot)] + r + o + c + [Branch(Implementation, [])] + b + e)
         == AllShown(r) + AllShown(o) + AllShown(c + b + e)
  {
    var dots, mark := [Atom(Dot), Atom(Dot)], [Branch(Implementation, [])];
    FrameShown();
    hide AllShown;
    AllShownAppend(dots, r);
    AllShownAppend(dots + r, o);
    AllShownAppend(dots + r + o, c);
    AllShownAppend(dots + r + o + c, mark);
    AllShownAppend(dots + r + o + c + mark, b);
    AllShownAppend(dots + r + o + c + mark + b, e);
    AllShownAppend(c, b);
    AllShownAppend(c + b, e);
  }

  lemma {:induction false} ShownAreTrees(t: Tree)
    requires IsTree(t)
    ensures TreesShown(ShownIn(t))
    decreases t, 0
  {
    hide WithoutBody;
    match t
    case Atom(_) =>
    case Branch(tag, kids) =>
      AllShownAreTrees(kids);
      WithoutBodyIsTree(t);
  }

  lemma {:induction false} AllShownAreTrees(ts: seq<Tree>)
    requires AreTrees(ts)
    ensures TreesShown(AllShown(ts))
    decreases ts, 1
  {
    hide ShownIn, IsTree;
    if ts != [] {
      ShownAreTrees(ts[0]);
      AllShownAreTrees(ts[1..]);
    }
  }

  lemma WithoutBodyIsTree(t: Tree)
    requires t.Branch? && IsTree(t)
    ensures IsTree(WithoutBody(t))
  {
    if WithoutBody(t) != t {
      var ast := t.kids[11];
      TreeAmong(t.kids, 11);
      AreTreesAppend(ast.kids[..8], ast.kids[8..]);
      AreTreesAppend(ast.kids[8..9], ast.kids[9..]);
      assert ast.kids == ast.kids[..8] + ast.kids[8..] && ast.kids[8..] == ast.kids[8..9] + ast.kids[9..];
      AreTreesAppend(ast.kids[..8], ast.kids[9..]);
      var cut := Branch(ast.tag, ast.kids[..8] + ast.kids[9..]);
      assert t.kids == t.kids[..11] + ([ast] + t.kids[12..]) && t.kids[11 := cut] == t.kids[..11] + ([cut] + t.kids[12..]);
      AreTreesAppend(t.kids[..11], [ast] + t.kids[12..]);
      AreTreesAppend([ast], t.kids[12..]);
      AreTreesAppend([cut], t.kids[12..]);
      AreTreesAppend(t.kids[..11], [cut] + t.kids[12..]);
    }
  }

  /** Two trees agree as hashed regions. */
  ghost predicate TreesAgree(depth: nat, s: Surface, z: Surface, a: Tree, b: Tree, keep: bool)
  {
    Agree(depth, s, z, {}, {}, Flat(a), Flat(b), keep)
  }

  lemma FirstTag(s: Surface, z: Surface, digest: Digest, a: Shown, b: Shown)
    requires a.tree.Branch? && b.tree.Branch?
    requires Atoms(s, digest, Flat(a.tree), a.keepFirst, {}) == Atoms(z, digest, Flat(b.tree), b.keepFirst, {})
    ensures a.tree.tag == b.tree.tag
  {
    var x, y := Atoms(s, digest, Flat(a.tree), a.keepFirst, {}), Atoms(z, digest, Flat(b.tree), b.keepFirst, {});
    assert x[0] == Content(ParLe(a.tree.tag)) && y[0] == Content(ParLe(b.tree.tag));
  }

  /** Which part of a file's contribution a tree belongs to. */
  function PartOf(e: Shown): nat
  {
    if e.tree.Branch? && e.tree.tag.Replay? then 0 else if e.tree.Branch? && e.tree.tag.Registration? then 1 else 2
  }

  function Tally(es: seq<Shown>, part: nat): nat
  {
    if es == [] then 0 else (if PartOf(es[0]) == part then 1 else 0) + Tally(es[1..], part)
  }

  lemma {:induction false} TallyAppend(a: seq<Shown>, b: seq<Shown>, part: nat)
    ensures Tally(a + b, part) == Tally(a, part) + Tally(b, part)
    decreases |a|
  {
    hide PartOf;
    if a == [] {
      assert a + b == b;
    } else {
      TallyAppend(a[1..], b, part);
      assert (a + b)[1..] == a[1..] + b;
    }
  }

  lemma {:induction false} TallySame(a: seq<Shown>, b: seq<Shown>, part: nat)
    requires |a| == |b| && forall i | 0 <= i < |a| :: PartOf(a[i]) == PartOf(b[i])
    ensures Tally(a, part) == Tally(b, part)
  {
    hide PartOf;
    if a != [] { TallySame(a[1..], b[1..], part); }
  }

  lemma {:induction false} TallyAll(a: seq<Shown>, own: nat, part: nat)
    requires forall e | e in a :: PartOf(e) == own
    ensures Tally(a, part) == if part == own then |a| else 0
  {
    hide PartOf;
    if a != [] { TallyAll(a[1..], own, part); }
  }

  lemma TallyParts(f: Interface, part: nat)
    requires Tagged(f)
    ensures Tally(f.actions + f.ops + f.exports, part) ==
      if part == 0 then |f.actions| else if part == 1 then |f.ops| else if part == 2 then |f.exports| else 0
  {
    TallyAppend(f.actions + f.ops, f.exports, part);
    TallyAppend(f.actions, f.ops, part);
    TallyAll(f.actions, 0, part);
    TallyAll(f.ops, 1, part);
    TallyAll(f.exports, 2, part);
  }

  /** Lists whose trees have the same tags have parts of the same lengths. */
  lemma PartsMatch(f: Interface, h: Interface)
    requires var p, q := f.actions + f.ops + f.exports, h.actions + h.ops + h.exports;
      Tagged(f) && Tagged(h) && |p| == |q| && forall i | 0 <= i < |p| :: PartOf(p[i]) == PartOf(q[i])
    ensures |f.actions| == |h.actions| && |f.ops| == |h.ops| && |f.exports| == |h.exports|
  {
    hide PartOf, Tagged;
    forall part: nat ensures Tally(f.actions + f.ops + f.exports, part) == Tally(h.actions + h.ops + h.exports, part) {
      TallySame(f.actions + f.ops + f.exports, h.actions + h.ops + h.exports, part);
    }
    TallyParts(f, 0);
    TallyParts(h, 0);
    TallyParts(f, 1);
    TallyParts(h, 1);
    TallyParts(f, 2);
    TallyParts(h, 2);
  }

  /** What a written file contributes to the hash. */
  datatype Interface = Interface(actions: seq<Shown>, ops: seq<Shown>, exports: seq<Shown>)

  ghost predicate ListsAgree(depth: nat, s: Surface, z: Surface, a: seq<Shown>, b: seq<Shown>)
  {
    |a| == |b| && forall i | 0 <= i < |a| :: TreesAgree(depth, s, z, a[i].tree, b[i].tree, a[i].keepFirst)
  }

  lemma FrontsAgree(depth: nat, s: Surface, z: Surface, a: seq<Shown>, b: seq<Shown>, x: seq<Shown>, y: seq<Shown>)
    requires |a| == |x| && ListsAgree(depth, s, z, a + b, x + y)
    ensures ListsAgree(depth, s, z, a, x) && ListsAgree(depth, s, z, b, y)
  {
    hide TreesAgree;
    forall i | 0 <= i < |a| ensures TreesAgree(depth, s, z, a[i].tree, x[i].tree, a[i].keepFirst) {
      assert (a + b)[i] == a[i] && (x + y)[i] == x[i];
    }
    forall i | 0 <= i < |b| ensures TreesAgree(depth, s, z, b[i].tree, y[i].tree, b[i].keepFirst) {
      assert (a + b)[|a| + i] == b[i] && (x + y)[|x| + i] == y[i];
    }
  }

  predicate Tagged(f: Interface)
  {
    && (forall e | e in f.actions :: e.tree.Branch? && e.tree.tag.Replay? && !e.keepFirst)
    && (forall e | e in f.ops :: e.tree.Branch? && e.tree.tag.Registration? && !e.keepFirst)
    && (forall e | e in f.exports :: e.tree.Branch? && e.tree.tag.SymDefTag? && e.keepFirst)
  }

  lemma PartsAgree(depth: nat, s: Surface, z: Surface, digest: Digest, f: Interface, h: Interface)
    requires Injective(digest) && Tagged(f) && Tagged(h)
    requires TreesShown(f.actions + f.ops + f.exports) && TreesShown(h.actions + h.ops + h.exports)
    requires ShownAtoms(s, digest, f.actions + f.ops + f.exports) == ShownAtoms(z, digest, h.actions + h.ops + h.exports)
    ensures ListsAgree(depth, s, z, f.actions, h.actions) && ListsAgree(depth, s, z, f.ops, h.ops)
    ensures ListsAgree(depth, s, z, f.exports, h.exports)
  {
    hide Tagged, TreesAgree, TreesShown, ShownAtoms, PartOf, Injective;
    ElementsAgree(depth, s, z, digest, f, h);
    PartsMatch(f, h);
    FrontsAgree(depth, s, z, f.actions + f.ops, f.exports, h.actions + h.ops, h.exports);
    FrontsAgree(depth, s, z, f.actions, f.ops, h.actions, h.ops);
  }

  lemma KeptAsTagged(f: Interface)
    requires Tagged(f)
    ensures (forall i | 0 <= i < |f.actions| :: !f.actions[i].keepFirst) && (forall i | 0 <= i < |f.ops| :: !f.ops[i].keepFirst)
    ensures forall i | 0 <= i < |f.exports| :: f.exports[i].keepFirst
  {
  }

  lemma ElementsAgree(depth: nat, s: Surface, z: Surface, digest: Digest, f: Interface, h: Interface)
    requires Injective(digest) && Tagged(f) && Tagged(h)
    requires TreesShown(f.actions + f.ops + f.exports) && TreesShown(h.actions + h.ops + h.exports)
    requires ShownAtoms(s, digest, f.actions + f.ops + f.exports) == ShownAtoms(z, digest, h.actions + h.ops + h.exports)
    ensures var p, q := f.actions + f.ops + f.exports, h.actions + h.ops + h.exports;
      |p| == |q| && forall i | 0 <= i < |p| :: PartOf(p[i]) == PartOf(q[i]) && TreesAgree(depth, s, z, p[i].tree, q[i].tree, p[i].keepFirst)
  {
    hide Injective, Atoms, Flat, IsTree, Agree, ShownAtoms, TreesShown;
    var p, q := f.actions + f.ops + f.exports, h.actions + h.ops + h.exports;
    ShownOneByOne(s, z, digest, p, q);
    forall i | 0 <= i < |p| ensures PartOf(p[i]) == PartOf(q[i]) && TreesAgree(depth, s, z, p[i].tree, q[i].tree, p[i].keepFirst) {
      TaggedAt(f, i);
      TaggedAt(h, i);
      FirstTag(s, z, digest, p[i], q[i]);
      InputTells(depth, s, z, digest, {}, {}, Flat(p[i].tree), Flat(q[i].tree), p[i].keepFirst);
    }
  }

  lemma TaggedAt(f: Interface, i: nat)
    requires Tagged(f) && i < |f.actions + f.ops + f.exports|
    ensures var e := (f.actions + f.ops + f.exports)[i]; e.tree.Branch? && (e.keepFirst <==> e.tree.tag.SymDefTag?)
  {
    var e := (f.actions + f.ops + f.exports)[i];
    assert e in f.actions || e in f.ops || e in f.exports;
  }

  /** What a file is put together from. */
  ghost predicate FileOk(g: Graph, actions: seq<Node>, ops: seq<Op>, rs: seq<Tree>, cs: seq<Tree>, bs: seq<Tree>, extra: seq<Tree>)
  {
    && OpsOk(g, ops) && NoMarks(cs + bs + extra)
    && IsTree(FileTree(g, actions, ops, rs, cs, bs, extra)) && AllShaped([FileTree(g, actions, ops, rs, cs, bs, extra)])
  }

  ghost function InterfaceOf(g: Graph, actions: seq<Node>, ops: seq<Op>, rs: seq<Tree>, exports: seq<Tree>): Interface
    requires (forall op | op in Hashed(ops) :: op.sym in g.syms) && forall e | e in exports :: IsExport(e)
  {
    Interface(ShownActions(actions, rs), ShownOps(g, Hashed(ops)), Signatures(exports))
  }

  lemma FileInput(self: string, digest: Digest, g: Graph, actions: seq<Node>, ops: seq<Op>, rs: seq<Tree>, cs: seq<Tree>, bs: seq<Tree>, extra: seq<Tree>)
    requires FileOk(g, actions, ops, rs, cs, bs, extra)
    ensures (forall op | op in Hashed(ops) :: op.sym in g.syms) && (forall e | e in AllExports(cs + bs + extra) :: IsExport(e))
    ensures var t, f := FileTree(g, actions, ops, rs, cs, bs, extra), InterfaceOf(g, actions, ops, rs, AllExports(cs + bs + extra));
      && Tagged(f) && TreesShown(f.actions + f.ops + f.exports)
      && InterfaceAtoms(self, digest, [t]) == ShownAtoms(SurfaceOf(self, [t]), digest, f.actions + f.ops + f.exports)
  {
    var t := FileTree(g, actions, ops, rs, cs, bs, extra);
    hide OpsOk, IsTree, NoMarks, AllShaped, FileTree, Hashed, AllExports, AllShown, ShownAtoms, TreesShown, IsExport, WithoutBody, Tagged;
    FileShown(g, actions, ops, rs, cs, bs, extra);
    ScansShow(SurfaceOf(self, [t]), digest, [t]);
    OneIsTree(t);
    AllShownAreTrees([t]);
    TaggedFile(g, actions, ops, rs, AllExports(cs + bs + extra));
  }

  lemma TaggedFile(g: Graph, actions: seq<Node>, ops: seq<Op>, rs: seq<Tree>, exports: seq<Tree>)
    requires (forall op | op in Hashed(ops) :: op.sym in g.syms) && forall e | e in exports :: IsExport(e)
    ensures Tagged(InterfaceOf(g, actions, ops, rs, exports))
  {
    hide Hashed;
    forall e | e in exports ensures WithoutBody(e).Branch? && WithoutBody(e).tag == SymDefTag {
    }
  }

  lemma OneIsTree(t: Tree)
    requires IsTree(t)
    ensures AreTrees([t])
  {
    assert [t][1..] == [];
  }

  /** Two written modules with the same hash input have replayed actions that agree, the same
      registrations in the same order, apart from pure enums, and exported definitions whose
      signatures agree, down to any depth of the types that they refer to. */
  lemma InterfaceTells(depth: nat, self: string, digest: Digest,
                       g: Graph, actions: seq<Node>, ops: seq<Op>, rs: seq<Tree>, cs: seq<Tree>, bs: seq<Tree>, extra: seq<Tree>,
                       g': Graph, actions': seq<Node>, ops': seq<Op>, rs': seq<Tree>, cs': seq<Tree>, bs': seq<Tree>, extra': seq<Tree>)
    requires Injective(digest) && FileOk(g, actions, ops, rs, cs, bs, extra) && FileOk(g', actions', ops', rs', cs', bs', extra')
    requires InterfaceAtoms(self, digest, [FileTree(g, actions, ops, rs, cs, bs, extra)])
          == InterfaceAtoms(self, digest, [FileTree(g', actions', ops', rs', cs', bs', extra')])
    ensures var s := SurfaceOf(self, [FileTree(g, actions, ops, rs, cs, bs, extra)]);
      var z := SurfaceOf(self, [FileTree(g', actions', ops', rs', cs', bs', extra')]);
      && (actions == [] <==> actions' == [])
      && (actions != [] ==> TreesAgree(depth, s, z, Branch(Replay, rs), Branch(Replay, rs'), false))
      && |Hashed(ops)| == |Hashed(ops')|
      && (forall i | 0 <= i < |Hashed(ops)| :: SameOp(s, z, g, Hashed(ops)[i], g', Hashed(ops')[i]))
      && var es, es' := AllExports(cs + bs + extra), AllExports(cs' + bs' + extra');
         |es| == |es'| && forall i | 0 <= i < |es| ::
           es[i].Branch? && es'[i].Branch? && TreesAgree(depth, s, z, WithoutBody(es[i]), WithoutBody(es'[i]), true)
  {
    hide OpsOk, NoMarks, IsTree, AllShaped, FileTree, Hashed, AllExports, ShownAtoms, InterfaceAtoms, SurfaceOf, TreesAgree, Injective, WithoutBody, OpTree,
      IsExport, TreesShown, Tagged, SameOp;
    FileInput(self, digest, g, actions, ops, rs, cs, bs, extra);
    FileInput(self, digest, g', actions', ops', rs', cs', bs', extra');
    var s := SurfaceOf(self, [FileTree(g, actions, ops, rs, cs, bs, extra)]);
    var z := SurfaceOf(self, [FileTree(g', actions', ops', rs', cs', bs', extra')]);
    var es, es' := AllExports(cs + bs + extra), AllExports(cs' + bs' + extra');
    var f, h := InterfaceOf(g, actions, ops, rs, es), InterfaceOf(g', actions', ops', rs', es');
    ExportsAreBranches(es);
    ExportsAreBranches(es');
    PartsAgree(depth, s, z, digest, f, h);
    KeptAsTagged(f);
    if actions != [] && actions' != [] { assert f.actions[0].tree == Branch(Replay, rs) && h.actions[0].tree == Branch(Replay, rs'); }
    forall i | 0 <= i < |Hashed(ops)| ensures SameOp(s, z, g, Hashed(ops)[i], g', Hashed(ops')[i]) {
      var o, o' := Hashed(ops)[i], Hashed(ops')[i];
      assert o in Hashed(ops) && o' in Hashed(ops');
      assert f.ops[i].tree == OpTree(g, o) && h.ops[i].tree == OpTree(g', o');
      OpAgrees(depth, s, z, g, o, g', o');
    }
    forall i | 0 <= i < |es| ensures es[i].Branch? && es'[i].Branch? && TreesAgree(depth, s, z, WithoutBody(es[i]), WithoutBody(es'[i]), true) {
      assert es[i] in es && es'[i] in es';
      assert f.exports[i].tree == WithoutBody(es[i]) && h.exports[i].tree == WithoutBody(es'[i]);
    }
  }

  lemma ExportsAreBranches(es: seq<Tree>)
    requires forall e | e in es :: IsExport(e)
    ensures forall e | e in es :: e.Branch?
  {
  }

  /** Registrations of the same kind, under the same key, and of symbols of the same name, where
      a symbol called like a type of the module is read as that type. */
  predicate SameOp(s: Surface, z: Surface, g: Graph, op: Op, g': Graph, op': Op)
  {
    op.sym in g.syms && op'.sym in g'.syms && op.kind == op'.kind && op.key == op'.key &&
    if Opened(s, {}, g.syms[op.sym].name) then Opened(z, {}, g'.syms[op'.sym].name) else g.syms[op.sym].name == g'.syms[op'.sym].name
  }

  lemma OpAgrees(depth: nat, s: Surface, z: Surface, g: Graph, op: Op, g': Graph, op': Op)
    requires op.sym in g.syms && op'.sym in g'.syms && TreesAgree(depth, s, z, OpTree(g, op), OpTree(g', op'), false)
    ensures SameOp(s, z, g, op, g', op')
  {
    var a, b := Flat(OpTree(g, op)), Flat(OpTree(g', op'));
    OpTokens(g, op);
    OpTokens(g', op');
    hide Opened, OpTree;
    assert a[0] == b[0] && a[1] == b[1];
    assert NamesAgree(s, z, {}, {}, a, b, false, 2);
  }

  lemma OpTokens(g: Graph, op: Op)
    requires op.sym in g.syms
    ensures Flat(OpTree(g, op)) == [ParLe(Registration(op.kind)), Str(op.key), Sym(g.syms[op.sym].name), ParRi]
  {
    var kids := OpTree(g, op).kids;
    assert kids[1..] == [kids[1]] && kids[1..][1..] == [];
    assert FlatAll([kids[1]]) == [Sym(g.syms[op.sym].name)] + FlatAll([]);
    assert FlatAll(kids) == [Str(op.key)] + FlatAll([kids[1]]);
  }
}
