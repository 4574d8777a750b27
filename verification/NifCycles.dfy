/** When type definitions refer to each other in a circle. Expanding a type inside its own
    expansion writes down its name, so that the text of a type on the circle depends on where
    the expansion started, and on the name. */
module NifCycles {
  import opened NifTokens
  import opened NifNames
  import opened NifCookie
  import opened NifInterface
  import opened SetSizes

  // ---------- references between definitions ----------

  ghost predicate NamedIn(toks: seq<Tok>, name: string)
  {
    exists i :: 0 <= i < |toks| && IsName(toks[i]) && toks[i].name == name
  }

  /** The definition of type `a` has a reference to type `b` that an expansion follows. */
  ghost predicate Refers(s: Surface, a: string, b: string)
  {
    a in s.tds && b in s.tds && NamedIn(s.tds[a], b) && Expandable(s.self, Defs(s.self, s.tds[a], false), b)
  }

  ghost predicate Route(s: Surface, p: seq<string>)
  {
    p != [] && (forall i | 0 <= i < |p| :: p[i] in s.tds) && forall i | 0 <= i < |p| - 1 :: Refers(s, p[i], p[i + 1])
  }

  function End(p: seq<string>): string
    requires p != []
  {
    p[|p| - 1]
  }

  /** No type refers to itself through another type. */
  ghost predicate Acyclic(s: Surface)
  {
    forall p | Route(s, p) && p[0] == End(p) :: forall i | 0 <= i < |p| :: p[i] == p[0]
  }

  function Around(p: seq<string>): set<string>
    requires p != []
  {
    set i | 0 <= i < |p| - 1 :: p[i]
  }

  /** The text of a type is the same wherever the expansion that meets it started. */
  ghost predicate OrderFree(s: Surface, digest: Digest)
  {
    forall p | Route(s, p) && End(p) !in Around(p) :: Expand(s, digest, End(p), Around(p)) == Expand(s, digest, End(p), {})
  }

  /** Every definition holds its own name as a definition. */
  ghost predicate OwnNames(s: Surface)
  {
    forall n | n in s.tds :: SymDef(n) in s.tds[n]
  }

  // ---------- ranked definitions are free of circles, and the other way round ----------

  lemma {:induction false} RankFalls(s: Surface, rank: string -> nat, p: seq<string>, i: nat)
    requires Ranked(s, rank) && Route(s, p) && i < |p| - 1
    ensures rank(p[i]) > rank(End(p))
    decreases |p| - i
  {
    hide Defs, Expandable;
    assert Refers(s, p[i], p[i + 1]);
    var k :| 0 <= k < |s.tds[p[i]]| && IsName(s.tds[p[i]][k]) && s.tds[p[i]][k].name == p[i + 1];
    assert s.tds[p[i]][k] in s.tds[p[i]];
    if i + 1 < |p| - 1 {
      RankFalls(s, rank, p, i + 1);
    }
  }

  lemma RankedIsOrderFree(s: Surface, digest: Digest, rank: string -> nat)
    requires Ranked(s, rank)
    ensures OrderFree(s, digest)
  {
    hide Ranked, Expand, Refers;
    forall p | Route(s, p) ensures Above(rank, Around(p), rank(End(p))) {
      forall b | b in Around(p) ensures rank(b) > rank(End(p)) {
        var i :| 0 <= i < |p| - 1 && p[i] == b;
        RankFalls(s, rank, p, i);
      }
    }
    forall p | Route(s, p) && End(p) !in Around(p) ensures Expand(s, digest, End(p), Around(p)) == Expand(s, digest, End(p), {}) {
      ExpandIgnoresBusy(s, digest, rank, End(p), Around(p));
    }
  }

  lemma RankedIsAcyclic(s: Surface, rank: string -> nat)
    requires Ranked(s, rank)
    ensures Acyclic(s)
  {
    hide Ranked, Refers;
    forall p | Route(s, p) && p[0] == End(p) ensures forall i | 0 <= i < |p| :: p[i] == p[0] {
      if |p| > 1 { RankFalls(s, rank, p, 0); }
    }
  }

  lemma {:induction false} Defined(self: string, toks: seq<Tok>, n: string, k: nat)
    requires k <= |toks| && ModuleLocal(self, n) && exists i :: 0 <= i < k && toks[i] == SymDef(n)
    ensures n in DefsTo(self, toks, k, false)
  {
    var i :| 0 <= i < k && toks[i] == SymDef(n);
    if i < k - 1 {
      Defined(self, toks, n, k - 1);
    }
  }

  lemma NotItself(s: Surface, n: string)
    requires OwnNames(s)
    ensures !Refers(s, n, n)
  {
    if Refers(s, n, n) {
      var i :| 0 <= i < |s.tds[n]| && s.tds[n][i] == SymDef(n);
      Defined(s.self, s.tds[n], n, |s.tds[n]|);
    }
  }

  /** The types that a type leads to. */
  ghost function Below(s: Surface, n: string): set<string>
  {
    set m | m in s.tds && exists p :: Route(s, p) && p[0] == n && End(p) == m
  }

  lemma RouteMore(s: Surface, a: string, p: seq<string>)
    requires Route(s, p) && Refers(s, a, p[0])
    ensures Route(s, [a] + p) && End([a] + p) == End(p)
  {
    hide Refers;
    var q := [a] + p;
    assert a in s.tds by { FromType(s, a, p[0]); }
    forall i | 0 <= i < |q| - 1 ensures Refers(s, q[i], q[i + 1]) {
      if i > 0 { assert Refers(s, p[i - 1], p[i]); }
    }
  }

  lemma FromType(s: Surface, a: string, b: string)
    requires Refers(s, a, b)
    ensures a in s.tds && b in s.tds
  {
  }

  lemma BelowShrinks(s: Surface, a: string, b: string)
    requires Acyclic(s) && OwnNames(s) && Refers(s, a, b)
    ensures |Below(s, b)| < |Below(s, a)|
  {
    NotItself(s, a);
    FromType(s, a, b);
    hide Refers, Route, OwnNames;
    forall m | m in Below(s, b) ensures m in Below(s, a) {
      var p :| Route(s, p) && p[0] == b && End(p) == m;
      RouteMore(s, a, p);
    }
    assert Route(s, [a]) && End([a]) == a by { OneType(s, a); }
    assert a in Below(s, a);
    if a in Below(s, b) {
      var p :| Route(s, p) && p[0] == b && End(p) == a;
      RouteMore(s, a, p);
      assert ([a] + p)[1] == b;
    }
    SubsetSize(Below(s, b), Below(s, a) - {a});
  }

  lemma OneType(s: Surface, a: string)
    requires a in s.tds
    ensures Route(s, [a]) && End([a]) == a
  {
  }

  lemma AcyclicIsRanked(s: Surface) returns (rank: string -> nat)
    requires Acyclic(s) && OwnNames(s)
    ensures Ranked(s, rank)
  {
    rank := n => |Below(s, n)|;
    forall name, t | name in s.tds && t in s.tds[name] && IsName(t)
                     && Expandable(s.self, Defs(s.self, s.tds[name], false), t.name) && t.name in s.tds
      ensures rank(t.name) < rank(name)
    {
      var i :| 0 <= i < |s.tds[name]| && s.tds[name][i] == t;
      assert NamedIn(s.tds[name], t.name);
      BelowShrinks(s, name, t.name);
    }
  }

  // ---------- a circle makes the text depend on where the expansion started ----------

  /** From `x` there is a way to `a` over types that are neither busy nor met before. */
  ghost predicate Leads(s: Surface, x: string, a: string, busy: set<string>, steps: nat)
    decreases steps
  {
    x in s.tds && x !in busy && (x == a || (steps > 0 && exists y :: Refers(s, x, y) && Leads(s, y, a, busy + {x}, steps - 1)))
  }

  lemma {:induction false} RouteLeads(s: Surface, p: seq<string>, busy: set<string>)
    requires Route(s, p) && forall i | 0 <= i < |p| :: p[i] !in busy
    ensures Leads(s, p[0], End(p), busy, |p|)
    decreases |p|
  {
    hide Refers;
    if p[0] != End(p) {
      if i :| 0 < i < |p| && p[i] == p[0] {
        RouteTail(s, p, i);
        RouteLeads(s, p[i..], busy);
        LeadsLonger(s, p[0], End(p), busy, |p| - i, |p|);
      } else {
        RouteTail(s, p, 1);
        RouteLeads(s, p[1..], busy + {p[0]});
        assert Refers(s, p[0], p[1]);
      }
    }
  }

  lemma RouteTail(s: Surface, p: seq<string>, i: nat)
    requires Route(s, p) && i < |p|
    ensures Route(s, p[i..]) && End(p[i..]) == End(p)
  {
    hide Refers;
    forall k | 0 <= k < |p[i..]| - 1 ensures Refers(s, p[i..][k], p[i..][k + 1]) {
      assert Refers(s, p[i + k], p[i + k + 1]);
    }
  }

  lemma {:induction false} LeadsLonger(s: Surface, x: string, a: string, busy: set<string>, n: nat, m: nat)
    requires Leads(s, x, a, busy, n) && n <= m
    ensures Leads(s, x, a, busy, m)
    decreases n
  {
    hide Refers;
    if x != a {
      var y :| Refers(s, x, y) && Leads(s, y, a, busy + {x}, n - 1);
      LeadsLonger(s, y, a, busy + {x}, n - 1, m - 1);
    }
  }

  /** Regions that differ in one atom have different digests. */
  lemma OneAtomTells(digest: Digest, s: Surface, toks: seq<Tok>, busy: set<string>, s': Surface, toks': seq<Tok>, busy': set<string>, i: nat)
    requires Injective(digest) && |toks| == |toks'| && i < |toks|
    requires AtomAt(s, digest, toks, false, busy, i) != AtomAt(s', digest, toks', false, busy', i)
    ensures digest(Atoms(s, digest, toks, false, busy)) != digest(Atoms(s', digest, toks', false, busy'))
  {
    hide AtomAt;
    assert Atoms(s, digest, toks, false, busy)[i] != Atoms(s', digest, toks', false, busy')[i];
  }

  /** The atom of a reference that is expanded. */
  lemma ReferenceAtom(s: Surface, digest: Digest, toks: seq<Tok>, busy: set<string>, i: nat, y: string)
    requires i < |toks| && IsName(toks[i]) && toks[i].name == y && Expandable(s.self, Defs(s.self, toks, false), y)
    ensures AtomAt(s, digest, toks, false, busy, i) == NameAtom(toks[i].SymDef?, Expand(s, digest, y, busy))
  {
    hide Defs, Expand, TypeLike, ModuleLocal;
  }

  lemma ExpandedText(s: Surface, digest: Digest, x: string, busy: set<string>)
    requires x in s.tds && x !in busy
    ensures Expand(s, digest, x, busy) == Structure(digest(Atoms(s, digest, s.tds[x], false, busy + {x})))
  {
  }

  /** A type that leads to `a` reads otherwise inside the expansion of `a` than outside. */
  lemma {:induction false} TextsDiffer(s: Surface, digest: Digest, x: string, a: string, busy: set<string>, steps: nat)
    requires Injective(digest) && Leads(s, x, a, busy, steps) && x != a && a !in busy && a in s.tds
    ensures Expand(s, digest, x, busy + {a}) != Expand(s, digest, x, busy)
    decreases steps
  {
    var y :| Refers(s, x, y) && Leads(s, y, a, busy + {x}, steps - 1);
    var toks := s.tds[x];
    var i :| 0 <= i < |toks| && IsName(toks[i]) && toks[i].name == y;
    hide Defs, Atoms, AtomAt, Injective, Leads, Expandable;
    ExpandedText(s, digest, x, busy + {a});
    ExpandedText(s, digest, x, busy);
    ReferenceAtom(s, digest, toks, busy + {a} + {x}, i, y);
    ReferenceAtom(s, digest, toks, busy + {x}, i, y);
    assert busy + {a} + {x} == busy + {x} + {a};
    if y != a {
      TextsDiffer(s, digest, y, a, busy + {x}, steps - 1);
    }
    hide Expand;
    OneAtomTells(digest, s, toks, busy + {a} + {x}, s, toks, busy + {x}, i);
  }

  /** On a circle some type is followed by another, from which a way leads back. */
  lemma CircleLeads(s: Surface, p: seq<string>) returns (x: string)
    requires Route(s, p) && p[0] == End(p) && exists i :: 0 <= i < |p| && p[i] != p[0]
    ensures Refers(s, p[0], x) && x != p[0] && Leads(s, x, p[0], {}, |p|)
  {
    hide Refers;
    var i := 0;
    while p[i + 1] == p[0]
      invariant 0 <= i < |p| - 1 && forall k | 0 <= k <= i :: p[k] == p[0]
      decreases |p| - i
    {
      i := i + 1;
    }
    x := p[i + 1];
    assert Refers(s, p[i], p[i + 1]);
    RouteTail(s, p, i + 1);
    RouteLeads(s, p[i + 1..], {});
    LeadsLonger(s, x, p[0], {}, |p[i + 1..]|, |p|);
  }

  lemma OrderFreeIsAcyclic(s: Surface, digest: Digest)
    requires Injective(digest) && OrderFree(s, digest)
    ensures Acyclic(s)
  {
    hide Injective, Refers;
    forall p | Route(s, p) && p[0] == End(p) ensures forall i | 0 <= i < |p| :: p[i] == p[0] {
      if exists i :: 0 <= i < |p| && p[i] != p[0] {
        var x := CircleLeads(s, p);
        var a := p[0];
        FromType(s, a, x);
        OneType(s, x);
        RouteMore(s, a, [x]);
        assert End([a] + [x]) == x && Around([a] + [x]) == {a} by {
          assert ([a] + [x])[0] == a;
        }
        assert {} + {a} == {a};
        TextsDiffer(s, digest, x, a, {}, |p|);
      }
    }
  }

  // ---------- exactly when the order of expansions does not matter ----------

  lemma {:induction false} TdsOwnNames(t: Tree, tds: Tds)
    requires forall n | n in tds :: SymDef(n) in tds[n]
    ensures forall n | n in AddTds(t, tds) :: SymDef(n) in AddTds(t, tds)[n]
    decreases t, 0
  {
    match t
    case Atom(_) =>
    case Branch(tag, kids) =>
      TdOwnName(t, tds);
      AllTdsOwnNames(kids, AddTd(t, tds));
  }

  lemma {:induction false} AllTdsOwnNames(ts: seq<Tree>, tds: Tds)
    requires forall n | n in tds :: SymDef(n) in tds[n]
    ensures forall n | n in AddAllTds(ts, tds) :: SymDef(n) in AddAllTds(ts, tds)[n]
    decreases ts, 1
  {
    if ts != [] {
      TdsOwnNames(ts[0], tds);
      AllTdsOwnNames(ts[1..], AddTds(ts[0], tds));
    }
  }

  lemma TdOwnName(t: Tree, tds: Tds)
    requires t.Branch? && forall n | n in tds :: SymDef(n) in tds[n]
    ensures forall n | n in AddTd(t, tds) :: SymDef(n) in AddTd(t, tds)[n]
  {
    if t.tag.TypeDefTag? && t.kids != [] && t.kids[0].Atom? && t.kids[0].tok.SymDef? {
      assert Flat(t)[1] == FlatAll(t.kids)[0] == Flat(t.kids[0])[0] == t.kids[0].tok;
    }
  }

  /** For the type definitions of every module, and a digest that never collides: the text of
      a type is the same wherever its expansion started if and only if no type refers to
      itself through another type, and that is so if and only if the types can be ranked. */
  lemma OrderFreeExactly(self: string, digest: Digest, ts: seq<Tree>)
    requires Injective(digest)
    ensures var s := SurfaceOf(self, ts);
      (OrderFree(s, digest) <==> Acyclic(s)) && (Acyclic(s) <==> exists rank :: Ranked(s, rank))
  {
    var s := SurfaceOf(self, ts);
    AllTdsOwnNames(ts, map[]);
    hide OrderFree, Acyclic, Ranked, Injective, AddAllTds;
    assert OwnNames(s);
    if OrderFree(s, digest) {
      OrderFreeIsAcyclic(s, digest);
    }
    if Acyclic(s) {
      var rank := AcyclicIsRanked(s);
      RankedIsOrderFree(s, digest, rank);
    }
    if rank :| Ranked(s, rank) {
      RankedIsAcyclic(s, rank);
    }
  }

  // ---------- a circle makes the text depend on the names ----------

  /** The renaming changes the name of one type only. */
  ghost predicate RenamesOne(r: Renaming, s: Surface, s': Surface, names: set<string>, a: string)
  {
    && Renames(r, s, s', names) && s.tds.Keys <= names && a in s.tds && r(a) != a
    && forall n | n in names && n != a :: r(n) == n
  }

  /** The atom of a reference that is expanded, in the renamed surface. */
  lemma RenamedReference(r: Renaming, s: Surface, s': Surface, names: set<string>, digest: Digest, toks: seq<Tok>,
                         busy': set<string>, i: nat, y: string)
    requires Renames(r, s, s', names) && NamesAmong(toks, names) && i < |toks| && IsName(toks[i]) && toks[i].name == y
    requires Expandable(s.self, Defs(s.self, toks, false), y)
    ensures AtomAt(s', digest, RenameToks(r, toks), false, busy', i) == NameAtom(toks[i].SymDef?, Expand(s', digest, r(y), busy'))
  {
    assert toks[i] in toks;
    DefsRenamed(r, s, s', names, toks, |toks|, false);
    InRenamed(r, names, Defs(s.self, toks, false), Defs(s.self, RenameToks(r, toks), false), y);
    hide Renames, NamesAmong, TypeLike, ModuleLocal, Expand;
    ReferenceAtom(s', digest, RenameToks(r, toks), busy', i, r(y));
  }

  /** What tells a reference apart tells the type apart. */
  lemma StepLeaks(r: Renaming, s: Surface, s': Surface, names: set<string>, digest: Digest, x: string, y: string,
                  busy: set<string>, busy': set<string>)
    requires Injective(digest) && Renames(r, s, s', names) && x in names && Refers(s, x, y) && x !in busy && r(x) !in busy'
    requires Expand(s', digest, r(y), busy' + {r(x)}) != Expand(s, digest, y, busy + {x})
    ensures Expand(s', digest, r(x), busy') != Expand(s, digest, x, busy)
  {
    var toks := s.tds[x];
    var i :| 0 <= i < |toks| && IsName(toks[i]) && toks[i].name == y;
    assert r(x) in s'.tds && s'.tds[r(x)] == RenameToks(r, toks) && NamesAmong(toks, names);
    hide Renames, Injective, Expand, Defs, Expandable, Atoms, AtomAt, NamesAmong;
    ExpandedText(s, digest, x, busy);
    ExpandedText(s', digest, r(x), busy');
    ReferenceAtom(s, digest, toks, busy + {x}, i, y);
    RenamedReference(r, s, s', names, digest, toks, busy' + {r(x)}, i, y);
    OneAtomTells(digest, s, toks, busy + {x}, s', RenameToks(r, toks), busy' + {r(x)}, i);
  }

  /** A type that leads to `a` has another text inside the expansion of `a` when `a` has
      another name. */
  lemma {:induction false} NamesLeak(r: Renaming, s: Surface, s': Surface, names: set<string>, digest: Digest, x: string, a: string,
                                     busy: set<string>, steps: nat)
    requires Injective(digest) && RenamesOne(r, s, s', names, a) && Leads(s, x, a, busy, steps) && x != a && a !in busy
    requires r(a) !in busy
    ensures Expand(s', digest, x, busy + {r(a)}) != Expand(s, digest, x, busy + {a})
    decreases steps
  {
    hide Leads, Refers, Renames, Injective, Expand, RenamesOne;
    var y := NextType(s, x, a, busy, steps);
    OnlyOneRenamed(r, s, s', names, a, x);
    OnlyOneRenamed(r, s, s', names, a, y);
    if y == a {
      BusyText(s, digest, a, busy + {x} + {a});
      BusyText(s', digest, r(a), busy + {x} + {r(a)});
    } else {
      NamesLeak(r, s, s', names, digest, y, a, busy + {x}, steps - 1);
    }
    assert busy + {x} + {a} == busy + {a} + {x} && busy + {x} + {r(a)} == busy + {r(a)} + {x};
    StepLeaks(r, s, s', names, digest, x, y, busy + {a}, busy + {r(a)});
  }

  lemma NextType(s: Surface, x: string, a: string, busy: set<string>, steps: nat) returns (y: string)
    requires Leads(s, x, a, busy, steps) && x != a
    ensures steps > 0 && Refers(s, x, y) && Leads(s, y, a, busy + {x}, steps - 1) && x in s.tds && y in s.tds && x !in busy
  {
    y :| Refers(s, x, y) && Leads(s, y, a, busy + {x}, steps - 1);
  }

  lemma OnlyOneRenamed(r: Renaming, s: Surface, s': Surface, names: set<string>, a: string, x: string)
    requires RenamesOne(r, s, s', names, a) && x in s.tds
    ensures x in names && a in names && r(a) != a && Renames(r, s, s', names) && (x != a ==> r(x) == x && x != r(a))
  {
    hide Refers, NamesAmong, ModuleLocal, TypeLike, RenameToks;
  }

  lemma BusyText(s: Surface, digest: Digest, n: string, busy: set<string>)
    requires n in busy
    ensures Expand(s, digest, n, busy) == Plain(n)
  {
  }

  /** Renaming a type on a circle changes the text of the type, for every circle through
      different types: invariance under renaming needs definitions without circles. */
  lemma CircleLeaksName(r: Renaming, s: Surface, s': Surface, names: set<string>, digest: Digest, p: seq<string>)
    requires Injective(digest) && Route(s, p) && p[0] == End(p) && exists i :: 0 <= i < |p| && p[i] != p[0]
    requires RenamesOne(r, s, s', names, p[0])
    ensures Expand(s', digest, r(p[0]), {}) != Expand(s, digest, p[0], {})
  {
    hide Leads, Refers, Renames, Injective, Expand, RenamesOne;
    var x := CircleLeads(s, p);
    var a := p[0];
    FromType(s, a, x);
    OnlyOneRenamed(r, s, s', names, a, x);
    NamesLeak(r, s, s', names, digest, x, a, {}, |p|);
    assert {} + {r(a)} == {r(a)} && {} + {a} == {a};
    StepLeaks(r, s, s', names, digest, a, x, {}, {});
  }

  // ---------- a circle ----------

  /** Two type definitions, each of which refers to the other without holding its definition.
      The writer never puts out such a pair: it defines a type in the place of the first
      reference to it. */
  function MutualTds(a: string, b: string): seq<Tree>
  {
    [Branch(TypeDefTag, [Atom(SymDef(a)), Atom(Sym(b))]), Branch(TypeDefTag, [Atom(SymDef(b)), Atom(Sym(a))])]
  }

  function MutualToks(a: string, b: string): seq<Tok>
  {
    [ParLe(TypeDefTag), SymDef(a), Sym(b), ParRi]
  }

  lemma MutualSurface(self: string, a: string, b: string)
    requires a != b
    ensures SurfaceOf(self, MutualTds(a, b)) == Surface(self, map[a := MutualToks(a, b), b := MutualToks(b, a)])
  {
    var ts := MutualTds(a, b);
    MutualFlat(a, b);
    MutualFlat(b, a);
    var one := map[a := MutualToks(a, b)];
    assert AddTd(ts[0], map[]) == one;
    AtomsAddNothing(ts[0].kids, one);
    assert AddTds(ts[0], map[]) == one;
    var two := one[b := MutualToks(b, a)];
    assert AddTd(ts[1], one) == two;
    AtomsAddNothing(ts[1].kids, two);
    assert AddTds(ts[1], one) == two;
    assert ts[1..] == [ts[1]] && ts[1..][1..] == [];
    assert AddAllTds([], two) == two;
    assert AddAllTds(ts[1..], one) == two;
  }

  lemma MutualFlat(a: string, b: string)
    ensures Flat(Branch(TypeDefTag, [Atom(SymDef(a)), Atom(Sym(b))])) == MutualToks(a, b)
  {
    var kids := [Atom(SymDef(a)), Atom(Sym(b))];
    assert kids[1..] == [Atom(Sym(b))] && kids[1..][1..] == [];
    assert FlatAll([]) == [] && FlatAll([Atom(Sym(b))]) == [Sym(b)] + [] && FlatAll(kids) == [SymDef(a)] + [Sym(b)];
  }

  lemma {:induction false} AtomsAddNothing(ts: seq<Tree>, tds: Tds)
    requires forall i | 0 <= i < |ts| :: ts[i].Atom?
    ensures AddAllTds(ts, tds) == tds
    decreases |ts|
  {
    if ts != [] {
      AtomsAddNothing(ts[1..], tds);
    }
  }

  /** The reference in such a definition is followed. */
  lemma MutualRefers(self: string, a: string, b: string)
    requires a != b && TypeLike(b) && ModuleLocal(self, b)
    ensures Refers(SurfaceOf(self, MutualTds(a, b)), a, b) && Refers(SurfaceOf(self, MutualTds(b, a)), a, b)
  {
    MutualSurface(self, a, b);
    MutualSurface(self, b, a);
    var toks := MutualToks(a, b);
    hide TypeLike, ModuleLocal;
    assert toks[2] == Sym(b);
    assert NamedIn(toks, b);
    var d1, d2 := DefsTo(self, toks, 1, false), DefsTo(self, toks, 2, false);
    assert d1 == [] by { assert DefsTo(self, toks, 0, false) == []; }
    assert b !in d2 && DefsTo(self, toks, 3, false) == d2 && DefsTo(self, toks, 4, false) == d2;
  }

  /** For two types that refer to each other, and a digest that never collides, the text of
      the one is another inside the expansion of the other than outside, and renaming the one
      changes its own text. */
  lemma CyclesLeakNames(self: string, digest: Digest, a: string, b: string, a': string)
    requires Injective(digest) && a != b && a' != a && a' != b
    requires TypeLike(a) && TypeLike(b) && TypeLike(a') && ModuleLocal(self, a) && ModuleLocal(self, b) && ModuleLocal(self, a')
    ensures var s, s' := SurfaceOf(self, MutualTds(a, b)), SurfaceOf(self, MutualTds(a', b));
      && !Acyclic(s)
      && Expand(s, digest, b, {a}) != Expand(s, digest, b, {})
      && Expand(s', digest, a', {}) != Expand(s, digest, a, {})
  {
    hide *;
    var s, s' := SurfaceOf(self, MutualTds(a, b)), SurfaceOf(self, MutualTds(a', b));
    MutualRefers(self, a, b);
    MutualRefers(self, b, a);
    MutualCircle(s, a, b);
    TextsDiffer(s, digest, b, a, {}, 1);
    assert {} + {a} == {a};
    var r := RenamesMutual(self, a, b, a');
    CircleLeaksName(r, s, s', {a, b}, digest, [a, b, a]);
  }

  lemma MutualCircle(s: Surface, a: string, b: string)
    requires a != b && Refers(s, a, b) && Refers(s, b, a)
    ensures !Acyclic(s) && Leads(s, b, a, {}, 1) && a in s.tds
    ensures var p := [a, b, a]; Route(s, p) && p[0] == End(p) && exists i :: 0 <= i < |p| && p[i] != p[0]
  {
    hide NamedIn, Expandable, Defs;
    var p := [a, b, a];
    assert Route(s, p) && p[0] == End(p) && p[1] != p[0];
    assert Leads(s, a, a, {} + {b}, 0);
    assert Leads(s, b, a, {}, 1);
  }

  function Swap(a: string, a': string): Renaming
  {
    n => if n == a then a' else n
  }

  lemma MutualToksRenamed(a: string, b: string, a': string)
    requires a != b
    ensures RenameToks(Swap(a, a'), MutualToks(a, b)) == MutualToks(a', b) && RenameToks(Swap(a, a'), MutualToks(b, a)) == MutualToks(b, a')
    ensures NamesAmong(MutualToks(a, b), {a, b}) && NamesAmong(MutualToks(b, a), {a, b})
  {
  }

  lemma RenamesMutual(self: string, a: string, b: string, a': string) returns (r: Renaming)
    requires a != b && a' != a && a' != b
    requires TypeLike(a) && TypeLike(b) && TypeLike(a') && ModuleLocal(self, a) && ModuleLocal(self, b) && ModuleLocal(self, a')
    ensures r(a) == a' && RenamesOne(r, SurfaceOf(self, MutualTds(a, b)), SurfaceOf(self, MutualTds(a', b)), {a, b}, a)
  {
    hide TypeLike, ModuleLocal, SurfaceOf, MutualToks, RenameToks, NamesAmong, MutualTds;
    r := Swap(a, a');
    MutualSurface(self, a, b);
    MutualSurface(self, a', b);
    MutualToksRenamed(a, b, a');
  }
}
