/** Can a location of one type be part of a location of another? A depth-first search over
    a type graph with cycles, with a set of marked types. */
module TypeAliases {
  import opened Options
  import opened SetSizes

  type TypeId = nat

  /** The fields of an object type. */
  datatype Rec =
    | RecList(kids: seq<Rec>)
    | RecCase(discriminator: Option<TypeId>, branches: seq<Branch>)
    | RecSym(typ: Option<TypeId>)
    | RecOther

  /** A branch of a record case, with its last son; other sons are ignored. */
  datatype Branch = OfOrElse(body: Rec) | OtherSon

  datatype Ty =
    | Object(baseClass: Option<TypeId>, n: Rec)
    | Modified(inner: Option<TypeId>)
    | Container(element: Option<TypeId>)
    | Tuple(kids: seq<Option<TypeId>>)
    | Plain

  /** The types by number, and what stands behind the pointers and modifiers of a type. */
  datatype Types = Types(all: map<TypeId, Ty>, skipPtrs: map<TypeId, TypeId>)

  datatype AnalysisResult = ArNo | ArMaybe | ArYes

  // ---------- what is part of a type ----------

  function Of(t: Option<TypeId>): set<TypeId>
  {
    if t.Some? then {t.value} else {}
  }

  function RecTypes(n: Rec): set<TypeId>
    decreases n
  {
    match n
    case RecList(kids) => RecTypesAll(kids)
    case RecCase(d, branches) => Of(d) + BranchTypes(branches)
    case RecSym(typ) => Of(typ)
    case RecOther => {}
  }

  function RecTypesAll(ns: seq<Rec>): set<TypeId>
    decreases ns
  {
    if ns == [] then {} else RecTypes(ns[0]) + RecTypesAll(ns[1..])
  }

  function OneBranch(b: Branch): set<TypeId>
    decreases b
  {
    match b
    case OfOrElse(body) => RecTypes(body)
    case OtherSon => {}
  }

  function BranchTypes(bs: seq<Branch>): set<TypeId>
    decreases bs
  {
    if bs == [] then {} else OneBranch(bs[0]) + BranchTypes(bs[1..])
  }

  function KidTypes(ts: seq<Option<TypeId>>): set<TypeId>
  {
    if ts == [] then {} else Of(ts[0]) + KidTypes(ts[1..])
  }

  /** The types of the direct parts of a type: its base class, fields, elements, or what it
      modifies. */
  function Parts(g: Types, t: TypeId): set<TypeId>
    requires t in g.all
  {
    match g.all[t]
    case Object(b, n) => (if b.Some? && b.value in g.skipPtrs then {g.skipPtrs[b.value]} else {}) + RecTypes(n)
    case Modified(inner) => Of(inner)
    case Container(element) => Of(element)
    case Tuple(kids) => KidTypes(kids)
    case Plain => {}
  }

  ghost predicate TypesOk(g: Types)
  {
    forall t | t in g.all ::
      && Parts(g, t) <= g.all.Keys
      && (g.all[t].Object? && g.all[t].baseClass.Some? ==> g.all[t].baseClass.value in g.skipPtrs)
  }

  /** The path leads from part to part. */
  ghost predicate IsPath(g: Types, path: seq<TypeId>)
  {
    && path != [] && (forall i | 0 <= i < |path| :: path[i] in g.all)
    && forall i | 0 <= i < |path| - 1 :: path[i + 1] in Parts(g, path[i])
  }

  ghost predicate Reaches(g: Types, from: TypeId, to: TypeId)
  {
    exists path :: IsPath(g, path) && path[0] == from && path[|path| - 1] == to
  }

  /** Some type among the parts of the parts of `from` compares equal to `b`. */
  ghost predicate Finds(g: Types, from: TypeId, b: TypeId, same: (TypeId, TypeId) -> bool)
  {
    exists t :: Reaches(g, from, t) && same(t, b)
  }

  lemma FindsHere(g: Types, t: TypeId, b: TypeId, same: (TypeId, TypeId) -> bool)
    requires t in g.all && same(t, b)
    ensures Finds(g, t, b, same)
  {
    assert IsPath(g, [t]);
    assert Reaches(g, t, t);
  }

  lemma FindsBelow(g: Types, t: TypeId, part: TypeId, b: TypeId, same: (TypeId, TypeId) -> bool)
    requires t in g.all && part in Parts(g, t) && Finds(g, part, b, same)
    ensures Finds(g, t, b, same)
  {
    var found :| Reaches(g, part, found) && same(found, b);
    var path :| IsPath(g, path) && path[0] == part && path[|path| - 1] == found;
    assert IsPath(g, [t] + path);
    assert Reaches(g, t, found);
  }

  /** The marked types that are new have been looked at with all their parts, and none of
      them compares equal. */
  ghost predicate Exhausted(g: Types, before: set<TypeId>, after: set<TypeId>, b: TypeId, same: (TypeId, TypeId) -> bool)
  {
    && before <= after <= g.all.Keys
    && forall t | t in after - before :: !same(t, b) && Parts(g, t) <= after
  }

  lemma {:induction false} ClosedPath(g: Types, marked: set<TypeId>, path: seq<TypeId>, i: nat)
    requires marked <= g.all.Keys && (forall t | t in marked :: Parts(g, t) <= marked)
    requires IsPath(g, path) && path[0] in marked && i < |path|
    ensures path[i] in marked
  {
    if i > 0 {
      ClosedPath(g, marked, path, i - 1);
    }
  }

  /** A search from nothing marked that ends without a find has seen everything. */
  lemma ExhaustedFindsNothing(g: Types, marked: set<TypeId>, from: TypeId, b: TypeId, same: (TypeId, TypeId) -> bool)
    requires Exhausted(g, {}, marked, b, same) && from in marked
    ensures !Finds(g, from, b, same)
  {
    forall t | Reaches(g, from, t) ensures !same(t, b) {
      var path :| IsPath(g, path) && path[0] == from && path[|path| - 1] == t;
      ClosedPath(g, marked, path, |path| - 1);
    }
  }

  lemma ExhaustedTwice(g: Types, m0: set<TypeId>, m1: set<TypeId>, m2: set<TypeId>, b: TypeId, same: (TypeId, TypeId) -> bool)
    requires Exhausted(g, m0, m1, b, same) && Exhausted(g, m1, m2, b, same)
    ensures Exhausted(g, m0, m2, b, same)
  {
  }

  /** A search below some types, which took the marked types from `before` to `after`, has
      found the sought part, or has seen that none of the types has it. */
  ghost predicate Searched(g: Types, r: AnalysisResult, before: set<TypeId>, after: set<TypeId>, types: set<TypeId>, b: TypeId,
                           same: (TypeId, TypeId) -> bool)
  {
    before <= after <= g.all.Keys &&
    match r
    case ArYes => exists t | t in types :: Finds(g, t, b, same)
    case ArNo => Exhausted(g, before, after, b, same) && types <= after
    case ArMaybe => false
  }

  lemma SearchedMore(g: Types, r: AnalysisResult, m0: set<TypeId>, m1: set<TypeId>, m2: set<TypeId>, some: set<TypeId>,
                     more: set<TypeId>, b: TypeId, same: (TypeId, TypeId) -> bool)
    requires Searched(g, ArNo, m0, m1, some, b, same) && Searched(g, r, m1, m2, more, b, same)
    ensures Searched(g, r, m0, m2, some + more, b, same)
  {
    hide Finds;
    if r.ArNo? {
      ExhaustedTwice(g, m0, m1, m2, b, same);
    }
  }

  lemma FoundAmong(g: Types, m0: set<TypeId>, m1: set<TypeId>, m2: set<TypeId>, some: set<TypeId>, types: set<TypeId>, b: TypeId,
                   same: (TypeId, TypeId) -> bool)
    requires m0 <= m1 && some <= types && Searched(g, ArYes, m1, m2, some, b, same)
    ensures Searched(g, ArYes, m0, m2, types, b, same)
  {
    hide Finds;
  }

  lemma NothingSearched(g: Types, m: set<TypeId>, b: TypeId, same: (TypeId, TypeId) -> bool)
    requires m <= g.all.Keys
    ensures Searched(g, ArNo, m, m, {}, b, same)
  {
  }

  /** A type that does not compare equal itself has what its parts have. */
  lemma SearchedParts(g: Types, r: AnalysisResult, m: set<TypeId>, after: set<TypeId>, t: TypeId, b: TypeId,
                      same: (TypeId, TypeId) -> bool)
    requires t in g.all && t !in m && m <= g.all.Keys && !same(t, b)
    requires Searched(g, r, m + {t}, after, Parts(g, t), b, same)
    ensures Searched(g, r, m, after, {t}, b, same)
  {
    if r.ArYes? {
      var part :| part in Parts(g, t) && Finds(g, part, b, same);
      FindsBelow(g, t, part, b, same);
    }
  }

  // ---------- the search ----------

  class Search {
    const g: Types
    /** Do two types compare equal, modulo distinctness? */
    const same: (TypeId, TypeId) -> bool
    var marker: set<TypeId>

    constructor (g: Types, same: (TypeId, TypeId) -> bool)
      ensures this.g == g && this.same == same && marker == {}
    {
      this.g, this.same, marker := g, same, {};
    }

    method VisitType(a: Option<TypeId>, b: TypeId) returns (r: AnalysisResult)
      requires TypesOk(g) && marker <= g.all.Keys && Of(a) <= g.all.Keys
      modifies this`marker
      ensures Searched(g, r, old(marker), marker, Of(a), b, same)
      decreases |g.all.Keys - marker|, 0
    {
      if a.None? || a.value in marker {
        return ArNo;
      }
      ghost var m0 := marker;
      var t := a.value;
      marker := marker + {t};
      Smaller(g.all.Keys, m0, t);
      if same(t, b) {
        FindsHere(g, t, b, same);
        return ArYes;
      }
      hide Searched;
      r := VisitParts(t, b);
      SearchedParts(g, r, m0, marker, t, b, same);
    }

    method VisitParts(t: TypeId, b: TypeId) returns (r: AnalysisResult)
      requires TypesOk(g) && marker <= g.all.Keys && t in g.all
      modifies this`marker
      ensures Searched(g, r, old(marker), marker, Parts(g, t), b, same)
      decreases |g.all.Keys - marker|, 3
    {
      hide Finds, Exhausted;
      r := ArNo;
      NothingSearched(g, marker, b, same);
      match g.all[t]
      case Object(base, n) =>
        ghost var before: set<TypeId> := {};
        if base.Some? {
          r := VisitType(Some(g.skipPtrs[base.value]), b);
          before := {g.skipPtrs[base.value]};
        }
        if r.ArNo? {
          ghost var m1 := marker;
          Fewer(g.all.Keys, old(marker), marker);
          r := VisitRec(n, b);
          SearchedMore(g, r, old(marker), m1, marker, before, RecTypes(n), b, same);
        }
      case Modified(inner) =>
        r := VisitType(inner, b);
      case Container(element) =>
        r := VisitType(element, b);
      case Tuple(kids) =>
        r := VisitKids(kids, b);
      case Plain =>
    }

    method VisitKids(kids: seq<Option<TypeId>>, b: TypeId) returns (r: AnalysisResult)
      requires TypesOk(g) && marker <= g.all.Keys && KidTypes(kids) <= g.all.Keys
      modifies this`marker
      ensures Searched(g, r, old(marker), marker, KidTypes(kids), b, same)
      decreases |g.all.Keys - marker|, 1
    {
      hide Finds, Exhausted;
      r := ArNo;
      NothingSearched(g, marker, b, same);
      for i := 0 to |kids|
        invariant r.ArNo? && Searched(g, ArNo, old(marker), marker, KidTypes(kids[..i]), b, same)
      {
        ghost var m1 := marker;
        Fewer(g.all.Keys, old(marker), marker);
        KidAmong(kids, i);
        r := VisitType(kids[i], b);
        if r.ArYes? {
          FoundAmong(g, old(marker), m1, marker, Of(kids[i]), KidTypes(kids), b, same);
          return;
        }
        SearchedMore(g, r, old(marker), m1, marker, KidTypes(kids[..i]), Of(kids[i]), b, same);
      }
      assert kids[..|kids|] == kids;
    }

    method VisitRec(n: Rec, b: TypeId) returns (r: AnalysisResult)
      requires TypesOk(g) && marker <= g.all.Keys && RecTypes(n) <= g.all.Keys
      modifies this`marker
      ensures Searched(g, r, old(marker), marker, RecTypes(n), b, same)
      decreases |g.all.Keys - marker|, 2, n, 1
    {
      hide Finds, Exhausted;
      match n
      case RecList(kids) =>
        r := VisitRecs(n, b);
      case RecCase(d, branches) =>
        r := VisitType(d, b);
        if r.ArNo? {
          ghost var m1 := marker;
          Fewer(g.all.Keys, old(marker), marker);
          r := VisitBranches(n, b);
          SearchedMore(g, r, old(marker), m1, marker, Of(d), BranchTypes(branches), b, same);
        }
      case RecSym(typ) =>
        r := VisitType(typ, b);
      case RecOther =>
        r := ArNo;
        NothingSearched(g, marker, b, same);
    }

    method VisitRecs(n: Rec, b: TypeId) returns (r: AnalysisResult)
      requires TypesOk(g) && marker <= g.all.Keys && n.RecList? && RecTypesAll(n.kids) <= g.all.Keys
      modifies this`marker
      ensures Searched(g, r, old(marker), marker, RecTypesAll(n.kids), b, same)
      decreases |g.all.Keys - marker|, 2, n, 0
    {
      hide Finds, Exhausted;
      r := ArNo;
      NothingSearched(g, marker, b, same);
      for i := 0 to |n.kids|
        invariant r.ArNo? && Searched(g, ArNo, old(marker), marker, RecTypesAll(n.kids[..i]), b, same)
      {
        ghost var m1 := marker;
        Fewer(g.all.Keys, old(marker), marker);
        RecAmong(n.kids, i);
        r := VisitRec(n.kids[i], b);
        if r.ArYes? {
          FoundAmong(g, old(marker), m1, marker, RecTypes(n.kids[i]), RecTypesAll(n.kids), b, same);
          return;
        }
        SearchedMore(g, r, old(marker), m1, marker, RecTypesAll(n.kids[..i]), RecTypes(n.kids[i]), b, same);
      }
      assert n.kids[..|n.kids|] == n.kids;
    }

    method VisitBranches(n: Rec, b: TypeId) returns (r: AnalysisResult)
      requires TypesOk(g) && marker <= g.all.Keys && n.RecCase? && BranchTypes(n.branches) <= g.all.Keys
      modifies this`marker
      ensures Searched(g, r, old(marker), marker, BranchTypes(n.branches), b, same)
      decreases |g.all.Keys - marker|, 2, n, 0
    {
      hide Finds, Exhausted;
      r := ArNo;
      NothingSearched(g, marker, b, same);
      for i := 0 to |n.branches|
        invariant r.ArNo? && Searched(g, ArNo, old(marker), marker, BranchTypes(n.branches[..i]), b, same)
      {
        ghost var m1 := marker;
        Fewer(g.all.Keys, old(marker), marker);
        BranchAmong(n.branches, i);
        if n.branches[i].OfOrElse? {
          r := VisitRec(n.branches[i].body, b);
          if r.ArYes? {
            FoundAmong(g, old(marker), m1, marker, OneBranch(n.branches[i]), BranchTypes(n.branches), b, same);
            return;
          }
          SearchedMore(g, r, old(marker), m1, marker, BranchTypes(n.branches[..i]), OneBranch(n.branches[i]), b, same);
        }
      }
      assert n.branches[..|n.branches|] == n.branches;
    }
  }

  lemma Smaller(all: set<TypeId>, marked: set<TypeId>, t: TypeId)
    requires t in all && t !in marked
    ensures |all - (marked + {t})| < |all - marked|
  {
    assert all - marked == (all - (marked + {t})) + {t};
  }

  lemma Fewer(all: set<TypeId>, m0: set<TypeId>, m1: set<TypeId>)
    requires m0 <= m1
    ensures |all - m1| <= |all - m0|
  {
    SubsetSize(all - m1, all - m0);
  }

  lemma {:induction false} KidAmong(ts: seq<Option<TypeId>>, i: nat)
    requires i < |ts|
    ensures Of(ts[i]) <= KidTypes(ts) && KidTypes(ts[..i + 1]) == KidTypes(ts[..i]) + Of(ts[i])
    decreases |ts|
  {
    if i == 0 {
      assert ts[..1] == [ts[0]] && ts[..0] == [];
    } else {
      KidAmong(ts[1..], i - 1);
      assert ts[..i + 1][1..] == ts[1..][..i] && ts[..i][1..] == ts[1..][..i - 1];
    }
  }

  lemma {:induction false} RecAmong(ns: seq<Rec>, i: nat)
    requires i < |ns|
    ensures RecTypes(ns[i]) <= RecTypesAll(ns) && RecTypesAll(ns[..i + 1]) == RecTypesAll(ns[..i]) + RecTypes(ns[i])
    decreases |ns|
  {
    if i == 0 {
      assert ns[..1][1..] == [] && ns[..0] == [];
    } else {
      RecAmong(ns[1..], i - 1);
      assert ns[..i + 1][1..] == ns[1..][..i] && ns[..i][1..] == ns[1..][..i - 1];
    }
  }

  lemma {:induction false} BranchAmong(bs: seq<Branch>, i: nat)
    requires i < |bs|
    ensures OneBranch(bs[i]) <= BranchTypes(bs) && BranchTypes(bs[..i + 1]) == BranchTypes(bs[..i]) + OneBranch(bs[i])
    decreases |bs|
  {
    if i == 0 {
      assert bs[..1][1..] == [] && bs[..0] == [];
    } else {
      BranchAmong(bs[1..], i - 1);
      assert bs[..i + 1][1..] == bs[1..][..i] && bs[..i][1..] == bs[1..][..i - 1];
    }
  }

  /** Can a location of type `a` be part of one of type `b`? Says yes exactly if some type
      that is reached from `b` compares equal to `a`, and no otherwise. */
  method IsPartOf(g: Types, a: Option<TypeId>, b: Option<TypeId>, same: (TypeId, TypeId) -> bool) returns (r: AnalysisResult)
    requires TypesOk(g) && Of(b) <= g.all.Keys
    ensures r == if a.Some? && b.Some? && Finds(g, b.value, a.value, same) then ArYes else ArNo
  {
    if a.None? || b.None? {
      return ArNo;
    }
    var s := new Search(g, same);
    r := s.VisitType(b, a.value);
    if r.ArNo? {
      ExhaustedFindsNothing(g, s.marker, b.value, a.value, same);
    }
  }

  // ---------- the parts, kind by kind ----------

  /** The fields of a record list are those of its sons; those of a variant record are its
      discriminator and the fields of its branches. */
  lemma FieldsAre(n: Rec, t: TypeId)
    ensures t in RecTypes(n) <==>
      || (n.RecSym? && n.typ == Some(t))
      || (n.RecList? && exists i :: 0 <= i < |n.kids| && t in RecTypes(n.kids[i]))
      || (n.RecCase? && (n.discriminator == Some(t) ||
            exists i :: 0 <= i < |n.branches| && n.branches[i].OfOrElse? && t in RecTypes(n.branches[i].body)))
  {
    match n
    case RecList(kids) => ListFields(kids, t);
    case RecCase(_, branches) => BranchFields(branches, t);
    case _ =>
  }

  lemma {:induction false} ListFields(ns: seq<Rec>, t: TypeId)
    ensures t in RecTypesAll(ns) <==> exists i :: 0 <= i < |ns| && t in RecTypes(ns[i])
    decreases |ns|
  {
    if ns != [] {
      ListFields(ns[1..], t);
      if t in RecTypesAll(ns[1..]) {
        var i :| 0 <= i < |ns[1..]| && t in RecTypes(ns[1..][i]);
        assert t in RecTypes(ns[i + 1]);
      }
      if i :| 0 < i < |ns| && t in RecTypes(ns[i]) {
        assert ns[1..][i - 1] == ns[i];
      }
    }
  }

  lemma {:induction false} BranchFields(bs: seq<Branch>, t: TypeId)
    ensures t in BranchTypes(bs) <==> exists i :: 0 <= i < |bs| && bs[i].OfOrElse? && t in RecTypes(bs[i].body)
    decreases |bs|
  {
    if bs != [] {
      BranchFields(bs[1..], t);
      if t in BranchTypes(bs[1..]) {
        var i :| 0 <= i < |bs[1..]| && bs[1..][i].OfOrElse? && t in RecTypes(bs[1..][i].body);
        assert bs[i + 1].OfOrElse? && t in RecTypes(bs[i + 1].body);
      }
      if i :| 0 < i < |bs| && bs[i].OfOrElse? && t in RecTypes(bs[i].body) {
        assert bs[1..][i - 1] == bs[i];
      }
    }
  }

  /** The parts of an object are what stands behind its base class and its fields; those of a
      tuple, a container and a modifier the types that they name. */
  lemma PartsAre(g: Types, t: TypeId, p: TypeId)
    requires t in g.all
    ensures var ty := g.all[t];
      p in Parts(g, t) <==>
        || (ty.Object? && ((ty.baseClass.Some? && ty.baseClass.value in g.skipPtrs && p == g.skipPtrs[ty.baseClass.value]) || p in RecTypes(ty.n)))
        || (ty.Modified? && ty.inner == Some(p))
        || (ty.Container? && ty.element == Some(p))
        || (ty.Tuple? && Some(p) in ty.kids)
  {
    if g.all[t].Tuple? { KidsAre(g.all[t].kids, p); }
  }

  lemma {:induction false} KidsAre(ts: seq<Option<TypeId>>, p: TypeId)
    ensures p in KidTypes(ts) <==> Some(p) in ts
    decreases |ts|
  {
    if ts != [] { KidsAre(ts[1..], p); }
  }
}
