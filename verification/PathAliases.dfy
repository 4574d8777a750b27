/** The move analyser's question: is writing one location always, never or maybe writing
    (part of) another? Answered from the paths of the two, with run-time indices unknown. */
module PathAliases {
  import opened Locations
  import opened Options

  datatype AliasKind = Yes | No | Maybe

  // ---------- paths and what they mean at run time ----------

  predicate SkipsToBase(e: Expr)
  {
    e.CheckedField? || e.Addr? || e.HiddenAddr? || e.DownConv? || e.UpConv?
  }

  predicate SkipsToArg(e: Expr) { e.HiddenStdConv? || e.HiddenSubConv? || e.Cast? }

  predicate IsImportant(e: Expr) { e.Dot? || e.Bracket? || e.Deref? || e.HiddenDeref? }

  /** The accesses from the root symbol on; none if the expression is no access from a
      symbol. */
  function Route(e: Expr): Option<seq<Expr>>
  {
    match e
    case Sym(_) => Some([e])
    case CheckedField(base, _) => Route(base)
    case Addr(base) => Route(base)
    case HiddenAddr(base) => Route(base)
    case DownConv(base) => Route(base)
    case UpConv(base) => Route(base)
    case HiddenStdConv(arg) => Route(arg)
    case HiddenSubConv(arg) => Route(arg)
    case Cast(arg) => Route(arg)
    case Dot(base, _) => Longer(Route(base), e)
    case Bracket(base, _) => Longer(Route(base), e)
    case Deref(base) => Longer(Route(base), e)
    case HiddenDeref(base) => Longer(Route(base), e)
    case _ => None
  }

  function Longer(r: Option<seq<Expr>>, e: Expr): Option<seq<Expr>>
  {
    if r.None? then None else Some(r.value + [e])
  }

  /** Every field on the way is a symbol. */
  predicate FieldsKnown(e: Expr)
  {
    if SkipsToBase(e) then FieldsKnown(e.base)
    else if SkipsToArg(e) then FieldsKnown(e.arg)
    else if IsImportant(e) then (e.Dot? ==> e.field.Some?) && FieldsKnown(e.base)
    else true
  }

  /** A step at run time, where every index has a value. */
  datatype Place = Root(sym: nat) | Field(field: nat) | Element(index: int) | Pointee | HiddenPointee

  /** The place that an access leads to when its index, if it is no literal, has the value. */
  function PlaceOf(e: Expr, index: int): Place
    requires StepOk(e)
  {
    match e
    case Sym(id) => Root(id)
    case Dot(_, field) => Field(field.value)
    case Bracket(_, i) => Element(if i.Lit? then i.value else index)
    case Deref(_) => Pointee
    case HiddenDeref(_) => HiddenPointee
  }

  predicate StepOk(e: Expr) { (e.Sym? || IsImportant(e)) && (e.Dot? ==> e.field.Some?) }

  predicate RouteOk(r: seq<Expr>)
  {
    forall e | e in r :: StepOk(e)
  }

  lemma {:induction false} RoutesAreOk(e: Expr)
    requires FieldsKnown(e) && Route(e).Some?
    ensures RouteOk(Route(e).value) && Route(e).value != []
    decreases e
  {
    if SkipsToBase(e) {
      RoutesAreOk(e.base);
    } else if SkipsToArg(e) {
      RoutesAreOk(e.arg);
    } else if IsImportant(e) {
      RoutesAreOk(e.base);
    }
  }

  /** The path when the indices along the route have the given values. */
  function Concrete(r: seq<Expr>, indices: nat -> int): (p: seq<Place>)
    requires RouteOk(r)
    ensures |p| == |r|
  {
    seq(|r|, i requires 0 <= i < |r| && RouteOk(r) => PlaceOf(r[i], indices(i)))
  }

  // ---------- the comparison ----------

  /** What one pair of accesses says. */
  function Compare(a: Expr, b: Expr): AliasKind
    requires StepOk(a) && StepOk(b)
  {
    match (a, b)
    case (Sym(i), Sym(j)) => if i == j then Yes else No
    case (Dot(_, f), Dot(_, g)) => if f.value == g.value then Yes else No
    case (Bracket(_, i), Bracket(_, j)) =>
      if i.Lit? && j.Lit? then (if i.value == j.value then Yes else No) else Maybe
    case (Deref(_), Deref(_)) => Yes
    case (HiddenDeref(_), HiddenDeref(_)) => Yes
    case _ => No
  }

  /** The verdict on two accesses is yes exactly if they are the same place whatever their
      indices are, and no exactly if they never are: if it is maybe, some indices make them the
      same place and some do not. */
  lemma CompareMeans(a: Expr, b: Expr)
    requires StepOk(a) && StepOk(b)
    ensures Compare(a, b).Yes? <==> forall i, j :: PlaceOf(a, i) == PlaceOf(b, j)
    ensures Compare(a, b).No? <==> forall i, j :: PlaceOf(a, i) != PlaceOf(b, j)
    ensures Compare(a, b).Maybe? <==> (exists i, j :: PlaceOf(a, i) == PlaceOf(b, j)) && exists i, j :: PlaceOf(a, i) != PlaceOf(b, j)
  {
    if Compare(a, b).Maybe? {
      var i := if b.index.Lit? then b.index.value else 0;
      var j := if a.index.Lit? then a.index.value else i;
      assert PlaceOf(a, i) == PlaceOf(b, j);
      var k, l := if a.index.Lit? then i else i + 1, if a.index.Lit? then j + 1 else j;
      assert PlaceOf(a, k) != PlaceOf(b, l);
    } else {
      assert PlaceOf(a, 0) == PlaceOf(b, 0) <==> Compare(a, b).Yes?;
    }
  }

  /** What the first `n` pairs of accesses say. */
  function CompareAll(a: seq<Expr>, b: seq<Expr>, n: nat): AliasKind
    requires RouteOk(a) && RouteOk(b) && n <= |a| && n <= |b|
  {
    if n == 0 then Yes
    else
      Both(CompareAll(a, b, n - 1), Compare(a[n - 1], b[n - 1]))
  }

  function Both(before: AliasKind, last: AliasKind): AliasKind
  {
    if before.No? then No else match last case No => No case Maybe => Maybe case Yes => before
  }

  lemma NextPair(a: seq<Expr>, b: seq<Expr>, n: nat)
    requires RouteOk(a) && RouteOk(b) && n < |a| && n < |b|
    ensures StepOk(a[n]) && StepOk(b[n]) && CompareAll(a, b, n + 1) == Both(CompareAll(a, b, n), Compare(a[n], b[n]))
  {
  }

  lemma NoPairs(a: seq<Expr>, b: seq<Expr>)
    requires RouteOk(a) && RouteOk(b)
    ensures CompareAll(a, b, 0) == Yes
  {
  }

  function Verdict(obj: Expr, field: Expr): AliasKind
    requires FieldsKnown(obj) && FieldsKnown(field)
  {
    var a, b := Route(obj), Route(field);
    if a.None? || b.None? then No
    else
      RoutesAreOk(obj);
      RoutesAreOk(field);
      if |b.value| < |a.value| then No else CompareAll(a.value, b.value, |a.value|)
  }

  // ---------- the program ----------

  function Reversed(s: seq<Expr>): (r: seq<Expr>)
    ensures |r| == |s|
  {
    seq(|s|, i requires 0 <= i < |s| => s[|s| - 1 - i])
  }

  lemma ReversedAt(s: seq<Expr>, i: nat)
    requires i < |s|
    ensures Reversed(s)[i] == s[|s| - 1 - i]
  {
  }

  /** The important accesses from the outermost to the symbol, or none. */
  method CollectImportantNodes(e: Expr) returns (r: Option<seq<Expr>>)
    ensures r.Some? <==> Route(e).Some?
    ensures r.Some? ==> r.value == Reversed(Route(e).value)
  {
    var result: seq<Expr> := [];
    var n := e;
    while true
      invariant Route(e).Some? <==> Route(n).Some?
      invariant Route(e).Some? ==> Route(e).value == Route(n).value + Reversed(result)
      decreases n
    {
      if SkipsToBase(n) {
        n := n.base;
      } else if SkipsToArg(n) {
        n := n.arg;
      } else if IsImportant(n) {
        assert Reversed(result + [n]) == [n] + Reversed(result);
        result := result + [n];
        n := n.base;
      } else if n.Sym? {
        assert Reversed(result + [n]) == [n] + Reversed(result);
        result := result + [n];
        assert Reversed(Reversed(result)) == result;
        return Some(result);
      } else {
        return None;
      }
    }
  }

  method Aliases(obj: Expr, field: Expr) returns (r: AliasKind)
    requires FieldsKnown(obj) && FieldsKnown(field)
    ensures r == Verdict(obj, field)
  {
    hide Route, FieldsKnown, CompareAll, RouteOk, Reversed;
    var objNodes := CollectImportantNodes(obj);
    if objNodes.None? {
      return No;
    }
    var fieldNodes := CollectImportantNodes(field);
    if fieldNodes.None? {
      return No;
    }
    RoutesAreOk(obj);
    RoutesAreOk(field);
    if |fieldNodes.value| < |objNodes.value| {
      return No;
    }
    r := CompareNodes(objNodes.value, fieldNodes.value, Route(obj).value, Route(field).value);
  }

  /** Compares the accesses pair by pair, from the symbols on. */
  method CompareNodes(a: seq<Expr>, b: seq<Expr>, ghost s: seq<Expr>, ghost t: seq<Expr>) returns (r: AliasKind)
    requires RouteOk(s) && RouteOk(t) && a == Reversed(s) && b == Reversed(t) && |a| <= |b|
    ensures r == CompareAll(s, t, |s|)
  {
    hide CompareAll, Compare, RouteOk, Reversed;
    NoPairs(s, t);
    r := Yes;
    for i := 1 to |a| + 1
      invariant r == CompareAll(s, t, i - 1) && !r.No?
    {
      var currField, currObj := b[|b| - i], a[|a| - i];
      ReversedAt(s, |a| - i);
      ReversedAt(t, |b| - i);
      NextPair(s, t, i - 1);
      var said := ComparePair(currObj, currField);
      if said.No? {
        NoStays(s, t, i, |s|);
        return No;
      }
      if said.Maybe? { r := Maybe; }
    }
  }

  /** What the accesses at one depth say. */
  method ComparePair(currObj: Expr, currField: Expr) returns (r: AliasKind)
    requires StepOk(currObj) && StepOk(currField)
    ensures r == Compare(currObj, currField)
  {
    if Kind(currField) != Kind(currObj) {
      return No;
    }
    match currField
    case Sym(id) =>
      return if id != currObj.id then No else Yes;
    case Dot(_, f) =>
      return if f.value != currObj.field.value then No else Yes;
    case Bracket(_, index) =>
      if index.Lit? && currObj.index.Lit? {
        return if index.value != currObj.index.value then No else Yes;
      }
      return Maybe;
    case Deref(_) => return Yes;
    case HiddenDeref(_) => return Yes;
  }

  /** Once the accesses diverge, what follows does not matter. */
  lemma {:induction false} NoStays(a: seq<Expr>, b: seq<Expr>, i: nat, n: nat)
    requires RouteOk(a) && RouteOk(b) && i <= n <= |a| && n <= |b| && CompareAll(a, b, i).No?
    ensures CompareAll(a, b, n).No?
    decreases n
  {
    if i < n {
      NoStays(a, b, i, n - 1);
    }
  }

  function Kind(e: Expr): nat
  {
    match e
    case Sym(_) => 0
    case Dot(_, _) => 1
    case Bracket(_, _) => 2
    case Deref(_) => 3
    case HiddenDeref(_) => 4
    case _ => 5
  }

  method SkipConvDfa(n: Expr) returns (r: Expr)
    ensures r == Stripped(n)
  {
    r := n;
    while r.DownConv? || r.UpConv? || SkipsToArg(r)
      invariant Stripped(r) == Stripped(n)
      decreases r
    {
      r := if SkipsToArg(r) then r.arg else r.base;
    }
  }

  function Stripped(n: Expr): Expr
  {
    if n.DownConv? || n.UpConv? then Stripped(n.base) else if SkipsToArg(n) then Stripped(n.arg) else n
  }

  // ---------- what the verdict means ----------

  /** Whatever the indices are, the first path is the start of the second. */
  ghost predicate Always(a: seq<Expr>, b: seq<Expr>)
    requires RouteOk(a) && RouteOk(b)
  {
    forall v: nat -> int, w: nat -> int :: Concrete(a, v) <= Concrete(b, w)
  }

  ghost predicate Never(a: seq<Expr>, b: seq<Expr>)
    requires RouteOk(a) && RouteOk(b)
  {
    forall v: nat -> int, w: nat -> int :: !(Concrete(a, v) <= Concrete(b, w))
  }

  /** The first places agree under the indices. */
  ghost predicate Agree(a: seq<Expr>, b: seq<Expr>, n: nat, v: nat -> int, w: nat -> int)
    requires RouteOk(a) && RouteOk(b) && n <= |a| && n <= |b|
  {
    forall i | 0 <= i < n :: PlaceOf(a[i], v(i)) == PlaceOf(b[i], w(i))
  }

  lemma AgreeIsPrefix(a: seq<Expr>, b: seq<Expr>, v: nat -> int, w: nat -> int)
    requires RouteOk(a) && RouteOk(b) && |a| <= |b|
    ensures Agree(a, b, |a|, v, w) <==> Concrete(a, v) <= Concrete(b, w)
  {
    var p, q := Concrete(a, v), Concrete(b, w);
    if p <= q {
      forall i | 0 <= i < |a| ensures PlaceOf(a[i], v(i)) == PlaceOf(b[i], w(i)) {
        assert p[i] == q[i];
      }
    }
    if Agree(a, b, |a|, v, w) {
      assert forall i | 0 <= i < |p| :: p[i] == q[i];
    }
  }

  lemma {:induction false} VerdictSound(a: seq<Expr>, b: seq<Expr>, n: nat, v: nat -> int, w: nat -> int)
    requires RouteOk(a) && RouteOk(b) && n <= |a| && n <= |b|
    ensures CompareAll(a, b, n).Yes? ==> Agree(a, b, n, v, w)
    ensures CompareAll(a, b, n).No? ==> !Agree(a, b, n, v, w)
    decreases n
  {
    if n > 0 {
      VerdictSound(a, b, n - 1, v, w);
      assert a[n - 1] in a && b[n - 1] in b;
      CompareMeans(a[n - 1], b[n - 1]);
    }
  }

  /** The value of an access's index that makes it meet another access, where one exists. */
  function Meeting(e: Expr, other: Expr): int
  {
    if e.Bracket? && !e.index.Lit? && other.Bracket? && other.index.Lit? then other.index.value else 0
  }

  /** If no pair of accesses says no, the indices can be chosen so that the places agree. */
  lemma {:induction false} CanAgree(a: seq<Expr>, b: seq<Expr>, n: nat, v: nat -> int, w: nat -> int)
    requires RouteOk(a) && RouteOk(b) && n <= |a| && n <= |b| && !CompareAll(a, b, n).No?
    requires forall i | 0 <= i < n :: v(i) == Meeting(a[i], b[i]) && w(i) == Meeting(b[i], a[i])
    ensures Agree(a, b, n, v, w)
    decreases n
  {
    if n > 0 {
      CanAgree(a, b, n - 1, v, w);
      assert a[n - 1] in a && b[n - 1] in b;
      CanMeet(a[n - 1], b[n - 1]);
    }
  }

  lemma CanMeet(a: Expr, b: Expr)
    requires (a.Sym? || IsImportant(a)) && (b.Sym? || IsImportant(b))
    requires (a.Dot? ==> a.field.Some?) && (b.Dot? ==> b.field.Some?) && !Compare(a, b).No?
    ensures PlaceOf(a, Meeting(a, b)) == PlaceOf(b, Meeting(b, a))
  {
  }

  /** An index that keeps an access from meeting the other. */
  function Avoiding(e: Expr, other: Expr): int
  {
    if other.Bracket? && other.index.Lit? then other.index.value + 1 else 1
  }

  /** The same for the other access, if that one has no choice. */
  function AvoidingBack(e: Expr, other: Expr): int
  {
    if e.Bracket? && other.Bracket? && other.index.Lit? then other.index.value + 1 else 0
  }

  /** If some pair says maybe, the indices can be chosen so that the places do not agree. */
  lemma {:induction false} CanDiffer(a: seq<Expr>, b: seq<Expr>, n: nat, v: nat -> int, w: nat -> int)
    requires RouteOk(a) && RouteOk(b) && n <= |a| && n <= |b| && CompareAll(a, b, n).Maybe?
    requires forall i | 0 <= i < n :: v(i) == Avoiding(a[i], b[i]) && w(i) == AvoidingBack(b[i], a[i])
    ensures !Agree(a, b, n, v, w)
    decreases n
  {
    assert a[n - 1] in a && b[n - 1] in b;
    if !Compare(a[n - 1], b[n - 1]).Maybe? {
      CanDiffer(a, b, n - 1, v, w);
    }
  }

  /** Yes exactly if the path of `obj` is the start of the path of `field` whatever the
      run-time indices are; no exactly if there are no two paths or it never is; maybe exactly
      if it depends on the indices. */
  lemma VerdictMeans(obj: Expr, field: Expr)
    requires FieldsKnown(obj) && FieldsKnown(field)
    ensures Route(obj).None? || Route(field).None? ==> Verdict(obj, field).No?
    ensures Route(obj).Some? && Route(field).Some? ==>
      RouteOk(Route(obj).value) && RouteOk(Route(field).value) &&
      (Verdict(obj, field).Yes? <==> Always(Route(obj).value, Route(field).value)) &&
      (Verdict(obj, field).No? <==> Never(Route(obj).value, Route(field).value))
  {
    if Route(obj).Some? && Route(field).Some? {
      RoutesAreOk(obj);
      RoutesAreOk(field);
      var a, b := Route(obj).value, Route(field).value;
      if |b| < |a| {
        assert !(Concrete(a, i => 0) <= Concrete(b, i => 0));
      } else {
        RouteVerdict(a, b);
      }
    }
  }

  lemma RouteVerdict(a: seq<Expr>, b: seq<Expr>)
    requires RouteOk(a) && RouteOk(b) && |a| <= |b|
    ensures CompareAll(a, b, |a|).Yes? <==> Always(a, b)
    ensures CompareAll(a, b, |a|).No? <==> Never(a, b)
  {
    hide Concrete, CompareAll, RouteOk;
    forall v: nat -> int, w: nat -> int
      ensures CompareAll(a, b, |a|).Yes? ==> Concrete(a, v) <= Concrete(b, w)
      ensures CompareAll(a, b, |a|).No? ==> !(Concrete(a, v) <= Concrete(b, w))
    {
      hide Agree;
      VerdictSound(a, b, |a|, v, w);
      AgreeIsPrefix(a, b, v, w);
    }
    if CompareAll(a, b, |a|).No? {
      assert !(Concrete(a, i => 0) <= Concrete(b, i => 0));
    } else {
      SomeAgree(a, b);
    }
    if CompareAll(a, b, |a|).Maybe? {
      SomeDiffer(a, b);
    }
  }

  lemma SomeAgree(a: seq<Expr>, b: seq<Expr>)
    requires RouteOk(a) && RouteOk(b) && |a| <= |b| && !CompareAll(a, b, |a|).No?
    ensures !Never(a, b)
  {
    hide Concrete, CompareAll, RouteOk, Agree, Meeting;
    var v := (i: nat) => if i < |a| then Meeting(a[i], b[i]) else 0;
    var w := (i: nat) => if i < |a| then Meeting(b[i], a[i]) else 0;
    CanAgree(a, b, |a|, v, w);
    AgreeIsPrefix(a, b, v, w);
  }

  lemma SomeDiffer(a: seq<Expr>, b: seq<Expr>)
    requires RouteOk(a) && RouteOk(b) && |a| <= |b| && CompareAll(a, b, |a|).Maybe?
    ensures !Always(a, b)
  {
    hide Concrete, CompareAll, RouteOk, Agree, Avoiding;
    var v := (i: nat) => if i < |a| then Avoiding(a[i], b[i]) else 0;
    var w := (i: nat) => if i < |a| then AvoidingBack(b[i], a[i]) else 0;
    CanDiffer(a, b, |a|, v, w);
    AgreeIsPrefix(a, b, v, w);
  }

  /** What is always part of something that is always part of a third is part of the third. */
  lemma YesIsTransitive(x: Expr, y: Expr, z: Expr)
    requires FieldsKnown(x) && FieldsKnown(y) && FieldsKnown(z)
    requires Verdict(x, y).Yes? && Verdict(y, z).Yes?
    ensures Verdict(x, z).Yes?
  {
    VerdictMeans(x, y);
    VerdictMeans(y, z);
    VerdictMeans(x, z);
    var a, b, c := Route(x).value, Route(y).value, Route(z).value;
    forall v: nat -> int, w: nat -> int ensures Concrete(a, v) <= Concrete(c, w) {
      assert Concrete(a, v) <= Concrete(b, v) <= Concrete(c, w);
    }
  }

  /** Without the conversions, address operators and checks around it. */
  function Bare(n: Expr): Expr
  {
    if SkipsToBase(n) then Bare(n.base) else if SkipsToArg(n) then Bare(n.arg) else n
  }

  /** Conversions around either side change nothing, and neither do address operators. */
  lemma {:induction false} WrappingIsIgnored(x: Expr, y: Expr)
    requires FieldsKnown(x) && FieldsKnown(y)
    ensures FieldsKnown(Stripped(x)) && FieldsKnown(Stripped(y)) && Verdict(Stripped(x), Stripped(y)) == Verdict(x, y)
    ensures FieldsKnown(Bare(x)) && FieldsKnown(Bare(y)) && Verdict(Bare(x), Bare(y)) == Verdict(x, y)
  {
    BareRoute(x);
    BareRoute(y);
    StrippedRoute(x);
    StrippedRoute(y);
  }

  lemma {:induction false} BareRoute(e: Expr)
    requires FieldsKnown(e)
    ensures FieldsKnown(Bare(e)) && Route(Bare(e)) == Route(e)
    decreases e
  {
    if SkipsToBase(e) {
      BareRoute(e.base);
    } else if SkipsToArg(e) {
      BareRoute(e.arg);
    }
  }

  lemma {:induction false} StrippedRoute(e: Expr)
    requires FieldsKnown(e)
    ensures FieldsKnown(Stripped(e)) && Route(Stripped(e)) == Route(e)
    decreases e
  {
    if e.DownConv? || e.UpConv? {
      StrippedRoute(e.base);
    } else if SkipsToArg(e) {
      StrippedRoute(e.arg);
    }
  }

  // ---------- the verdict, access by access ----------

  lemma {:induction false} SameStart(a: seq<Expr>, b: seq<Expr>, x: seq<Expr>, y: seq<Expr>, n: nat)
    requires RouteOk(a) && RouteOk(b) && RouteOk(a + x) && RouteOk(b + y) && n <= |a| && n <= |b|
    ensures CompareAll(a + x, b + y, n) == CompareAll(a, b, n)
    decreases n
  {
    hide RouteOk;
    if n > 0 {
      SameStart(a, b, x, y, n - 1);
      assert (a + x)[n - 1] == a[n - 1] && (b + y)[n - 1] == b[n - 1];
    }
  }

  /** A location is part of no access to something inside it, and such an access is as much
      part of the location as the location itself. */
  lemma InsideIsPart(e: Expr, field: nat, index: Expr)
    requires FieldsKnown(e)
    ensures var f := Some(field);
      && Verdict(Dot(e, f), e) == Verdict(Bracket(e, index), e) == Verdict(Deref(e), e) == Verdict(HiddenDeref(e), e) == No
      && Verdict(e, Dot(e, f)) == Verdict(e, Bracket(e, index)) == Verdict(e, Deref(e)) == Verdict(e, HiddenDeref(e)) == Verdict(e, e)
  {
    hide CompareAll;
    OneInside(e, Dot(e, Some(field)));
    OneInside(e, Bracket(e, index));
    OneInside(e, Deref(e));
    OneInside(e, HiddenDeref(e));
  }

  lemma OneInside(e: Expr, k: Expr)
    requires FieldsKnown(e) && FieldsKnown(k) && Route(k) == Longer(Route(e), k)
    ensures Verdict(k, e) == No && Verdict(e, k) == Verdict(e, e)
  {
    if Route(e).Some? {
      RoutesAreOk(e);
      RoutesAreOk(k);
      var r := Route(e).value;
      assert r + [] == r;
      SameStart(r, r, [], [k], |r|);
    }
  }

  /** An access to a part of a location; a field that is accessed is a symbol. */
  predicate IsAccess(e: Expr)
  {
    (e.Dot? && e.field.Some?) || e.Bracket? || e.Deref? || e.HiddenDeref?
  }

  /** What accesses to two locations say, if each may be part of the other, so that one is
      nested as deep as the other. */
  lemma AccessesCompare(a: Expr, b: Expr)
    requires IsAccess(a) && IsAccess(b) && FieldsKnown(a.base) && FieldsKnown(b.base)
    requires !Verdict(a.base, b.base).No? && !Verdict(b.base, a.base).No?
    ensures FieldsKnown(a) && FieldsKnown(b)
    ensures Verdict(a, b) ==
      if a.Dot? && b.Dot? && a.field == b.field then Verdict(a.base, b.base)
      else if a.Bracket? && b.Bracket? && !(a.index.Lit? && b.index.Lit?) then Maybe
      else if a.Bracket? && b.Bracket? && a.index.value == b.index.value then Verdict(a.base, b.base)
      else if (a.Deref? && b.Deref?) || (a.HiddenDeref? && b.HiddenDeref?) then Verdict(a.base, b.base)
      else No
  {
    hide CompareAll, Verdict;
    OneCompares(a.base, b.base, a, b);
  }

  lemma OneCompares(x: Expr, y: Expr, a: Expr, b: Expr)
    requires FieldsKnown(x) && FieldsKnown(y) && FieldsKnown(a) && FieldsKnown(b) && IsAccess(a) && IsAccess(b)
    requires Route(a) == Longer(Route(x), a) && Route(b) == Longer(Route(y), b)
    requires !Verdict(x, y).No? && !Verdict(y, x).No?
    ensures Verdict(a, b) == Both(Verdict(x, y), Compare(a, b))
  {
    hide CompareAll, Compare, RouteOk, FieldsKnown, Route;
    RoutesAreOk(x);
    RoutesAreOk(y);
    RoutesAreOk(a);
    RoutesAreOk(b);
    var r, q := Route(x).value, Route(y).value;
    assert |r| == |q|;
    SameStart(r, q, [a], [b], |r|);
    NextPair(r + [a], q + [b], |r|);
  }

  /** A symbol is part of itself only, and what is neither a symbol nor an access is part of
      nothing and has no parts. */
  lemma RootsCompare(i: nat, j: nat, e: Expr, v: int)
    requires FieldsKnown(e)
    ensures Verdict(Sym(i), Sym(j)) == if i == j then Yes else No
    ensures Verdict(Lit(v), e) == Verdict(e, Lit(v)) == Verdict(Other(i), e) == Verdict(e, Other(i)) == No
  {
    assert CompareAll([Sym(i)], [Sym(j)], 0) == Yes;
  }

  /** No conversion, check or address operator around either side changes a verdict. */
  lemma EachWrapperIsIgnored(x: Expr, y: Expr, field: Option<nat>)
    requires FieldsKnown(x) && FieldsKnown(y)
    ensures forall w | w in {CheckedField(x, field), Addr(x), HiddenAddr(x), DownConv(x), UpConv(x), HiddenStdConv(x), HiddenSubConv(x), Cast(x)} ::
      FieldsKnown(w) && Verdict(w, y) == Verdict(x, y) && Verdict(y, w) == Verdict(y, x)
  {
    hide CompareAll, Verdict;
    forall w | w in {CheckedField(x, field), Addr(x), HiddenAddr(x), DownConv(x), UpConv(x), HiddenStdConv(x), HiddenSubConv(x), Cast(x)}
      ensures FieldsKnown(w) && Verdict(w, y) == Verdict(x, y) && Verdict(y, w) == Verdict(y, x)
    {
      SameRoute(w, x, y);
    }
  }

  lemma SameRoute(w: Expr, x: Expr, y: Expr)
    requires FieldsKnown(w) && FieldsKnown(x) && FieldsKnown(y) && Route(w) == Route(x)
    ensures Verdict(w, y) == Verdict(x, y) && Verdict(y, w) == Verdict(y, x)
  {
  }
}
