/** Expressions that denote locations, and when two of them are syntactically the same
    location or one leads through the other. */
module Locations {
  import opened Options

  datatype Expr =
    | Sym(id: nat)
    | Lit(value: int)
    | Dot(base: Expr, field: Option<nat>)
    | CheckedField(base: Expr, field: Option<nat>)
    | Bracket(base: Expr, index: Expr)
    | Deref(base: Expr)
    | HiddenDeref(base: Expr)
    | UpConv(base: Expr)
    | DownConv(base: Expr)
    | Addr(base: Expr)
    | HiddenAddr(base: Expr)
    | HiddenStdConv(arg: Expr)
    | HiddenSubConv(arg: Expr)
    | Conv(arg: Expr)
    | Cast(arg: Expr)
    | Other(code: nat)

  /** One step from a location to a part of it; an index that is no literal is unknown. */
  datatype Step =
    | ToField(field: nat)
    | ToCheckedField(field: nat)
    | ToElement(index: int)
    | Upwards
    | Downwards
    | Through
    | HiddenThrough
    | Unknown

  /** A root symbol and the steps from it. */
  datatype Spine = Spine(root: Option<nat>, steps: seq<Step>)

  predicate IsConv(e: Expr) { e.HiddenStdConv? || e.HiddenSubConv? || e.Conv? }

  function StepOf(e: Expr): Step
  {
    match e
    case Dot(_, field) => if field.Some? then ToField(field.value) else Unknown
    case CheckedField(_, field) => if field.Some? then ToCheckedField(field.value) else Unknown
    case Bracket(_, index) => if index.Lit? then ToElement(index.value) else Unknown
    case UpConv(_) => Upwards
    case DownConv(_) => Downwards
    case Deref(_) => Through
    case HiddenDeref(_) => HiddenThrough
    case _ => Unknown
  }

  predicate IsStep(e: Expr)
  {
    e.Dot? || e.CheckedField? || e.Bracket? || e.UpConv? || e.DownConv? || e.Deref? || e.HiddenDeref?
  }

  /** Conversions are left out; what is no access from a symbol has no root. */
  function SpineOf(e: Expr): Spine
  {
    match e
    case Sym(id) => Spine(Some(id), [])
    case HiddenStdConv(arg) => SpineOf(arg)
    case HiddenSubConv(arg) => SpineOf(arg)
    case Conv(arg) => SpineOf(arg)
    case Dot(base, _) => Spine(SpineOf(base).root, SpineOf(base).steps + [StepOf(e)])
    case CheckedField(base, _) => Spine(SpineOf(base).root, SpineOf(base).steps + [StepOf(e)])
    case Bracket(base, _) => Spine(SpineOf(base).root, SpineOf(base).steps + [StepOf(e)])
    case UpConv(base) => Spine(SpineOf(base).root, SpineOf(base).steps + [StepOf(e)])
    case DownConv(base) => Spine(SpineOf(base).root, SpineOf(base).steps + [StepOf(e)])
    case Deref(base) => Spine(SpineOf(base).root, SpineOf(base).steps + [StepOf(e)])
    case HiddenDeref(base) => Spine(SpineOf(base).root, SpineOf(base).steps + [StepOf(e)])
    case _ => Spine(None, [])
  }

  /** Every step of the way from a symbol is known. */
  predicate Known(s: Spine) { s.root.Some? && Unknown !in s.steps }

  function SkipConv(e: Expr): (r: Expr)
    ensures !IsConv(r) && SpineOf(r) == SpineOf(e) && (r == e || r < e)
  {
    match e
    case HiddenStdConv(arg) => SkipConv(arg)
    case HiddenSubConv(arg) => SkipConv(arg)
    case Conv(arg) => SkipConv(arg)
    case _ => e
  }

  method SkipConversions(e: Expr) returns (r: Expr)
    ensures r == SkipConv(e)
  {
    r := e;
    while IsConv(r)
      invariant SkipConv(r) == SkipConv(e)
      decreases r
    {
      r := r.arg;
    }
  }

  /** The same kind of access, to the same field or to the same literal index. */
  predicate SameAccess(a: Expr, b: Expr)
  {
    match a
    case Dot(_, f) => b.Dot? && f.Some? && b.field.Some? && f.value == b.field.value
    case CheckedField(_, f) => b.CheckedField? && f.Some? && b.field.Some? && f.value == b.field.value
    case Bracket(_, i) => b.Bracket? && i.Lit? && b.index.Lit? && i.value == b.index.value
    case UpConv(_) => b.UpConv?
    case DownConv(_) => b.DownConv?
    case Deref(_) => b.Deref?
    case HiddenDeref(_) => b.HiddenDeref?
    case _ => false
  }

  lemma SameAccessIs(a: Expr, b: Expr)
    requires IsStep(a) && IsStep(b)
    ensures SameAccess(a, b) <==> StepOf(a) == StepOf(b) && !StepOf(a).Unknown?
  {
  }

  /** Are these syntactically the same location? Exactly if all their steps are known and
      lead the same way from the same symbol. */
  method SameLocation(x: Expr, y: Expr) returns (same: bool)
    ensures same <==> Known(SpineOf(x)) && SpineOf(x) == SpineOf(y)
    decreases x
  {
    hide SpineOf, SameAccess, StepOf;
    var a := SkipConversions(x);
    var b := SkipConversions(y);
    same := false;
    if IsStep(a) && IsStep(b) {
      SameAccessIs(a, b);
      StepsMatch(a, b);
      if SameAccess(a, b) {
        same := SameLocation(a.base, b.base);
      }
    } else {
      RootsMatch(a, b);
      same := a.Sym? && b.Sym? && a.id == b.id;
    }
  }

  lemma PushEqual(s: seq<Step>, x: Step, t: seq<Step>, y: Step)
    ensures s + [x] == t + [y] <==> s == t && x == y
  {
    if s + [x] == t + [y] {
      assert (s + [x])[..|s|] == s && (t + [y])[..|t|] == t;
    }
  }

  lemma LastStep(e: Expr)
    requires IsStep(e)
    ensures SpineOf(e) == Spine(SpineOf(e.base).root, SpineOf(e.base).steps + [StepOf(e)])
  {
  }

  /** Two accesses are the same if their last steps and what is in front of them are. */
  lemma StepsMatch(a: Expr, b: Expr)
    requires IsStep(a) && IsStep(b)
    ensures Known(SpineOf(a)) && SpineOf(a) == SpineOf(b) <==>
      StepOf(a) == StepOf(b) && !StepOf(a).Unknown? && Known(SpineOf(a.base)) && SpineOf(a.base) == SpineOf(b.base)
  {
    hide SpineOf, StepOf;
    LastStep(a);
    LastStep(b);
    PushEqual(SpineOf(a.base).steps, StepOf(a), SpineOf(b.base).steps, StepOf(b));
  }

  lemma RootsMatch(a: Expr, b: Expr)
    requires !IsConv(a) && !IsConv(b) && !(IsStep(a) && IsStep(b))
    ensures Known(SpineOf(a)) && SpineOf(a) == SpineOf(b) <==> a.Sym? && b.Sym? && a.id == b.id
  {
  }

  /** The steps of `a` are the first steps of `b`. */
  predicate LeadsThrough(a: Spine, b: Spine)
  {
    Known(a) && a.root == b.root && a.steps <= b.steps
  }

  /** Is `a` met on the way to `b`? */
  method IsAccessorPrefixOf(a: Expr, b: Expr) returns (r: bool)
    ensures r <==> LeadsThrough(SpineOf(a), SpineOf(b))
  {
    var cur := b;
    while IsStep(cur) || IsConv(cur)
      invariant LeadsThrough(SpineOf(a), SpineOf(b)) <==> LeadsThrough(SpineOf(a), SpineOf(cur))
      decreases cur
    {
      r := SameLocation(cur, a);
      if r {
        return;
      }
      if IsStep(cur) {
        OneStepLess(SpineOf(a), SpineOf(cur), SpineOf(cur.base), StepOf(cur));
        cur := cur.base;
      } else {
        cur := cur.arg;
      }
    }
    r := SameLocation(cur, a);
  }

  lemma OneStepLess(a: Spine, b: Spine, c: Spine, step: Step)
    requires b.root == c.root && b.steps == c.steps + [step] && !(Known(b) && a == b)
    ensures LeadsThrough(a, b) <==> LeadsThrough(a, c)
  {
    if LeadsThrough(a, b) {
      assert |a.steps| == |b.steps| ==> a.steps == b.steps;
    }
  }
}
