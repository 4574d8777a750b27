/** The facts that the program verifier records while it walks over straight-line code:
    names for the versions of variables, and why what the facts entail holds at the end. */
module DrnimFacts {
  import opened Decimal
  import opened Integers
  import opened Options

  datatype Sym = Sym(id: int, name: string)

  /** Expressions over integers; `Old` marks what an assignment overwrites. */
  datatype Expr = Lit(value: int) | Var(sym: Sym) | Old(sym: Sym) | Op(op: nat, args: seq<Expr>)

  /** The recorded equation between a variable and a value, both at a scope: the number of
      variable versions recorded so far. */
  datatype Fact = Fact(key: Sym, value: Expr, scope: nat)

  // ---------- versions ----------

  /** How often a variable, enabled or disabled, occurs among the versions. */
  function Count(versions: seq<int>, id: int): nat
  {
    if versions == [] then 0
    else Count(versions[..|versions| - 1], id) + if Abs(versions[|versions| - 1]) == id then 1 else 0
  }

  /** How often it occurs enabled. */
  function CountEnabled(versions: seq<int>, id: int): nat
  {
    if versions == [] then 0
    else CountEnabled(versions[..|versions| - 1], id) + if versions[|versions| - 1] == id then 1 else 0
  }

  function Current(versions: seq<int>, s: Sym, begin: nat): nat
    requires begin <= |versions|
  {
    Count(versions[..begin], s.id)
  }

  function Previous(versions: seq<int>, s: Sym, begin: nat): int
    requires begin <= |versions|
  {
    CountEnabled(versions[..begin], s.id) - 1
  }

  lemma {:induction false} CountAdds(a: seq<int>, b: seq<int>, id: int)
    ensures Count(a + b, id) == Count(a, id) + Count(b, id)
    ensures CountEnabled(a + b, id) == CountEnabled(a, id) + CountEnabled(b, id)
    decreases |b|
  {
    if b == [] {
      assert a + b == a;
    } else {
      CountAdds(a, b[..|b| - 1], id);
      assert (a + b)[..|a + b| - 1] == a + b[..|b| - 1];
    }
  }

  lemma {:induction false} EnabledCount(versions: seq<int>, id: int)
    requires id > 0 && forall i | 0 <= i < |versions| :: versions[i] > 0
    ensures CountEnabled(versions, id) == Count(versions, id)
    decreases |versions|
  {
    if versions != [] {
      EnabledCount(versions[..|versions| - 1], id);
    }
  }

  /** Versions that are recorded later change no version of an earlier scope. */
  lemma GrowingKeepsVersions(versions: seq<int>, more: seq<int>, s: Sym, begin: nat)
    requires begin <= |versions|
    ensures Current(versions + more, s, begin) == Current(versions, s, begin)
    ensures Previous(versions + more, s, begin) == Previous(versions, s, begin)
  {
    assert (versions + more)[..begin] == versions[..begin];
  }

  // ---------- names ----------

  /** How many symbols of the same name the mangler met before the symbol. */
  function Disamb(mangler: seq<Sym>, s: Sym): nat
  {
    if mangler == [] || mangler[0] == s then 0
    else (if mangler[0].name == s.name then 1 else 0) + Disamb(mangler[1..], s)
  }

  /** Symbols that are met later change no number. */
  lemma {:induction false} GrowingKeepsDisamb(mangler: seq<Sym>, more: seq<Sym>, s: Sym)
    requires s in mangler
    ensures Disamb(mangler + more, s) == Disamb(mangler, s)
    decreases |mangler|
  {
    if mangler[0] != s {
      GrowingKeepsDisamb(mangler[1..], more, s);
      assert (mangler + more)[1..] == mangler[1..] + more;
    }
  }

  lemma {:induction false} DisambBelow(mangler: seq<Sym>, s: Sym, t: Sym)
    requires s in mangler && t in mangler && s.name == t.name && s != t
    ensures Disamb(mangler, s) != Disamb(mangler, t)
    decreases |mangler|
  {
    if mangler[0] != s && mangler[0] != t {
      DisambBelow(mangler[1..], s, t);
    }
  }

  function ScopePart(d: nat): string
  {
    if d == 0 then "" else "`scope=" + Numeral(d)
  }

  function VersionPart(v: int): string
  {
    if v <= 0 then "" else "`" + Numeral(v)
  }

  /** The name of a version of a symbol. */
  function StableName(mangler: seq<Sym>, s: Sym, v: int): string
  {
    s.name + ScopePart(Disamb(mangler, s)) + VersionPart(v)
  }

  predicate TickedOrEmpty(s: string) { s == "" || s[0] == '`' }

  function FirstTick(s: string): nat
  {
    if s == "" || s[0] == '`' then 0 else 1 + FirstTick(s[1..])
  }

  lemma {:induction false} FirstTickOf(a: string, r: string)
    requires '`' !in a && TickedOrEmpty(r)
    ensures FirstTick(a + r) == |a|
    decreases |a|
  {
    if a == "" {
      assert a + r == r;
    } else {
      FirstTickOf(a[1..], r);
      assert (a + r)[0] == a[0] && (a + r)[1..] == a[1..] + r;
    }
  }

  /** A text without backticks and what follows it from the first backtick on. */
  lemma SplitAtTick(a: string, r: string, b: string, q: string)
    requires '`' !in a && '`' !in b && TickedOrEmpty(r) && TickedOrEmpty(q) && a + r == b + q
    ensures a == b && r == q
  {
    FirstTickOf(a, r);
    FirstTickOf(b, q);
    assert (a + r)[..|a|] == a && (b + q)[..|b|] == b && (a + r)[|a|..] == r && (b + q)[|b|..] == q;
  }

  lemma VersionPartsDiffer(v: int, w: int)
    ensures TickedOrEmpty(VersionPart(v))
    ensures VersionPart(v) == VersionPart(w) ==> v == w || (v <= 0 && w <= 0)
  {
    if VersionPart(v) == VersionPart(w) && v > 0 && w > 0 {
      assert Numeral(v) == VersionPart(v)[1..] == Numeral(w);
      NumeralInjective(v, w);
    }
  }

  lemma NumeralNoTick(d: nat)
    ensures '`' !in Numeral(d)
  {
  }

  /** What follows the tick tells whether there is a scope. */
  lemma ScopeShape(d: nat, v: int)
    ensures var r := ScopePart(d) + VersionPart(v);
      TickedOrEmpty(r) && if d != 0 then |r| > 1 && r[1] == 's' else r == "" || (|r| > 1 && IsDigit(r[1]))
  {
    if d != 0 {
      assert ScopePart(d) == "`scope=" + Numeral(d);
    }
  }

  lemma ScopesDiffer(d: nat, a: string, e: nat, b: string)
    requires d != 0 && e != 0 && TickedOrEmpty(a) && TickedOrEmpty(b) && ScopePart(d) + a == ScopePart(e) + b
    ensures d == e && a == b
  {
    hide Numeral;
    assert (ScopePart(d) + a)[7..] == Numeral(d) + a && (ScopePart(e) + b)[7..] == Numeral(e) + b;
    NumeralNoTick(d);
    NumeralNoTick(e);
    SplitAtTick(Numeral(d), a, Numeral(e), b);
    NumeralInjective(d, e);
  }

  lemma SuffixesDiffer(d: nat, v: int, e: nat, w: int)
    requires ScopePart(d) + VersionPart(v) == ScopePart(e) + VersionPart(w)
    ensures d == e && (v == w || (v <= 0 && w <= 0))
  {
    hide VersionPart, Numeral;
    VersionPartsDiffer(v, w);
    VersionPartsDiffer(w, v);
    ScopeShape(d, v);
    ScopeShape(e, w);
    if d != 0 && e != 0 {
      ScopesDiffer(d, VersionPart(v), e, VersionPart(w));
    } else if d == 0 && e == 0 {
      assert ScopePart(d) + VersionPart(v) == VersionPart(v) && ScopePart(e) + VersionPart(w) == VersionPart(w);
    }
  }

  /** Is one symbol, the first of its name, called like a version of the other, whose name is
      a different one? */
  ghost predicate Clash(mangler: seq<Sym>, s: Sym, t: Sym)
  {
    s.name != t.name && Disamb(mangler, t) == 0 && exists v: int :: StableName(mangler, s, v) == t.name
  }

  /** If a longer name continues a shorter one, and both with their parts are equal, then the
      longer name ends in parts of its own and has no scope. */
  lemma LongerName(a: string, d: nat, v: int, b: string, e: nat, w: int) returns (u: int)
    requires |a| < |b| && a + ScopePart(d) + VersionPart(v) == b + ScopePart(e) + VersionPart(w)
    ensures e == 0 && b == a + ScopePart(d) + VersionPart(u)
  {
    hide ScopePart, VersionPart;
    var r, q := ScopePart(d) + VersionPart(v), ScopePart(e) + VersionPart(w);
    assert a + ScopePart(d) + VersionPart(v) == a + r && b + ScopePart(e) + VersionPart(w) == b + q;
    var x := LongerPart(a, r, b, q);
    ScopeShape(d, v);
    ScopeShape(e, w);
    if q == "" {
      u := v;
      assert x == r;
    } else {
      TicksAt(d, v, |x|);
      VersionPartsDiffer(0, 0);
      assert r[..|x|] == x;
      u := 0;
      NoVersion();
    }
  }

  lemma NoVersion()
    ensures VersionPart(0) == ""
  {
  }

  lemma LongerPart(a: string, r: string, b: string, q: string) returns (x: string)
    requires |a| < |b| && a + r == b + q
    ensures x != "" && b == a + x && r == x + q
  {
    x := b[|a|..];
    assert b == (b + q)[..|b|] == (a + r)[..|b|] && a == (a + r)[..|a|] == b[..|a|];
    assert r == (a + r)[|a|..] == (b + q)[|a|..] == x + q;
  }

  /** Behind its first character, only the version starts with a backtick. */
  lemma TicksAt(d: nat, v: int, i: nat)
    requires var r := ScopePart(d) + VersionPart(v); 0 < i < |r| - 1 && r[i] == '`'
    ensures var r := ScopePart(d) + VersionPart(v); r[..i] == ScopePart(d) && r[i + 1] != 's'
  {
    var r := ScopePart(d) + VersionPart(v);
    if d != 0 {
      assert ScopePart(d) == "`scope=" + Numeral(d);
      forall k | 7 <= k < |ScopePart(d)| ensures r[k] != '`' {
        assert r[k] == Numeral(d)[k - 7];
      }
    }
    if i >= |ScopePart(d)| {
      assert r[i] == VersionPart(v)[i - |ScopePart(d)|];
    }
  }

  lemma FirstNames(mangler: seq<Sym>, s: Sym)
    ensures Disamb(mangler, s) == 0 ==> StableName(mangler, s, 0) == s.name
    ensures forall v | v <= 0 :: StableName(mangler, s, v) == StableName(mangler, s, 0)
  {
  }

  /** The name tells the symbol and the version, unless one symbol is called like a version
      of the other. */
  lemma StableNameTells(mangler: seq<Sym>, s: Sym, v: int, t: Sym, w: int)
    requires s in mangler && t in mangler && !Clash(mangler, s, t) && !Clash(mangler, t, s)
    ensures StableName(mangler, s, v) == StableName(mangler, t, w) <==> s == t && (v == w || (v <= 0 && w <= 0))
  {
    hide Disamb, ScopePart, VersionPart;
    var d, e := Disamb(mangler, s), Disamb(mangler, t);
    FirstNames(mangler, s);
    if StableName(mangler, s, v) == StableName(mangler, t, w) {
      LongerClashes(mangler, s, v, t, w);
      LongerClashes(mangler, t, w, s, v);
      assert s.name + ScopePart(d) + VersionPart(v) == s.name + (ScopePart(d) + VersionPart(v));
      assert t.name + ScopePart(e) + VersionPart(w) == t.name + (ScopePart(e) + VersionPart(w));
      SameName(s.name, ScopePart(d) + VersionPart(v), t.name, ScopePart(e) + VersionPart(w));
      SuffixesDiffer(d, v, e, w);
      if s != t { DisambBelow(mangler, s, t); }
    }
  }

  lemma LongerClashes(mangler: seq<Sym>, s: Sym, v: int, t: Sym, w: int)
    requires StableName(mangler, s, v) == StableName(mangler, t, w)
    ensures |s.name| < |t.name| ==> Clash(mangler, s, t)
  {
    if |s.name| < |t.name| {
      var u := LongerName(s.name, Disamb(mangler, s), v, t.name, Disamb(mangler, t), w);
      assert StableName(mangler, s, u) == t.name;
    }
  }

  lemma SameName(a: string, r: string, b: string, q: string)
    requires |a| == |b| && a + r == b + q
    ensures a == b && r == q
  {
    assert (a + r)[..|a|] == a && (b + q)[..|b|] == b && (a + r)[|a|..] == r && (b + q)[|b|..] == q;
  }

  /** All versions of two symbols have different names if and only if neither is called like a
      version of the other. */
  lemma StableNamesTellExactly(mangler: seq<Sym>, s: Sym, t: Sym)
    requires s in mangler && t in mangler
    ensures !Clash(mangler, s, t) && !Clash(mangler, t, s) <==>
      forall v, w :: StableName(mangler, s, v) == StableName(mangler, t, w) <==> s == t && (v == w || (v <= 0 && w <= 0))
  {
    hide StableName;
    FirstNames(mangler, s);
    FirstNames(mangler, t);
    if !Clash(mangler, s, t) && !Clash(mangler, t, s) {
      forall v, w ensures StableName(mangler, s, v) == StableName(mangler, t, w) <==> s == t && (v == w || (v <= 0 && w <= 0)) {
        StableNameTells(mangler, s, v, t, w);
      }
    }
  }

  /** The last backtick, if any, is followed by neither a scope nor a version. */
  predicate Unversioned(name: string)
  {
    forall i | 0 <= i < |name| - 1 && name[i] == '`' && '`' !in name[i + 1..] :: name[i + 1] != 's' && !IsDigit(name[i + 1])
  }

  lemma UnversionedIsNoVersion(mangler: seq<Sym>, s: Sym, t: Sym)
    requires Unversioned(t.name)
    ensures !Clash(mangler, s, t)
  {
    if Clash(mangler, s, t) {
      var v :| StableName(mangler, s, v) == t.name;
      var d := Disamb(mangler, s);
      assert t.name == s.name + ScopePart(d) + VersionPart(v);
      assert s.name + "" + "" == s.name;
      NumeralNoTick(d);
      if v > 0 {
        NumeralNoTick(v);
        LastTick(s.name + ScopePart(d), Numeral(v));
      } else if d != 0 {
        assert "`scope=" + Numeral(d) == "`" + ("scope=" + Numeral(d));
        assert t.name == s.name + ("`" + ("scope=" + Numeral(d)));
        LastTick(s.name, "scope=" + Numeral(d));
      }
    }
  }

  lemma LastTick(a: string, tail: string)
    requires '`' !in tail && tail != "" && (tail[0] == 's' || IsDigit(tail[0]))
    ensures !Unversioned(a + ("`" + tail))
  {
    var name := a + ("`" + tail);
    assert name[|a|] == '`' && name[|a| + 1..] == tail && name[|a| + 1] == tail[0];
  }

  /** Names without backticks, and those of the symbols that a template expansion makes, are
      called like no version. */
  lemma TemplateNames(name: string, instance: nat)
    ensures '`' !in name ==> Unversioned(name)
    ensures Unversioned(name + "`gensym" + Numeral(instance))
  {
    var tail := "gensym" + Numeral(instance);
    var whole := name + "`gensym" + Numeral(instance);
    assert whole == name + ("`" + tail);
    NumeralNoTick(instance);
    assert '`' !in tail by { assert '`' !in "gensym"; }
    forall k | |name| < k < |whole| ensures whole[k] != '`' {
      assert whole[k] == tail[k - |name| - 1];
    }
    forall i | 0 <= i < |name| && whole[i] == '`' ensures '`' in whole[i + 1..] {
      assert whole[i + 1..][|name| - i - 1] == whole[|name|];
    }
    forall i | 0 <= i < |whole| - 1 && whole[i] == '`' && '`' !in whole[i + 1..] ensures whole[i + 1] == 'g' {
      assert i == |name|;
      assert whole[i + 1] == tail[0];
    }
  }

  // ---------- what programs and facts mean ----------

  type Ops = (nat, seq<int>) -> int

  /** The values of the variables. */
  type Store = map<Sym, int>

  /** The values of the names. */
  type Valuation = map<string, int>

  datatype Asgn = Asgn(target: Sym, value: Expr)

  /** The variables of an expression are among the given ones, and nothing in it is old. */
  predicate Plain(e: Expr, vars: set<Sym>)
  {
    match e
    case Lit(_) => true
    case Var(s) => s in vars
    case Old(_) => false
    case Op(_, args) => forall i | 0 <= i < |args| :: Plain(args[i], vars)
  }

  function Eval(ops: Ops, e: Expr, st: Store): int
    requires Plain(e, st.Keys)
  {
    match e
    case Lit(v) => v
    case Var(s) => st[s]
    case Op(op, args) => ops(op, seq(|args|, i requires 0 <= i < |args| => Eval(ops, args[i], st)))
  }

  predicate ProgramOk(prog: seq<Asgn>, vars: set<Sym>)
  {
    forall i | 0 <= i < |prog| :: prog[i].target in vars && Plain(prog[i].value, vars)
  }

  function Run(ops: Ops, prog: seq<Asgn>, st: Store): (r: Store)
    requires ProgramOk(prog, st.Keys)
    ensures r.Keys == st.Keys
  {
    if prog == [] then st
    else
      var before := Run(ops, prog[..|prog| - 1], st);
      var last := prog[|prog| - 1];
      before[last.target := Eval(ops, last.value, before)]
  }

  /** The copy of a value in which what is assigned is marked as old. */
  function MarkOld(e: Expr, target: Sym): Expr
  {
    match e
    case Var(s) => if s == target then Old(s) else e
    case Op(op, args) => Op(op, seq(|args|, i requires 0 <= i < |args| => MarkOld(args[i], target)))
    case _ => e
  }

  /** What a checker of the facts makes of an expression at a scope: symbols are names of
      versions, and what is old the name of the version before. */
  function Meaning(ops: Ops, mangler: seq<Sym>, versions: seq<int>, e: Expr, scope: nat, val: Valuation): Option<int>
    requires scope <= |versions|
  {
    match e
    case Lit(v) => Some(v)
    case Var(s) => Lookup(val, StableName(mangler, s, Current(versions, s, scope)))
    case Old(s) => Lookup(val, StableName(mangler, s, Previous(versions, s, scope)))
    case Op(op, args) =>
      var vs := seq(|args|, i requires 0 <= i < |args| => Meaning(ops, mangler, versions, args[i], scope, val));
      if forall i | 0 <= i < |vs| :: vs[i].Some? then
        Some(ops(op, seq(|vs|, i requires 0 <= i < |vs| && vs[i].Some? => vs[i].value)))
      else None
  }

  function Lookup(val: Valuation, name: string): Option<int>
  {
    if name in val then Some(val[name]) else None
  }

  predicate Holds(ops: Ops, mangler: seq<Sym>, versions: seq<int>, f: Fact, val: Valuation)
    requires f.scope <= |versions|
  {
    var l := Meaning(ops, mangler, versions, Var(f.key), f.scope, val);
    l.Some? && l == Meaning(ops, mangler, versions, f.value, f.scope, val)
  }

  /** The versions that a program records. */
  function Versions(prog: seq<Asgn>): seq<int>
  {
    seq(|prog|, i requires 0 <= i < |prog| => prog[i].target.id)
  }

  /** The facts that a program records. */
  function Facts(prog: seq<Asgn>): seq<Fact>
  {
    seq(|prog|, i requires 0 <= i < |prog| => Fact(prog[i].target, MarkOld(prog[i].value, prog[i].target), i + 1))
  }

  /** All facts hold, and the names of the current versions have the values of the store. */
  ghost predicate Models(ops: Ops, mangler: seq<Sym>, prog: seq<Asgn>, st: Store, val: Valuation)
    requires ProgramOk(prog, st.Keys)
  {
    && (forall i | 0 <= i < |prog| :: Holds(ops, mangler, Versions(prog), Facts(prog)[i], val))
    && (forall s | s in st :: Lookup(val, StableName(mangler, s, Current(Versions(prog), s, |prog|))) == Some(Run(ops, prog, st)[s]))
  }

  /** The variables have ids of their own, and none of them is called like a version of
      another. */
  ghost predicate SymsOk(mangler: seq<Sym>, vars: set<Sym>)
  {
    IdsOk(mangler, vars) && forall s, t | s in vars && t in vars :: !Clash(mangler, s, t)
  }

  predicate IdsOk(mangler: seq<Sym>, vars: set<Sym>)
  {
    && (forall s | s in vars :: s in mangler && s.id > 0)
    && (forall s, t | s in vars && t in vars && s.id == t.id :: s == t)
  }

  // ---------- soundness ----------

  ghost predicate IsVersionName(mangler: seq<Sym>, versions: seq<int>, vars: set<Sym>, name: string)
  {
    exists s, v: nat :: s in vars && v <= Count(versions, s.id) && name == StableName(mangler, s, v)
  }

  /** The names that have values are those of recorded versions. */
  ghost predicate OnlyVersions(mangler: seq<Sym>, versions: seq<int>, vars: set<Sym>, val: Valuation)
  {
    forall name | name in val :: IsVersionName(mangler, versions, vars, name)
  }

  /** More names change no meaning. */
  lemma {:induction false} MeaningStays(ops: Ops, mangler: seq<Sym>, versions: seq<int>, more: seq<int>, e: Expr, scope: nat,
                                        val: Valuation, name: string, value: int)
    requires scope <= |versions| && name !in val && Meaning(ops, mangler, versions, e, scope, val).Some?
    ensures Meaning(ops, mangler, versions + more, e, scope, val[name := value]) == Meaning(ops, mangler, versions, e, scope, val)
    decreases e
  {
    hide StableName, Count, CountEnabled;
    match e
    case Lit(_) =>
    case Var(s) => GrowingKeepsVersions(versions, more, s, scope);
    case Old(s) => GrowingKeepsVersions(versions, more, s, scope);
    case Op(op, args) =>
      var vs := seq(|args|, i requires 0 <= i < |args| => Meaning(ops, mangler, versions, args[i], scope, val));
      var ws := seq(|args|, i requires 0 <= i < |args| => Meaning(ops, mangler, versions + more, args[i], scope, val[name := value]));
      forall i | 0 <= i < |args| ensures vs[i] == ws[i] {
        assert vs[i].Some?;
        MeaningStays(ops, mangler, versions, more, args[i], scope, val, name, value);
      }
      assert vs == ws;
  }

  /** The names at the scope of an assignment: those of the versions before it, except for
      the version that it makes. */
  ghost predicate Before(mangler: seq<Sym>, versions: seq<int>, target: Sym, before: Store, val: Valuation)
  {
    var scope := |versions|;
    forall s | s in before ::
      if s == target then Lookup(val, StableName(mangler, s, Previous(versions, s, scope))) == Some(before[s])
      else Lookup(val, StableName(mangler, s, Current(versions, s, scope))) == Some(before[s])
  }

  /** With what is assigned marked as old, a value means what it evaluates to before the
      assignment. */
  lemma {:induction false} MarkedMeans(ops: Ops, mangler: seq<Sym>, versions: seq<int>, target: Sym, before: Store, val: Valuation, e: Expr)
    requires Plain(e, before.Keys) && Before(mangler, versions, target, before, val)
    ensures Meaning(ops, mangler, versions, MarkOld(e, target), |versions|, val) == Some(Eval(ops, e, before))
    decreases e
  {
    hide StableName, Current, Previous, Lookup;
    match e
    case Lit(_) =>
    case Var(s) =>
    case Op(op, args) =>
      var marked := seq(|args|, i requires 0 <= i < |args| => MarkOld(args[i], target));
      var vs := seq(|marked|, i requires 0 <= i < |marked| => Meaning(ops, mangler, versions, marked[i], |versions|, val));
      var es := seq(|args|, i requires 0 <= i < |args| => Eval(ops, args[i], before));
      forall i | 0 <= i < |args| ensures vs[i] == Some(es[i]) {
        MarkedMeans(ops, mangler, versions, target, before, val, args[i]);
      }
      assert seq(|vs|, i requires 0 <= i < |vs| && vs[i].Some? => vs[i].value) == es;
  }

  lemma InitialNamesDiffer(mangler: seq<Sym>, vars: set<Sym>)
    requires SymsOk(mangler, vars)
    ensures forall s, t | s in vars && t in vars :: StableName(mangler, s, 0) == StableName(mangler, t, 0) ==> s == t
  {
    hide StableName, Disamb, Clash;
    forall s, t | s in vars && t in vars ensures StableName(mangler, s, 0) == StableName(mangler, t, 0) ==> s == t {
      StableNameTells(mangler, s, 0, t, 0);
    }
  }

  lemma InitialNames(mangler: seq<Sym>, st: Store) returns (val: Valuation)
    requires SymsOk(mangler, st.Keys)
    ensures forall s | s in st :: Lookup(val, StableName(mangler, s, 0)) == Some(st[s])
    ensures OnlyVersions(mangler, [], st.Keys, val)
  {
    hide StableName, SymsOk, Count, IsVersionName;
    InitialNamesDiffer(mangler, st.Keys);
    val := map s | s in st :: StableName(mangler, s, 0) := st[s];
    forall name | name in val ensures IsVersionName(mangler, [], st.Keys, name) {
      var s :| s in st && name == StableName(mangler, s, 0);
      VersionNameIs(mangler, [], st.Keys, s, 0);
    }
  }

  lemma NewName(mangler: seq<Sym>, versions: seq<int>, vars: set<Sym>, target: Sym, val: Valuation)
    requires SymsOk(mangler, vars) && target in vars && OnlyVersions(mangler, versions, vars, val)
    ensures StableName(mangler, target, Count(versions, target.id) + 1) !in val
  {
    hide StableName, Count, Clash;
    var name := StableName(mangler, target, Count(versions, target.id) + 1);
    forall s, v: nat | s in vars && v <= Count(versions, s.id) ensures StableName(mangler, s, v) != name {
      StableNameTells(mangler, s, v, target, Count(versions, target.id) + 1);
    }
    assert !IsVersionName(mangler, versions, vars, name);
  }

  lemma VersionsAfter(versions: seq<int>, target: Sym, s: Sym)
    requires target.id > 0 && s.id > 0 && forall i | 0 <= i < |versions| :: versions[i] > 0
    ensures var after, n := versions + [target.id], |versions| + 1;
      && Current(after, s, n) == Count(versions, s.id) + (if s.id == target.id then 1 else 0)
      && Previous(after, target, n) == Count(versions, target.id)
      && Count(after, s.id) == Current(after, s, n)
  {
    var after := versions + [target.id];
    assert after[..|after|] == after && after[..|after| - 1] == versions;
    EnabledCount(versions, target.id);
  }

  lemma OnlyVersionsAfter(mangler: seq<Sym>, versions: seq<int>, vars: set<Sym>, target: Sym, val: Valuation, value: int)
    requires SymsOk(mangler, vars) && target in vars && OnlyVersions(mangler, versions, vars, val)
    requires forall i | 0 <= i < |versions| :: versions[i] > 0
    ensures OnlyVersions(mangler, versions + [target.id], vars, val[StableName(mangler, target, Count(versions, target.id) + 1) := value])
  {
    hide StableName, Count, IsVersionName;
    var more := val[StableName(mangler, target, Count(versions, target.id) + 1) := value];
    forall name | name in more ensures IsVersionName(mangler, versions + [target.id], vars, name) {
      if name in val {
        StillVersionName(mangler, versions, vars, target, name);
      } else {
        NewVersionName(mangler, versions, vars, target);
      }
    }
  }

  lemma StillVersionName(mangler: seq<Sym>, versions: seq<int>, vars: set<Sym>, target: Sym, name: string)
    requires SymsOk(mangler, vars) && target in vars && IsVersionName(mangler, versions, vars, name)
    requires forall i | 0 <= i < |versions| :: versions[i] > 0
    ensures IsVersionName(mangler, versions + [target.id], vars, name)
  {
    hide StableName, Count;
    var s, v: nat :| s in vars && v <= Count(versions, s.id) && name == StableName(mangler, s, v);
    VersionsAfter(versions, target, s);
    VersionNameIs(mangler, versions + [target.id], vars, s, v);
  }

  lemma NewVersionName(mangler: seq<Sym>, versions: seq<int>, vars: set<Sym>, target: Sym)
    requires SymsOk(mangler, vars) && target in vars && forall i | 0 <= i < |versions| :: versions[i] > 0
    ensures IsVersionName(mangler, versions + [target.id], vars, StableName(mangler, target, Count(versions, target.id) + 1))
  {
    hide StableName, Count, IsVersionName;
    VersionsAfter(versions, target, target);
    VersionNameIs(mangler, versions + [target.id], vars, target, Count(versions, target.id) + 1);
  }

  lemma VersionNameIs(mangler: seq<Sym>, versions: seq<int>, vars: set<Sym>, s: Sym, v: nat)
    requires s in vars && v <= Count(versions, s.id)
    ensures IsVersionName(mangler, versions, vars, StableName(mangler, s, v))
  {
  }

  /** For every program over variables whose names do not clash, and every initial store, some
      values of the names make all recorded facts true and give the names of the current versions
      the values of the final store. */
  lemma {:induction false} FactsHaveModel(ops: Ops, mangler: seq<Sym>, prog: seq<Asgn>, st: Store) returns (val: Valuation)
    requires ProgramOk(prog, st.Keys) && SymsOk(mangler, st.Keys)
    ensures Models(ops, mangler, prog, st, val) && OnlyVersions(mangler, Versions(prog), st.Keys, val)
    decreases |prog|
  {
    hide SymsOk;
    if prog == [] {
      val := InitialNames(mangler, st);
    } else {
      var n := |prog| - 1;
      var earlier := FactsHaveModel(ops, mangler, prog[..n], st);
      val := Extended(ops, mangler, prog, st, earlier);
    }
  }

  lemma Extended(ops: Ops, mangler: seq<Sym>, prog: seq<Asgn>, st: Store, val: Valuation) returns (next: Valuation)
    requires prog != [] && ProgramOk(prog, st.Keys) && SymsOk(mangler, st.Keys)
    requires Models(ops, mangler, prog[..|prog| - 1], st, val) && OnlyVersions(mangler, Versions(prog[..|prog| - 1]), st.Keys, val)
    ensures Models(ops, mangler, prog, st, next) && OnlyVersions(mangler, Versions(prog), st.Keys, next)
  {
    hide StableName, Count, CountEnabled, Current, Meaning, Holds, Eval, OnlyVersions, SymsOk, Lookup, MarkOld;
    var n := |prog| - 1;
    var prefix, a := prog[..n], prog[n];
    var versions, before := Versions(prefix), Run(ops, prefix, st);
    assert Versions(prog) == versions + [a.target.id];
    PositiveVersions(mangler, prefix, st.Keys);
    var name := StableName(mangler, a.target, Count(versions, a.target.id) + 1);
    var value := Eval(ops, a.value, before);
    next := val[name := value];
    NewName(mangler, versions, st.Keys, a.target, val);
    OnlyVersionsAfter(mangler, versions, st.Keys, a.target, val, value);
    forall i | 0 <= i < n ensures Holds(ops, mangler, Versions(prog), Facts(prog)[i], next) {
      assert Facts(prog)[i] == Facts(prefix)[i];
      OldFactHolds(ops, mangler, versions, [a.target.id], Facts(prefix)[i], val, name, value);
    }
    NewNames(mangler, versions, a.target, before, val, value);
    NewFactHolds(ops, mangler, versions, a, before, next);
  }

  lemma PositiveVersions(mangler: seq<Sym>, prog: seq<Asgn>, vars: set<Sym>)
    requires ProgramOk(prog, vars) && SymsOk(mangler, vars)
    ensures forall i | 0 <= i < |prog| :: Versions(prog)[i] > 0
    ensures forall s | s in vars :: s.id > 0
  {
  }

  /** The fact that an assignment records holds. */
  lemma NewFactHolds(ops: Ops, mangler: seq<Sym>, versions: seq<int>, a: Asgn, before: Store, next: Valuation)
    requires Plain(a.value, before.Keys) && a.target in before && Before(mangler, versions + [a.target.id], a.target, before, next)
    requires var after := versions + [a.target.id];
      Lookup(next, StableName(mangler, a.target, Current(after, a.target, |after|))) == Some(Eval(ops, a.value, before))
    ensures Holds(ops, mangler, versions + [a.target.id], Fact(a.target, MarkOld(a.value, a.target), |versions| + 1), next)
  {
    hide StableName, Current, Eval, Lookup, MarkOld, Before;
    MarkedMeans(ops, mangler, versions + [a.target.id], a.target, before, next, a.value);
  }

  lemma OldFactHolds(ops: Ops, mangler: seq<Sym>, versions: seq<int>, more: seq<int>, f: Fact, val: Valuation, name: string, value: int)
    requires f.scope <= |versions| && Holds(ops, mangler, versions, f, val) && name !in val
    ensures Holds(ops, mangler, versions + more, f, val[name := value])
  {
    hide Meaning;
    MeaningStays(ops, mangler, versions, more, Var(f.key), f.scope, val, name, value);
    MeaningStays(ops, mangler, versions, more, f.value, f.scope, val, name, value);
  }

  /** After an assignment the names before it still have their values, and the new one its. */
  lemma NewNames(mangler: seq<Sym>, versions: seq<int>, target: Sym, before: Store, val: Valuation, value: int)
    requires SymsOk(mangler, before.Keys) && target in before && forall i | 0 <= i < |versions| :: versions[i] > 0
    requires StableName(mangler, target, Count(versions, target.id) + 1) !in val
    requires forall s | s in before :: Lookup(val, StableName(mangler, s, Current(versions, s, |versions|))) == Some(before[s])
    ensures var after := versions + [target.id];
      var next := val[StableName(mangler, target, Count(versions, target.id) + 1) := value];
      && Before(mangler, after, target, before, next)
      && forall s | s in before ::
           Lookup(next, StableName(mangler, s, Current(after, s, |after|))) == Some(before[target := value][s])
  {
    hide StableName, Count, CountEnabled;
    assert versions[..|versions|] == versions;
    forall s | s in before
      ensures var after := versions + [target.id];
        && Current(after, s, |after|) == Count(versions, s.id) + (if s == target then 1 else 0)
        && Previous(after, target, |after|) == Count(versions, target.id)
    {
      VersionsAfter(versions, target, s);
    }
  }

  /** Does the property hold, a result other than 0 standing for true? */
  predicate True(r: Option<int>) { r.Some? && r.value != 0 }

  ghost predicate FactsHold(ops: Ops, mangler: seq<Sym>, prog: seq<Asgn>, val: Valuation)
  {
    forall i | 0 <= i < |prog| :: Holds(ops, mangler, Versions(prog), Facts(prog)[i], val)
  }

  /** Whatever values of the names make all facts true make the property true. */
  ghost predicate Entailed(ops: Ops, mangler: seq<Sym>, prog: seq<Asgn>, prop: Expr)
  {
    forall val: Valuation | FactsHold(ops, mangler, prog, val) ::
      var r := Meaning(ops, mangler, Versions(prog), prop, |prog|, val);
      r.Some? ==> True(r)
  }

  /** What the facts entail holds of the final store. */
  lemma EntailedHolds(ops: Ops, mangler: seq<Sym>, prog: seq<Asgn>, st: Store, prop: Expr)
    requires ProgramOk(prog, st.Keys) && SymsOk(mangler, st.Keys) && Plain(prop, st.Keys) && Entailed(ops, mangler, prog, prop)
    ensures Eval(ops, prop, Run(ops, prog, st)) != 0
  {
    hide Meaning, Holds, StableName, Current, Eval, Run, Lookup, OnlyVersions, SymsOk, Plain;
    var val := FactsHaveModel(ops, mangler, prog, st);
    assert FactsHold(ops, mangler, prog, val);
    PlainMeans(ops, mangler, Versions(prog), Run(ops, prog, st), val, prop);
  }

  lemma {:induction false} PlainMeans(ops: Ops, mangler: seq<Sym>, versions: seq<int>, st: Store, val: Valuation, e: Expr)
    requires Plain(e, st.Keys)
    requires forall s | s in st :: Lookup(val, StableName(mangler, s, Current(versions, s, |versions|))) == Some(st[s])
    ensures Meaning(ops, mangler, versions, e, |versions|, val) == Some(Eval(ops, e, st))
    decreases e
  {
    hide StableName, Current, Lookup;
    match e
    case Lit(_) =>
    case Var(s) =>
    case Op(op, args) =>
      var vs := seq(|args|, i requires 0 <= i < |args| => Meaning(ops, mangler, versions, args[i], |versions|, val));
      var es := seq(|args|, i requires 0 <= i < |args| => Eval(ops, args[i], st));
      forall i | 0 <= i < |args| ensures vs[i] == Some(es[i]) {
        PlainMeans(ops, mangler, versions, st, val, args[i]);
      }
      assert seq(|vs|, i requires 0 <= i < |vs| && vs[i].Some? => vs[i].value) == es;
  }

  // ---------- why names must not clash ----------

  function Zeroes(s: Sym, n: nat): seq<Asgn>
  {
    seq(n, _ => Asgn(s, Lit(0)))
  }

  lemma {:induction false} ZeroesRun(ops: Ops, s: Sym, n: nat, st: Store)
    requires s in st && st[s] == 0
    ensures ProgramOk(Zeroes(s, n), st.Keys) && Run(ops, Zeroes(s, n), st) == st
    decreases n
  {
    if n > 0 {
      ZeroesRun(ops, s, n - 1, st);
      assert Zeroes(s, n)[..n - 1] == Zeroes(s, n - 1);
    }
  }

  lemma {:induction false} ZeroesCount(s: Sym, n: nat, id: int)
    requires s.id > 0
    ensures Count(Versions(Zeroes(s, n)), id) == if id == s.id then n else 0
    decreases n
  {
    if n > 0 {
      ZeroesCount(s, n - 1, id);
      assert Versions(Zeroes(s, n))[..n - 1] == Versions(Zeroes(s, n - 1));
    }
  }

  ghost predicate IsEquality(ops: Ops, eq: nat)
  {
    forall a, b :: ops(eq, [a, b]) == if a == b then 1 else 0
  }

  /** If one variable is called like a version of another, then a program that assigns the
      other until it has this version makes the facts entail that the two are equal, and they
      are not. */
  lemma ClashIsUnsound(ops: Ops, eq: nat, mangler: seq<Sym>, vars: set<Sym>, s: Sym, t: Sym)
      returns (prog: seq<Asgn>, st: Store, prop: Expr)
    requires IsEquality(ops, eq) && IdsOk(mangler, vars) && s in vars && t in vars && Clash(mangler, s, t)
    ensures st.Keys == vars && ProgramOk(prog, vars) && Plain(prop, vars)
    ensures Entailed(ops, mangler, prog, prop) && Eval(ops, prop, Run(ops, prog, st)) == 0
  {
    var v: int :| StableName(mangler, s, v) == t.name;
    var n: nat := if v > 0 then v else 0;
    prog, st, prop := Zeroes(s, n), map x | x in vars :: if x == t then 1 else 0, Op(eq, [Var(s), Var(t)]);
    ZeroesRun(ops, s, n, st);
    SameNames(mangler, s, t, v, n);
    forall val: Valuation | FactsHold(ops, mangler, prog, val)
      ensures var r := Meaning(ops, mangler, Versions(prog), prop, n, val); r.Some? ==> True(r)
    {
      EqualMeans(ops, eq, mangler, Versions(prog), s, t, n, val);
    }
    assert Eval(ops, prop, st) == ops(eq, [0, 1]) by { EqualEval(ops, eq, s, t, st); }
  }

  lemma SameNames(mangler: seq<Sym>, s: Sym, t: Sym, v: int, n: nat)
    requires Disamb(mangler, t) == 0 && StableName(mangler, s, v) == t.name && n == (if v > 0 then v else 0)
    requires s.id > 0 && s.id != t.id
    ensures var versions := Versions(Zeroes(s, n));
      && |versions| == n
      && StableName(mangler, s, Current(versions, s, n)) == StableName(mangler, t, Current(versions, t, n))
  {
    hide StableName, Count;
    var versions := Versions(Zeroes(s, n));
    assert versions[..n] == versions;
    ZeroesCount(s, n, s.id);
    ZeroesCount(s, n, t.id);
    FirstNames(mangler, s);
    FirstNames(mangler, t);
  }

  lemma EqualMeans(ops: Ops, eq: nat, mangler: seq<Sym>, versions: seq<int>, s: Sym, t: Sym, scope: nat, val: Valuation)
    requires IsEquality(ops, eq) && scope <= |versions|
    requires StableName(mangler, s, Current(versions, s, scope)) == StableName(mangler, t, Current(versions, t, scope))
    ensures var r := Meaning(ops, mangler, versions, Op(eq, [Var(s), Var(t)]), scope, val); r.Some? ==> True(r)
  {
    hide StableName, Current;
    var args := [Var(s), Var(t)];
    var vs := seq(|args|, i requires 0 <= i < |args| => Meaning(ops, mangler, versions, args[i], scope, val));
    var found := Lookup(val, StableName(mangler, s, Current(versions, s, scope)));
    assert vs == [found, found];
    if found.None? {
      assert vs[0].None?;
    } else {
      var a := found.value;
      assert seq(|vs|, i requires 0 <= i < |vs| && vs[i].Some? => vs[i].value) == [a, a];
      assert ops(eq, [a, a]) == 1;
    }
  }

  lemma EqualEval(ops: Ops, eq: nat, s: Sym, t: Sym, st: Store)
    requires s in st && t in st
    ensures Plain(Op(eq, [Var(s), Var(t)]), st.Keys) && Eval(ops, Op(eq, [Var(s), Var(t)]), st) == ops(eq, [st[s], st[t]])
  {
    var args := [Var(s), Var(t)];
    assert seq(|args|, i requires 0 <= i < |args| => Eval(ops, args[i], st)) == [st[s], st[t]];
  }

  /** The facts are sound for all programs over some variables if and only if none of these is
      called like a version of another. */
  lemma SoundExactly(ops: Ops, eq: nat, mangler: seq<Sym>, vars: set<Sym>)
    requires IsEquality(ops, eq) && IdsOk(mangler, vars)
    ensures (forall s, t | s in vars && t in vars :: !Clash(mangler, s, t)) <==>
      forall prog, st: Store, prop | st.Keys == vars && ProgramOk(prog, vars) && Plain(prop, vars) && Entailed(ops, mangler, prog, prop) ::
        Eval(ops, prop, Run(ops, prog, st)) != 0
  {
    if s, t :| s in vars && t in vars && Clash(mangler, s, t) {
      var prog, st, prop := ClashIsUnsound(ops, eq, mangler, vars, s, t);
    } else {
      forall prog, st: Store, prop | st.Keys == vars && ProgramOk(prog, vars) && Plain(prop, vars) && Entailed(ops, mangler, prog, prop)
        ensures Eval(ops, prop, Run(ops, prog, st)) != 0
      {
        EntailedHolds(ops, mangler, prog, st, prop);
      }
    }
  }

  /** A variable called x`1 has the name of the first version of x. */
  lemma VersionNameClashes()
    ensures var x, y := Sym(1, "x"), Sym(2, "x`1"); Clash([x, y], x, y)
  {
    var x, y := Sym(1, "x"), Sym(2, "x`1");
    assert Numeral(1) == "1";
    assert StableName([x, y], x, 1) == y.name;
  }

  // ---------- the program ----------

  lemma {:induction false} DisambOfNew(mangler: seq<Sym>, s: Sym)
    requires s !in mangler
    ensures Disamb(mangler + [s], s) == Disamb(mangler, s)
    decreases |mangler|
  {
    if mangler != [] {
      DisambOfNew(mangler[1..], s);
      assert (mangler + [s])[1..] == mangler[1..] + [s];
    }
  }

  class DrnimContext {
    var facts: seq<Fact>
    /** The ids of the assigned variables, oldest first; disabled ones are negated. */
    var varVersions: seq<int>
    var varSyms: seq<Sym>
    /** The symbols that names were asked for. */
    var mangler: seq<Sym>

    /** The context has recorded what the program assigns. */
    ghost predicate Recorded(prog: seq<Asgn>)
      reads this
    {
      varVersions == Versions(prog) && facts == Facts(prog) && |varSyms| == |prog| &&
      forall i | 0 <= i < |prog| :: varSyms[i] == prog[i].target
    }

    constructor ()
      ensures Recorded([]) && mangler == []
    {
      facts, varVersions, varSyms, mangler := [], [], [], [];
    }

    method CurrentVarVersion(s: Sym, begin: nat) returns (v: nat)
      requires begin <= |varVersions|
      ensures v == Current(varVersions, s, begin)
    {
      v := 0;
      ghost var all := varVersions[..begin];
      assert all[begin..] == [] && all[..begin] == all;
      for i := begin downto 0
        invariant v + Count(all[..i], s.id) == Count(all, s.id)
      {
        assert all[..i + 1][..i] == all[..i];
        if Abs(varVersions[i]) == s.id { v := v + 1; }
      }
    }

    method PreviousVarVersion(s: Sym, begin: nat) returns (v: int)
      requires begin <= |varVersions|
      ensures v == Previous(varVersions, s, begin)
    {
      v := -1;
      ghost var all := varVersions[..begin];
      assert all[..begin] == all;
      for i := begin downto 0
        invariant v + CountEnabled(all[..i], s.id) == CountEnabled(all, s.id) - 1
      {
        assert all[..i + 1][..i] == all[..i];
        if varVersions[i] == s.id { v := v + 1; }
      }
    }

    /** The number of a symbol among those of its name; a new symbol gets the next one. */
    method Number(s: Sym) returns (d: nat)
      modifies this`mangler
      ensures mangler == (if s in old(mangler) then old(mangler) else old(mangler) + [s]) && d == Disamb(mangler, s)
    {
      d := 0;
      for i := 0 to |mangler|
        invariant s !in mangler[..i] && d + Disamb(mangler[i..], s) == Disamb(mangler, s)
      {
        if s == mangler[i] {
          return;
        }
        assert mangler[i..][1..] == mangler[i + 1..];
        if s.name == mangler[i].name { d := d + 1; }
      }
      DisambOfNew(mangler, s);
      mangler := mangler + [s];
    }

    /** The name of a symbol at a scope, or before the assignment that made the scope. */
    method NameOf(s: Sym, scope: nat, isOld: bool) returns (name: string)
      requires scope <= |varVersions|
      modifies this`mangler
      ensures mangler == (if s in old(mangler) then old(mangler) else old(mangler) + [s])
      ensures name == StableName(mangler, s, if isOld then Previous(varVersions, s, scope) else Current(varVersions, s, scope))
    {
      name := s.name;
      var d := Number(s);
      if d != 0 {
        name := name + "`scope=";
        name := name + Numeral(d);
      }
      assert name == s.name + ScopePart(d);
      var v;
      if isOld {
        v := PreviousVarVersion(s, scope);
      } else {
        v := CurrentVarVersion(s, scope);
      }
      if v > 0 {
        name := name + ['`'];
        name := name + Numeral(v);
      }
      assert name == s.name + ScopePart(d) + VersionPart(v);
    }

    method FreshVersion(s: Sym)
      modifies this`varVersions, this`varSyms
      ensures varVersions == old(varVersions) + [s.id] && varSyms == old(varSyms) + [s]
    {
      varVersions := varVersions + [s.id];
      varSyms := varSyms + [s];
    }

    method AddAsgnFact(key: Sym, value: Expr)
      modifies this`facts
      ensures facts == old(facts) + [Fact(key, value, |varVersions|)]
    {
      facts := facts + [Fact(key, value, |varVersions|)];
    }

    method TraverseAsgn(a: Asgn, ghost prog: seq<Asgn>)
      requires Recorded(prog)
      modifies this`facts, this`varVersions, this`varSyms
      ensures Recorded(prog + [a])
    {
      FreshVersion(a.target);
      AddAsgnFact(a.target, MarkOld(a.value, a.target));
      assert Versions(prog + [a]) == Versions(prog) + [a.target.id];
      assert Facts(prog + [a]) == Facts(prog) + [Fact(a.target, MarkOld(a.value, a.target), |prog| + 1)];
    }

    /** Walks over a straight-line program. */
    method TraverseAll(prog: seq<Asgn>)
      requires Recorded([])
      modifies this`facts, this`varVersions, this`varSyms
      ensures Recorded(prog)
    {
      for i := 0 to |prog|
        invariant Recorded(prog[..i])
      {
        TraverseAsgn(prog[i], prog[..i]);
        assert prog[..i] + [prog[i]] == prog[..i + 1];
      }
      assert prog[..|prog|] == prog;
    }
  }
}
