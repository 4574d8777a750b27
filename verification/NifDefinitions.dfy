/** Which definitions a stretch of written tokens contains: the bookkeeping behind
    "every entity is defined exactly once, and nothing refers to a missing definition". */
module NifDefinitions {
  import opened NifTokens
  import opened NifGraph
  import opened NifLoader
  import opened Options

  /** What the writer remembers as written: a sealed symbol or one in the set of backend
      symbols, a sealed type or one in the set of backend types, or a package name. */
  datatype Key = SymKey(s: SymId) | TypeKey(t: TypeId) | PackageKey(ident: string)

  function KeyOf(g: Graph, s: SymId): Key
    requires s in g.syms
  {
    match g.syms[s].cls
    case Package(ident) => PackageKey(ident)
    case _ => SymKey(s)
  }

  function AllKeys(g: Graph): set<Key>
  {
    (set s | s in g.syms :: KeyOf(g, s)) + (set t | t in g.types :: TypeKey(t))
  }

  /** The entities that this module is to define: its own symbols and types, and backend
      ones. */
  predicate Tracked(g: Graph, k: Key)
  {
    match k
    case SymKey(s) => s in g.syms && (g.syms[s].cls.Backend? || g.syms[s].cls == Ordinary(true))
    case TypeKey(t) => t in g.types && (g.types[t].cls.BackendType? || g.types[t].cls == OrdinaryType(true))
    case PackageKey(_) => false
  }

  function KeyName(g: Graph, k: Key): string
    requires Tracked(g, k)
  {
    match k
    case SymKey(s) => g.syms[s].name
    case TypeKey(t) => g.types[t].name
  }

  /** No other symbol and no other type has the name of a tracked entity. */
  ghost predicate NamesDistinct(g: Graph)
  {
    && (forall k, s | Tracked(g, k) && s in g.syms :: g.syms[s].name == KeyName(g, k) ==> k == SymKey(s))
    && (forall k, t | Tracked(g, k) && t in g.types :: g.types[t].name == KeyName(g, k) ==> k == TypeKey(t))
  }

  // ---------- fields ----------

  /** Does the field occur in the part of the node that is written here? */
  predicate HasField(g: Graph, n: Node, forAst: bool, s: SymId)
  {
    match n
    case SymNode(_, _, _, sym) => sym == s && s in g.syms && g.syms[s].cls.Field?
    case InnerNode(kind, _, _, sons) =>
      !BySymbol(n, forAst) &&
      exists i | 0 <= i < |sons| && !(SkipsParams(g, kind, sons) && i == PARAMS_POS) :: HasField(g, sons[i], forAst, s)
    case _ => false
  }

  /** The tree defines the field, and reads back as it. */
  ghost predicate FieldDef(g: Graph, env: Env, s: SymId, t: Tree)
    requires GraphOk(g)
  {
    && s in g.syms && g.syms[s].cls.Field? && IsTree(t) && t.Branch? && t.tag.SymDefTag?
    && t.kids != [] && t.kids[0] == Atom(SymDef(g.syms[s].name)) && SymReads(g, env, g.syms[s], t)
  }

  ghost predicate FieldIn(g: Graph, env: Env, s: SymId, toks: seq<Tok>)
    requires GraphOk(g)
  {
    exists t: Tree, i: nat :: At(toks, i, Flat(t)) && FieldDef(g, env, s, t)
  }

  /** Each field that is new in `f1` has a definition in `toks`. */
  ghost predicate FieldsFound(g: Graph, env: Env, f0: set<SymId>, f1: set<SymId>, toks: seq<Tok>)
    requires GraphOk(g)
  {
    f0 <= f1 && forall s | s in f1 - f0 :: FieldIn(g, env, s, toks)
  }

  /** The tree defines all fields of the record list itself. */
  ghost predicate FieldsInside(g: Graph, env: Env, n: Node, t: Tree)
    requires GraphOk(g)
  {
    forall s | HasField(g, n, false, s) :: FieldIn(g, env, s, Flat(t))
  }

  lemma FieldStays(g: Graph, env: Env, s: SymId, a: seq<Tok>, b: seq<Tok>)
    requires GraphOk(g) && (FieldIn(g, env, s, a) || FieldIn(g, env, s, b))
    ensures FieldIn(g, env, s, a + b)
  {
    hide FieldDef, GraphOk, At;
    if FieldIn(g, env, s, a) {
      var t: Tree, i: nat :| At(a, i, Flat(t)) && FieldDef(g, env, s, t);
      AtLeft(a, b, i, Flat(t));
    } else {
      var t: Tree, i: nat :| At(b, i, Flat(t)) && FieldDef(g, env, s, t);
      AtRight(a, b, i, Flat(t));
    }
  }

  lemma FieldsCompose(g: Graph, env: Env, f0: set<SymId>, f1: set<SymId>, f2: set<SymId>, a: seq<Tok>, b: seq<Tok>)
    requires GraphOk(g) && FieldsFound(g, env, f0, f1, a) && FieldsFound(g, env, f1, f2, b)
    ensures FieldsFound(g, env, f0, f2, a + b)
  {
    hide FieldIn, GraphOk;
    forall s | s in f2 - f0 ensures FieldIn(g, env, s, a + b) {
      FieldStays(g, env, s, a, b);
    }
  }

  /** Brackets and a name in front change nothing. */
  lemma FieldsBetween(g: Graph, env: Env, f0: set<SymId>, f1: set<SymId>, a: seq<Tok>, toks: seq<Tok>, b: seq<Tok>)
    requires GraphOk(g) && FieldsFound(g, env, f0, f1, toks)
    ensures FieldsFound(g, env, f0, f1, a + toks + b)
  {
    hide FieldIn, GraphOk;
    FieldsCompose(g, env, f0, f0, f1, a, toks);
    FieldsCompose(g, env, f0, f1, f1, a + toks, b);
  }

  /** A field that a child defines, the branch defines. */
  lemma FieldInKid(g: Graph, env: Env, s: SymId, tag: Tag, kids: seq<Tree>, k: nat)
    requires GraphOk(g) && k < |kids| && FieldIn(g, env, s, Flat(kids[k]))
    ensures FieldIn(g, env, s, Flat(Branch(tag, kids)))
  {
    hide FieldIn, GraphOk;
    FlatAllSplit(kids, k);
    FieldStays(g, env, s, Flat(kids[k]), FlatAll(kids[k + 1..]));
    FieldStays(g, env, s, FlatAll(kids[..k]), Flat(kids[k]) + FlatAll(kids[k + 1..]));
    FieldStays(g, env, s, [ParLe(tag)], FlatAll(kids));
    FieldStays(g, env, s, [ParLe(tag)] + FlatAll(kids), [ParRi]);
  }

  // ---------- definitions ----------

  /** The tree defines the entity, and reads back as it; a type's tree defines the fields of
      its record list itself. */
  ghost predicate Represents(g: Graph, env: Env, k: Key, t: Tree)
    requires GraphOk(g) && Tracked(g, k)
  {
    IsTree(t) && t.Branch? && t.kids != [] && t.kids[0] == Atom(SymDef(KeyName(g, k))) &&
    match k
    case SymKey(s) => t.tag.SymDefTag? && SymReads(g, env, g.syms[s], t)
    case TypeKey(y) => t.tag.TypeDefTag? && TypeReads(g, env, g.types[y], t) && FieldsInside(g, env, g.types[y].n, t)
  }

  ghost predicate DefinedIn(g: Graph, env: Env, k: Key, toks: seq<Tok>)
    requires GraphOk(g) && Tracked(g, k)
  {
    exists t: Tree, i: nat :: At(toks, i, Flat(t)) && Represents(g, env, k, t)
  }

  /** Each tracked entity that is new in `w1` has exactly one definition in `toks`, and no
      other tracked entity has one. */
  ghost predicate Counted(g: Graph, w0: set<Key>, w1: set<Key>, toks: seq<Tok>)
  {
    forall k | Tracked(g, k) :: multiset(toks)[SymDef(KeyName(g, k))] == if k in w1 && k !in w0 then 1 else 0
  }

  /** Every tracked entity that `toks` refers to is written. */
  ghost predicate Closed(g: Graph, w: set<Key>, toks: seq<Tok>)
  {
    forall k | Tracked(g, k) :: Sym(KeyName(g, k)) in toks ==> k in w
  }

  /** Each tracked entity that is new in `w1` has a definition in `toks` that reads back as
      the entity. */
  ghost predicate Found(g: Graph, env: Env, w0: set<Key>, w1: set<Key>, toks: seq<Tok>)
    requires GraphOk(g)
  {
    forall k | Tracked(g, k) && k in w1 && k !in w0 :: DefinedIn(g, env, k, toks)
  }

  /** Writing `toks` has brought the written keys from `w0` to `w1`. */
  ghost predicate Delta(g: Graph, env: Env, w0: set<Key>, w1: set<Key>, toks: seq<Tok>)
    requires GraphOk(g)
  {
    w0 <= w1 && Counted(g, w0, w1, toks) && Closed(g, w1, toks) && Found(g, env, w0, w1, toks)
  }

  lemma AtLeft<T>(a: seq<T>, b: seq<T>, i: nat, part: seq<T>)
    requires At(a, i, part)
    ensures At(a + b, i, part)
  {
    assert (a + b)[i..i + |part|] == a[i..i + |part|];
  }

  lemma AtRight<T>(a: seq<T>, b: seq<T>, i: nat, part: seq<T>)
    requires At(b, i, part)
    ensures At(a + b, |a| + i, part)
  {
    assert (a + b)[|a| + i..|a| + i + |part|] == b[i..i + |part|];
  }

  lemma DefinedStays(g: Graph, env: Env, k: Key, a: seq<Tok>, b: seq<Tok>)
    requires GraphOk(g) && Tracked(g, k) && (DefinedIn(g, env, k, a) || DefinedIn(g, env, k, b))
    ensures DefinedIn(g, env, k, a + b)
  {
    hide Represents, GraphOk, At, Tracked;
    if DefinedIn(g, env, k, a) {
      var t: Tree, i: nat :| At(a, i, Flat(t)) && Represents(g, env, k, t);
      AtLeft(a, b, i, Flat(t));
    } else {
      var t: Tree, i: nat :| At(b, i, Flat(t)) && Represents(g, env, k, t);
      AtRight(a, b, i, Flat(t));
    }
  }

  lemma DeltaCompose(g: Graph, env: Env, w0: set<Key>, w1: set<Key>, w2: set<Key>, a: seq<Tok>, b: seq<Tok>)
    requires GraphOk(g) && Delta(g, env, w0, w1, a) && Delta(g, env, w1, w2, b)
    ensures Delta(g, env, w0, w2, a + b)
  {
    hide GraphOk, DefinedIn, KeyName;
    assert multiset(a + b) == multiset(a) + multiset(b);
    assert Counted(g, w0, w2, a + b);
    assert Closed(g, w2, a + b);
    forall k | Tracked(g, k) && k in w2 && k !in w0 ensures DefinedIn(g, env, k, a + b) {
      DefinedStays(g, env, k, a, b);
    }
  }

  /** Tokens that name nothing change nothing. */
  lemma DeltaPlain(g: Graph, env: Env, w: set<Key>, toks: seq<Tok>)
    requires GraphOk(g) && forall t | t in toks :: !t.Sym? && !t.SymDef?
    ensures Delta(g, env, w, w, toks)
  {
    forall k | Tracked(g, k) ensures multiset(toks)[SymDef(KeyName(g, k))] == 0 {
      assert SymDef(KeyName(g, k)) !in toks;
    }
  }

  /** A reference is fine if what it names is written or is not this module's to define. */
  lemma DeltaUse(g: Graph, env: Env, w: set<Key>, name: string)
    requires GraphOk(g) && forall k | Tracked(g, k) :: KeyName(g, k) == name ==> k in w
    ensures Delta(g, env, w, w, [Sym(name)])
  {
  }

  /** The name of an entity that is not tracked defines nothing that counts. */
  lemma DeltaUntrackedDef(g: Graph, env: Env, w: set<Key>, name: string)
    requires GraphOk(g) && forall k | Tracked(g, k) :: KeyName(g, k) != name
    ensures Delta(g, env, w, w, [SymDef(name)])
  {
  }

  /** Brackets around what was written change nothing. */
  lemma DeltaBranch(g: Graph, env: Env, w0: set<Key>, w1: set<Key>, tag: Tag, kids: seq<Tree>)
    requires GraphOk(g) && Delta(g, env, w0, w1, FlatAll(kids))
    ensures Delta(g, env, w0, w1, Flat(Branch(tag, kids)))
  {
    DeltaPlain(g, env, w0, [ParLe(tag)]);
    DeltaPlain(g, env, w1, [ParRi]);
    DeltaCompose(g, env, w0, w0, w1, [ParLe(tag)], FlatAll(kids));
    DeltaCompose(g, env, w0, w1, w1, [ParLe(tag)] + FlatAll(kids), [ParRi]);
  }

  lemma DefTokens(t: Tree, head: Tok)
    requires t.Branch? && t.kids != [] && t.kids[0] == Atom(head)
    ensures Flat(t) == ([ParLe(t.tag), head] + FlatAll(t.kids[1..])) + [ParRi]
  {
    assert Flat(t.kids[0]) == [head];
    assert FlatAll(t.kids) == [head] + FlatAll(t.kids[1..]);
    assert [ParLe(t.tag)] + ([head] + FlatAll(t.kids[1..])) == [ParLe(t.tag), head] + FlatAll(t.kids[1..]);
  }

  lemma DefineCounts(g: Graph, w0: set<Key>, w1: set<Key>, w2: set<Key>, k: Key, pre: seq<Tok>, tag: Tag, rest: seq<Tok>)
    requires NamesDistinct(g) && Tracked(g, k) && k !in w0 && w0 + {k} <= w1 <= w2
    requires Counted(g, w0 + {k}, w1, pre) && Counted(g, w1, w2, rest)
    ensures Counted(g, w0, w2, pre + ([ParLe(tag), SymDef(KeyName(g, k))] + rest + [ParRi]))
  {
    var open := [ParLe(tag), SymDef(KeyName(g, k))];
    var all := pre + (open + rest + [ParRi]);
    assert multiset(all) == multiset(pre) + multiset(open) + multiset(rest) + multiset([ParRi]);
    forall j | Tracked(g, j) ensures multiset(all)[SymDef(KeyName(g, j))] == if j in w2 && j !in w0 then 1 else 0 {
      DistinctKeys(g, j, k);
      assert multiset(open)[SymDef(KeyName(g, j))] == if j == k then 1 else 0;
    }
  }

  lemma DefineFinds(g: Graph, env: Env, w0: set<Key>, w1: set<Key>, w2: set<Key>, k: Key, pre: seq<Tok>, t: Tree,
                    open: seq<Tok>, rest: seq<Tok>)
    requires GraphOk(g) && Tracked(g, k) && Represents(g, env, k, t)
    requires Found(g, env, w0 + {k}, w1, pre) && Found(g, env, w1, w2, rest) && Flat(t) == open + rest + [ParRi]
    ensures Found(g, env, w0, w2, pre + Flat(t))
  {
    hide Represents, GraphOk, Flat, Tracked;
    forall j | Tracked(g, j) && j in w2 && j !in w0 ensures DefinedIn(g, env, j, pre + Flat(t)) {
      if j == k {
        assert Flat(t)[0..|Flat(t)|] == Flat(t);
        assert At(Flat(t), 0, Flat(t));
        assert DefinedIn(g, env, j, Flat(t));
      } else if j !in w1 {
        hide DefinedIn;
        DefinedStays(g, env, j, open, rest);
        DefinedStays(g, env, j, open + rest, [ParRi]);
      }
      hide DefinedIn;
      DefinedStays(g, env, j, pre, Flat(t));
    }
  }

  lemma DefineCloses(g: Graph, w1: set<Key>, w2: set<Key>, pre: seq<Tok>, open: seq<Tok>, rest: seq<Tok>)
    requires w1 <= w2 && Closed(g, w1, pre) && Closed(g, w2, rest) && forall t | t in open :: !t.Sym?
    ensures Closed(g, w2, pre + (open + rest + [ParRi]))
  {
  }

  /** The definition of a tracked entity `k`, marked as written before its parts are, and
      before the tokens `pre` in front of it. */
  lemma DeltaDefine(g: Graph, env: Env, w0: set<Key>, w1: set<Key>, w2: set<Key>, k: Key, pre: seq<Tok>, t: Tree)
    requires GraphOk(g) && NamesDistinct(g) && Tracked(g, k) && k !in w0 && Represents(g, env, k, t)
    requires Delta(g, env, w0 + {k}, w1, pre)
    requires t.Branch? && t.kids != [] && Delta(g, env, w1, w2, FlatAll(t.kids[1..]))
    ensures Delta(g, env, w0, w2, pre + Flat(t))
  {
    HeadOf(g, env, k, t);
    var open, rest := [ParLe(t.tag), SymDef(KeyName(g, k))], FlatAll(t.kids[1..]);
    DefTokens(t, SymDef(KeyName(g, k)));
    hide Represents, GraphOk, NamesDistinct, FlatAll, Flat, KeyName, Counted, Closed, Found, Tracked;
    DefineCounts(g, w0, w1, w2, k, pre, t.tag, rest);
    DefineCloses(g, w1, w2, pre, open, rest);
    DefineFinds(g, env, w0, w1, w2, k, pre, t, open, rest);
  }

  lemma HeadOf(g: Graph, env: Env, k: Key, t: Tree)
    requires GraphOk(g) && Tracked(g, k) && Represents(g, env, k, t)
    ensures t.Branch? && t.kids != [] && t.kids[0] == Atom(SymDef(KeyName(g, k)))
  {
  }

  lemma DistinctKeys(g: Graph, j: Key, k: Key)
    requires NamesDistinct(g) && Tracked(g, j) && Tracked(g, k)
    ensures KeyName(g, j) == KeyName(g, k) <==> j == k
  {
  }

  /** One more tree in a row of trees. */
  lemma DeltaPush(g: Graph, env: Env, w0: set<Key>, w1: set<Key>, w2: set<Key>, ts: seq<Tree>, more: seq<Tree>)
    requires GraphOk(g) && Delta(g, env, w0, w1, FlatAll(ts)) && Delta(g, env, w1, w2, FlatAll(more))
    ensures Delta(g, env, w0, w2, FlatAll(ts + more))
  {
    FlatAllAppend(ts, more);
    DeltaCompose(g, env, w0, w1, w2, FlatAll(ts), FlatAll(more));
  }
}
