/** What a run of the writer has written, piece by piece. */
module NifRows {
  import opened NifTokens
  import opened NifGraph
  import opened NifLoader
  import opened NifDefinitions
  import opened NifInventory
  import opened Options
  import opened SetSizes

  /** The trees `ts` were written: they have been appended to `d0`, and their tokens take
      the written keys from `w0` to `w1`, types in order. */
  ghost predicate Row(g: Graph, env: Env, d0: seq<Tok>, w0: set<Key>, d1: seq<Tok>, w1: set<Key>, ts: seq<Tree>)
    requires GraphOk(g)
  {
    d1 == d0 + FlatAll(ts) && AreTrees(ts) && Delta(g, env, w0, w1, FlatAll(ts)) && Inventory(g, w0, w1, ts)
  }

  lemma RowEmpty(g: Graph, env: Env, d: seq<Tok>, w: set<Key>)
    requires GraphOk(g)
    ensures Row(g, env, d, w, d, w, [])
  {
    hide GraphOk, Delta, Inventory;
    DeltaPlain(g, env, w, []);
    InventoryNone(g, w, []);
    assert d + [] == d;
  }

  lemma RowPush(g: Graph, env: Env, d0: seq<Tok>, w0: set<Key>, d1: seq<Tok>, w1: set<Key>, d2: seq<Tok>, w2: set<Key>,
                ts: seq<Tree>, more: seq<Tree>)
    requires GraphOk(g) && Row(g, env, d0, w0, d1, w1, ts) && Row(g, env, d1, w1, d2, w2, more)
    ensures Row(g, env, d0, w0, d2, w2, ts + more)
  {
    hide GraphOk, Counted, Closed, Found, FlatAll, AreTrees, Inventory;
    DeltaPush(g, env, w0, w1, w2, ts, more);
    InventoryAppend(g, w0, w1, w2, ts, more);
    FlatAllAppend(ts, more);
    AreTreesAppend(ts, more);
    Regroup(d0, FlatAll(ts), FlatAll(more));
  }

  lemma OneTree(t: Tree)
    ensures FlatAll([t]) == Flat(t) && (IsTree(t) ==> AreTrees([t]))
  {
    assert FlatAll([t]) == Flat(t) + FlatAll([]);
  }

  /** A row of trees between brackets is one tree. */
  lemma RowBranch(g: Graph, env: Env, d: seq<Tok>, w0: set<Key>, d1: seq<Tok>, w1: set<Key>, tag: Tag, kids: seq<Tree>)
    requires GraphOk(g) && Row(g, env, d + [ParLe(tag)], w0, d1, w1, kids) && !tag.TypeDefTag? && !tag.SymDefTag? && !IsMark(tag)
    ensures Row(g, env, d, w0, d1 + [ParRi], w1, [Branch(tag, kids)])
  {
    hide GraphOk, Delta, Inventory;
    DeltaBranch(g, env, w0, w1, tag, kids);
    InventoryBranch(g, w0, w1, tag, kids);
    OneTree(Branch(tag, kids));
    hide FlatAll, AreTrees;
    assert d1 + [ParRi] == d + ([ParLe(tag)] + FlatAll(kids) + [ParRi]);
  }

  lemma RowAtom(g: Graph, env: Env, d: seq<Tok>, w: set<Key>, tok: Tok)
    requires GraphOk(g) && !tok.ParLe? && !tok.ParRi? && !tok.Sym? && !tok.SymDef?
    ensures Row(g, env, d, w, d + [tok], w, [Atom(tok)])
  {
    hide GraphOk, Delta, Inventory;
    DeltaPlain(g, env, w, [tok]);
    AtomsDefineNothing([Atom(tok)]);
    InventoryNone(g, w, [Atom(tok)]);
    OneTree(Atom(tok));
  }

  lemma RowUse(g: Graph, env: Env, d: seq<Tok>, w: set<Key>, name: string)
    requires GraphOk(g) && forall k | Tracked(g, k) :: KeyName(g, k) == name ==> k in w
    ensures Row(g, env, d, w, d + [Sym(name)], w, [Atom(Sym(name))])
  {
    hide GraphOk, Delta, Inventory;
    DeltaUse(g, env, w, name);
    AtomsDefineNothing([Atom(Sym(name))]);
    InventoryNone(g, w, [Atom(Sym(name))]);
    OneTree(Atom(Sym(name)));
  }

  // ---------- the tokens of plain parts ----------

  function FlagTok(text: string): Tok
  {
    if text == "" then Dot else Ident(text)
  }

  lemma {:induction false} AtomsFlat(toks: seq<Tok>)
    requires PlainAtoms(toks)
    ensures FlatAll(Atoms(toks)) == toks && AreTrees(Atoms(toks)) && LoadAtoms(Atoms(toks)) == Some(toks)
    decreases |toks|
  {
    if toks != [] {
      assert forall t | t in toks[1..] :: t in toks;
      AtomsFlat(toks[1..]);
      assert Atoms(toks)[1..] == Atoms(toks[1..]) && Atoms(toks)[0] == Atom(toks[0]);
      assert toks == [toks[0]] + toks[1..];
    }
  }

  // ---------- the state of the writer ----------

  /** The output so far, the keys written so far, the fields that the current record list
      has defined, and how many record lists are open. */
  datatype State = State(dest: seq<Tok>, written: set<Key>, fieldSyms: set<SymId>, depth: nat)

  ghost predicate Sound(g: Graph, env: Env)
  {
    GraphOk(g) && NamesDistinct(g) && EnvOk(g, env)
  }

  /** How many entities are still to be written. */
  ghost function Left(g: Graph, written: set<Key>): nat
  {
    |AllKeys(g) - written|
  }

  /** How many fields the current record list has not defined. */
  ghost function FieldsLeft(g: Graph, fieldSyms: set<SymId>): nat
  {
    |g.syms.Keys - fieldSyms|
  }

  /** Nothing that bounds the run grows, and nothing written is forgotten. */
  ghost predicate Shrinks(g: Graph, s0: State, s1: State)
  {
    s1.depth == s0.depth && s0.written <= s1.written && s0.fieldSyms <= s1.fieldSyms && Left(g, s1.written) <= Left(g, s0.written)
    && FieldsLeft(g, s1.fieldSyms) <= FieldsLeft(g, s0.fieldSyms)
  }

  /** The run from `s0` to `s1` has written the trees `ts`. */
  ghost predicate Wrote(g: Graph, env: Env, s0: State, s1: State, ts: seq<Tree>)
    requires GraphOk(g)
  {
    && Row(g, env, s0.dest, s0.written, s1.dest, s1.written, ts)
    && FieldsFound(g, env, s0.fieldSyms, s1.fieldSyms, FlatAll(ts))
  }

  /** The run from `s0` to `s1` has written a definition whose name counts as written. */
  ghost predicate WroteDef(g: Graph, env: Env, s0: State, s1: State, name: string, t: Tree)
    requires GraphOk(g)
  {
    && DefRow(g, env, s0.dest, s0.written, s1.dest, s1.written, name, t)
    && FieldsFound(g, env, s0.fieldSyms, s1.fieldSyms, FlatAll(t.kids[1..]))
  }

  lemma WroteMore(g: Graph, env: Env, s0: State, s1: State, s2: State, ts: seq<Tree>, more: seq<Tree>)
    requires GraphOk(g) && Wrote(g, env, s0, s1, ts) && Wrote(g, env, s1, s2, more)
    ensures Wrote(g, env, s0, s2, ts + more)
  {
    hide GraphOk, Row, FieldsFound, FlatAll;
    RowPush(g, env, s0.dest, s0.written, s1.dest, s1.written, s2.dest, s2.written, ts, more);
    FlatAllAppend(ts, more);
    FieldsCompose(g, env, s0.fieldSyms, s1.fieldSyms, s2.fieldSyms, FlatAll(ts), FlatAll(more));
  }

  lemma WroteNothing(g: Graph, env: Env, s: State)
    requires GraphOk(g)
    ensures Wrote(g, env, s, s, [])
  {
    hide GraphOk, Row, FieldIn;
    RowEmpty(g, env, s.dest, s.written);
  }

  /** What was written defines no field for the record list around it. */
  lemma WroteElsewhere(g: Graph, env: Env, s0: State, s1: State, s2: State, s3: State, ts: seq<Tree>)
    requires GraphOk(g) && Wrote(g, env, s1, s2, ts) && s3.fieldSyms == s0.fieldSyms
    requires s0.dest == s1.dest && s0.written == s1.written && s2.dest == s3.dest && s2.written == s3.written
    ensures Wrote(g, env, s0, s3, ts)
  {
    hide GraphOk, Row, FieldIn;
  }

  lemma WroteBranch(g: Graph, env: Env, s0: State, s1: State, s2: State, s3: State, tag: Tag, kids: seq<Tree>)
    requires GraphOk(g) && s1.dest == s0.dest + [ParLe(tag)] && s1.written == s0.written && s1.fieldSyms == s0.fieldSyms
    requires Wrote(g, env, s1, s2, kids) && s3.dest == s2.dest + [ParRi] && s3.written == s2.written && s3.fieldSyms == s2.fieldSyms
    requires !tag.TypeDefTag? && !tag.SymDefTag? && !IsMark(tag)
    ensures Wrote(g, env, s0, s3, [Branch(tag, kids)])
  {
    OneTree(Branch(tag, kids));
    hide GraphOk, Row, FieldsFound, FlatAll;
    RowBranch(g, env, s0.dest, s0.written, s2.dest, s2.written, tag, kids);
    FieldsBetween(g, env, s0.fieldSyms, s3.fieldSyms, [ParLe(tag)], FlatAll(kids), [ParRi]);
  }

  lemma WroteBranchDef(g: Graph, env: Env, s0: State, s1: State, s2: State, s3: State, tag: Tag, name: string, kids: seq<Tree>)
    requires GraphOk(g) && s1.dest == s0.dest + [ParLe(tag)] + [SymDef(name)] && s1.written == s0.written && s1.fieldSyms == s0.fieldSyms
    requires Wrote(g, env, s1, s2, kids) && s3.dest == s2.dest + [ParRi] && s3.written == s2.written && s3.fieldSyms == s2.fieldSyms
    ensures WroteDef(g, env, s0, s3, name, Branch(tag, [Atom(SymDef(name))] + kids))
  {
    hide GraphOk, Row, DefRow, FieldsFound;
    assert s0.dest + [ParLe(tag)] + [SymDef(name)] == s0.dest + [ParLe(tag), SymDef(name)];
    DefRowOfKids(g, env, s0.dest, s0.written, s2.dest, s2.written, tag, name, kids);
    assert ([Atom(SymDef(name))] + kids)[1..] == kids;
  }

  /** The fields that a definition and what stands in front of it define: those of the two,
      and the defined symbol if that is a field. */
  lemma DefFields(g: Graph, env: Env, own: set<SymId>, f0: set<SymId>, f1: set<SymId>, f2: set<SymId>, pre: seq<Tree>, name: string, t: Tree)
    requires GraphOk(g) && FieldsFound(g, env, f0 + own, f1, FlatAll(pre)) && (forall s | s in own :: FieldDef(g, env, s, t))
    requires t.Branch? && t.kids != [] && t.kids[0] == Atom(SymDef(name)) && FieldsFound(g, env, f1, f2, FlatAll(t.kids[1..]))
    ensures FieldsFound(g, env, f0, f2, FlatAll(pre + [t]))
  {
    hide GraphOk, Flat, FlatAll, FieldDef, FieldIn;
    var rest := FlatAll(t.kids[1..]);
    DefTokens(t, SymDef(name));
    OneTree(t);
    FlatAllAppend(pre, [t]);
    FieldsBetween(g, env, f1, f2, [ParLe(t.tag), SymDef(name)], rest, [ParRi]);
    FieldsCompose(g, env, f0 + own, f1, f2, FlatAll(pre), Flat(t));
    forall s | s in f2 - f0 ensures FieldIn(g, env, s, FlatAll(pre) + Flat(t)) {
      if s in own {
        FieldItself(g, env, s, t);
        FieldStays(g, env, s, FlatAll(pre), Flat(t));
      }
    }
  }

  lemma FieldItself(g: Graph, env: Env, s: SymId, t: Tree)
    requires GraphOk(g) && FieldDef(g, env, s, t)
    ensures FieldIn(g, env, s, Flat(t))
  {
    hide GraphOk, Flat, FieldDef;
    assert Flat(t)[0..|Flat(t)|] == Flat(t);
    assert At(Flat(t), 0, Flat(t));
  }

  /** In a record list, every field of the node counts as defined. */
  ghost predicate Covered(g: Graph, n: Node, forAst: bool, s1: State)
  {
    s1.depth > 0 ==> forall s | HasField(g, n, forAst, s) :: s in s1.fieldSyms
  }

  lemma InnerCovered(g: Graph, n: Node, forAst: bool, s1: State)
    requires n.InnerNode?
    requires forall i | 0 <= i < |n.sons| && !(SkipsParams(g, n.kind, n.sons) && i == PARAMS_POS) :: Covered(g, n.sons[i], forAst, s1)
    ensures Covered(g, n, forAst, s1)
  {
    hide SkipsParams;
  }

  /** What a record list, in a scope of its own, counts as defined is defined in it. */
  lemma RecordFields(g: Graph, env: Env, n: Node, s1: State, s2: State, t: Tree)
    requires GraphOk(g) && s1.fieldSyms == {} && s2.depth > 0 && Covered(g, n, false, s2) && Wrote(g, env, s1, s2, [t])
    ensures FieldsInside(g, env, n, t)
  {
    hide GraphOk, Row, FieldIn, HasField;
    OneTree(t);
  }

  lemma RecordInType(g: Graph, env: Env, n: Node, tag: Tag, kids: seq<Tree>, k: nat)
    requires GraphOk(g) && k < |kids| && FieldsInside(g, env, n, kids[k])
    ensures FieldsInside(g, env, n, Branch(tag, kids))
  {
    hide GraphOk, FieldIn, HasField, Flat;
    forall s | HasField(g, n, false, s) ensures FieldIn(g, env, s, Flat(Branch(tag, kids))) {
      FieldInKid(g, env, s, tag, kids, k);
    }
  }

  lemma LeftDrops(g: Graph, written: set<Key>, k: Key)
    requires k in AllKeys(g) && k !in written
    ensures Left(g, written + {k}) < Left(g, written)
  {
    hide AllKeys;
    var rest := AllKeys(g) - (written + {k});
    assert AllKeys(g) - written == rest + {k};
    assert |rest + {k}| == |rest| + 1;
  }

  lemma FieldsLeftDrops(g: Graph, fieldSyms: set<SymId>, s: SymId)
    requires s in g.syms && s !in fieldSyms
    ensures FieldsLeft(g, fieldSyms + {s}) < FieldsLeft(g, fieldSyms)
  {
    var rest := g.syms.Keys - (fieldSyms + {s});
    assert g.syms.Keys - fieldSyms == rest + {s};
    assert |rest + {s}| == |rest| + 1;
  }

  lemma FieldsLeftBound(g: Graph, fieldSyms: set<SymId>)
    ensures FieldsLeft(g, fieldSyms) <= |g.syms|
  {
    SubsetSize(g.syms.Keys - fieldSyms, g.syms.Keys);
  }

  // ---------- definitions ----------

  /** A definition was written whose name counts as written already. */
  ghost predicate DefRow(g: Graph, env: Env, d0: seq<Tok>, w0: set<Key>, d1: seq<Tok>, w1: set<Key>, name: string, t: Tree)
    requires GraphOk(g)
  {
    && t.Branch? && t.kids != [] && t.kids[0] == Atom(SymDef(name)) && IsTree(t)
    && d1 == d0 + Flat(t) && Delta(g, env, w0, w1, FlatAll(t.kids[1..])) && Inventory(g, w0, w1, t.kids[1..])
  }

  lemma DefRowOfKids(g: Graph, env: Env, d: seq<Tok>, w0: set<Key>, d1: seq<Tok>, w1: set<Key>, tag: Tag, name: string, kids: seq<Tree>)
    requires GraphOk(g) && Row(g, env, d + [ParLe(tag), SymDef(name)], w0, d1, w1, kids)
    ensures DefRow(g, env, d, w0, d1 + [ParRi], w1, name, Branch(tag, [Atom(SymDef(name))] + kids))
  {
    var t := Branch(tag, [Atom(SymDef(name))] + kids);
    DefTokens(t, SymDef(name));
    OneTree(Atom(SymDef(name)));
    AreTreesAppend([Atom(SymDef(name))], kids);
    assert t.kids[1..] == kids;
    hide GraphOk, Delta, FlatAll, AreTrees, Flat, Inventory;
    assert d1 + [ParRi] == d + (([ParLe(tag), SymDef(name)] + FlatAll(kids)) + [ParRi]);
  }

  /** Remembering keys that are not this module's changes nothing. */
  lemma Remembers(g: Graph, env: Env, w0: set<Key>, w: set<Key>, w1: set<Key>, toks: seq<Tok>)
    requires GraphOk(g) && w0 <= w && (forall k | k in w - w0 :: !Tracked(g, k)) && Delta(g, env, w, w1, toks)
    ensures Delta(g, env, w0, w1, toks)
  {
    hide GraphOk, Tracked, KeyName, DefinedIn;
  }

  /** No entity of this module has the name. */
  ghost predicate Foreign(g: Graph, name: string)
  {
    forall k | Tracked(g, k) :: KeyName(g, k) != name
  }

  /** Every entity of this module with the name is written. */
  ghost predicate Settled(g: Graph, w: set<Key>, name: string)
  {
    forall k | Tracked(g, k) :: KeyName(g, k) == name ==> k in w
  }

  lemma SettledStays(g: Graph, env: Env, s0: State, s1: State, ts: seq<Tree>, name: string)
    requires GraphOk(g) && Settled(g, s0.written, name) && Wrote(g, env, s0, s1, ts)
    ensures Settled(g, s1.written, name)
  {
    hide GraphOk, KeyName, Tracked;
  }

  /** The trees `pre` and then the definition of a symbol of this module, which was marked in
      front of them. */
  lemma TrackedDef(g: Graph, env: Env, s: SymId, w0: set<Key>, d: seq<Tok>, d1: seq<Tok>, w1: set<Key>, pre: seq<Tree>,
                   d2: seq<Tok>, w2: set<Key>, t: Tree)
    requires GraphOk(g) && NamesDistinct(g) && Tracked(g, SymKey(s)) && SymKey(s) !in w0
    requires Row(g, env, d, w0 + {SymKey(s)}, d1, w1, pre) && SdWhole(g, t)
    requires DefRow(g, env, d1, w1, d2, w2, KeyName(g, SymKey(s)), t) && Represents(g, env, SymKey(s), t)
    ensures Row(g, env, d, w0, d2, w2, pre + [t])
  {
    hide GraphOk, NamesDistinct, Tracked, KeyName, Counted, Closed, Found, Represents, IsTree, SdWhole, Inventory;
    DeltaDefine(g, env, w0, w1, w2, SymKey(s), FlatAll(pre), t);
    InventorySym(g, s, w0, w1, w2, pre, t);
    Joined(d, d1, d2, pre, t);
  }

  /** The definition of a type of this module, which was marked in front of it. */
  lemma TrackedType(g: Graph, env: Env, y: TypeId, w0: set<Key>, d: seq<Tok>, d2: seq<Tok>, w2: set<Key>, t: Tree)
    requires GraphOk(g) && NamesDistinct(g) && Tracked(g, TypeKey(y)) && TypeKey(y) !in w0 && t.Branch? && t.tag.TypeDefTag?
    requires DefRow(g, env, d, w0 + {TypeKey(y)}, d2, w2, KeyName(g, TypeKey(y)), t) && Represents(g, env, TypeKey(y), t)
    ensures Row(g, env, d, w0, d2, w2, [t])
  {
    hide GraphOk, NamesDistinct, Tracked, KeyName, Delta, Represents, IsTree, Inventory, FlatAll;
    DeltaPlain(g, env, w0 + {TypeKey(y)}, []);
    DeltaDefine(g, env, w0, w0 + {TypeKey(y)}, w2, TypeKey(y), [], t);
    InventoryType(g, env, y, w0, w2, t);
    OneTree(t);
    assert [] + Flat(t) == Flat(t);
  }

  lemma Joined(d: seq<Tok>, d1: seq<Tok>, d2: seq<Tok>, pre: seq<Tree>, t: Tree)
    requires d1 == d + FlatAll(pre) && d2 == d1 + Flat(t) && AreTrees(pre) && IsTree(t)
    ensures d2 == d + FlatAll(pre + [t]) && AreTrees(pre + [t]) && FlatAll(pre + [t]) == FlatAll(pre) + Flat(t)
  {
    OneTree(t);
    hide FlatAll, Flat, AreTrees, IsTree;
    FlatAllAppend(pre, [t]);
    AreTreesAppend(pre, [t]);
    Regroup(d, FlatAll(pre), Flat(t));
  }

  /** The same for an entity that other modules define too: a field or a package. */
  lemma UntrackedDef(g: Graph, env: Env, w0: set<Key>, w: set<Key>, d: seq<Tok>, d1: seq<Tok>, w1: set<Key>, pre: seq<Tree>,
                     d2: seq<Tok>, w2: set<Key>, name: string, t: Tree)
    requires GraphOk(g) && w0 <= w && (forall k | k in w - w0 :: !Tracked(g, k)) && Foreign(g, name) && SdWhole(g, t)
    requires Row(g, env, d, w, d1, w1, pre) && DefRow(g, env, d1, w1, d2, w2, name, t)
    ensures Row(g, env, d, w0, d2, w2, pre + [t])
  {
    hide GraphOk, Tracked, KeyName, Counted, Closed, Found, IsTree, SdWhole, Inventory;
    ForeignDelta(g, env, w0, w, d, d1, w1, pre, d2, w2, name, t);
    InventoryForeign(g, w0, w, w1, w2, pre, t);
    Joined(d, d1, d2, pre, t);
  }

  lemma ForeignDelta(g: Graph, env: Env, w0: set<Key>, w: set<Key>, d: seq<Tok>, d1: seq<Tok>, w1: set<Key>, pre: seq<Tree>,
                     d2: seq<Tok>, w2: set<Key>, name: string, t: Tree)
    requires GraphOk(g) && w0 <= w && (forall k | k in w - w0 :: !Tracked(g, k)) && Foreign(g, name)
    requires Row(g, env, d, w, d1, w1, pre) && DefRow(g, env, d1, w1, d2, w2, name, t)
    ensures Delta(g, env, w0, w2, FlatAll(pre + [t]))
  {
    var rest := FlatAll(t.kids[1..]);
    DefTokens(t, SymDef(name));
    assert w1 <= w2;
    Joined(d, d1, d2, pre, t);
    Remembers(g, env, w0, w, w1, FlatAll(pre));
    hide GraphOk, Tracked, KeyName, Delta, Flat, FlatAll, AreTrees, IsTree;
    DeltaPlain(g, env, w1, [ParLe(t.tag)]);
    DeltaUntrackedDef(g, env, w1, name);
    DeltaCompose(g, env, w1, w1, w1, [ParLe(t.tag)], [SymDef(name)]);
    DeltaCompose(g, env, w1, w1, w2, [ParLe(t.tag)] + [SymDef(name)], rest);
    DeltaPlain(g, env, w2, [ParRi]);
    assert [ParLe(t.tag)] + [SymDef(name)] == [ParLe(t.tag), SymDef(name)];
    DeltaCompose(g, env, w1, w2, w2, [ParLe(t.tag), SymDef(name)] + rest, [ParRi]);
    DeltaCompose(g, env, w0, w1, w2, FlatAll(pre), Flat(t));
  }
}
