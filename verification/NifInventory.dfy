/** The definitions inside written trees: the types in the order in which the writer marks
    them, each of which refers to none that is marked later, and the symbols with their
    types. */
module NifInventory {
  import opened NifTokens
  import opened NifGraph
  import opened NifLoader
  import opened NifDefinitions
  import opened Options

  /** The name that a definition's tree defines. */
  function DefName(t: Tree): Option<string>
  {
    if t.Branch? && t.kids != [] && t.kids[0].Atom? && t.kids[0].tok.SymDef? then Some(t.kids[0].tok.name) else None
  }

  // ---------- types ----------

  /** The tree defines a type that is new in `w1`. */
  predicate DefinesType(g: Graph, w0: set<Key>, w1: set<Key>, t: Tree, y: TypeId)
  {
    Tracked(g, TypeKey(y)) && TypeKey(y) in w1 && TypeKey(y) !in w0 && t.Branch? && t.tag.TypeDefTag?
    && DefName(t) == Some(KeyName(g, TypeKey(y)))
  }

  /** Every type that the tree refers to is written before, defined in the tree, or among
      the types that were marked before. */
  ghost predicate RefersBack(g: Graph, w0: set<Key>, t: Tree, before: seq<TypeId>)
  {
    forall z | Tracked(g, TypeKey(z)) && Sym(KeyName(g, TypeKey(z))) in Flat(t) ::
      TypeKey(z) in w0 || SymDef(KeyName(g, TypeKey(z))) in Flat(t) || z in before
  }

  /** The trees define the types of the list in its order, which are those that are new in
      `w1`, and refer back only. */
  ghost predicate Ordered(g: Graph, w0: set<Key>, w1: set<Key>, tds: seq<Tree>, order: seq<TypeId>)
  {
    && |order| == |tds|
    && (forall i | 0 <= i < |tds| :: DefinesType(g, w0, w1, tds[i], order[i]))
    && (forall i, j | 0 <= i < j < |order| :: order[i] != order[j])
    && (forall y | Tracked(g, TypeKey(y)) && TypeKey(y) in w1 && TypeKey(y) !in w0 :: y in order)
    && (forall i | 0 <= i < |tds| :: RefersBack(g, w0, tds[i], order[..i]))
  }

  ghost predicate InOrder(g: Graph, w0: set<Key>, w1: set<Key>, tds: seq<Tree>)
  {
    exists order :: Ordered(g, w0, w1, tds, order)
  }

  /** What refers back in the second part refers back in the whole. */
  lemma BackAppend(g: Graph, w0: set<Key>, w1: set<Key>, t: Tree, ao: seq<TypeId>, before: seq<TypeId>)
    requires RefersBack(g, w1, t, before)
    requires forall y | Tracked(g, TypeKey(y)) && TypeKey(y) in w1 && TypeKey(y) !in w0 :: y in ao
    ensures RefersBack(g, w0, t, ao + before)
  {
    hide Tracked, KeyName, Flat;
  }

  lemma OrderedAppend(g: Graph, w0: set<Key>, w1: set<Key>, w2: set<Key>, a: seq<Tree>, b: seq<Tree>,
                      ao: seq<TypeId>, bo: seq<TypeId>)
    requires w0 <= w1 <= w2 && Ordered(g, w0, w1, a, ao) && Ordered(g, w1, w2, b, bo)
    ensures Ordered(g, w0, w2, a + b, ao + bo)
  {
    hide Tracked, DefName, RefersBack, KeyName;
    var order, tds := ao + bo, a + b;
    forall i | 0 <= i < |tds| ensures DefinesType(g, w0, w2, tds[i], order[i]) && RefersBack(g, w0, tds[i], order[..i]) {
      if i < |a| {
        assert DefinesType(g, w0, w1, a[i], ao[i]) && order[..i] == ao[..i];
      } else {
        assert DefinesType(g, w1, w2, b[i - |a|], bo[i - |a|]) && order[..i] == ao + bo[..i - |a|];
        BackAppend(g, w0, w1, b[i - |a|], ao, bo[..i - |a|]);
      }
    }
    OrdersDiffer(g, w0, w1, w2, a, b, ao, bo);
  }

  lemma OrdersDiffer(g: Graph, w0: set<Key>, w1: set<Key>, w2: set<Key>, a: seq<Tree>, b: seq<Tree>,
                     ao: seq<TypeId>, bo: seq<TypeId>)
    requires Ordered(g, w0, w1, a, ao) && Ordered(g, w1, w2, b, bo)
    ensures forall i, j | 0 <= i < j < |ao + bo| :: (ao + bo)[i] != (ao + bo)[j]
  {
    hide Tracked, DefName, RefersBack, KeyName;
    forall i, j | 0 <= i < j < |ao + bo| ensures (ao + bo)[i] != (ao + bo)[j] {
      if i < |ao| <= j {
        assert DefinesType(g, w0, w1, a[i], ao[i]) && DefinesType(g, w1, w2, b[j - |ao|], bo[j - |ao|]);
      }
    }
  }

  lemma InOrderAppend(g: Graph, w0: set<Key>, w1: set<Key>, w2: set<Key>, a: seq<Tree>, b: seq<Tree>)
    requires w0 <= w1 <= w2 && InOrder(g, w0, w1, a) && InOrder(g, w1, w2, b)
    ensures InOrder(g, w0, w2, a + b)
  {
    hide Ordered;
    var ao :| Ordered(g, w0, w1, a, ao);
    var bo :| Ordered(g, w1, w2, b, bo);
    OrderedAppend(g, w0, w1, w2, a, b, ao, bo);
  }

  /** One more definition in front. */
  lemma OrderedFirst(g: Graph, y: TypeId, w0: set<Key>, w2: set<Key>, t: Tree, inner: seq<Tree>, order: seq<TypeId>)
    requires DefinesType(g, w0, w2, t, y) && RefersBack(g, w0, t, []) && Ordered(g, w0 + {TypeKey(y)}, w2, inner, order)
    ensures Ordered(g, w0, w2, [t] + inner, [y] + order)
  {
    hide Tracked, DefName, KeyName;
    var w1, all, tds := w0 + {TypeKey(y)}, [y] + order, [t] + inner;
    forall i | 0 <= i < |tds| ensures DefinesType(g, w0, w2, tds[i], all[i]) && RefersBack(g, w0, tds[i], all[..i]) {
      if i == 0 {
        assert all[..i] == [];
      } else {
        assert DefinesType(g, w1, w2, inner[i - 1], order[i - 1]) && RefersBack(g, w1, inner[i - 1], order[..i - 1]);
        assert all[..i] == [y] + order[..i - 1];
      }
    }
    forall i, j | 0 <= i < j < |all| ensures all[i] != all[j] {
      if i == 0 {
        assert DefinesType(g, w1, w2, inner[j - 1], order[j - 1]);
      }
    }
  }

  /** The definition of a type that was marked in front of it comes before what it defines
      inside. */
  lemma TypeInOrder(g: Graph, env: Env, y: TypeId, w0: set<Key>, w2: set<Key>, t: Tree)
    requires GraphOk(g) && NamesDistinct(g) && Tracked(g, TypeKey(y)) && TypeKey(y) !in w0
    requires t.Branch? && t.tag.TypeDefTag? && t.kids != [] && t.kids[0] == Atom(SymDef(KeyName(g, TypeKey(y))))
    requires Delta(g, env, w0 + {TypeKey(y)}, w2, FlatAll(t.kids[1..])) && InOrder(g, w0 + {TypeKey(y)}, w2, TdLists(t.kids[1..]))
    ensures InOrder(g, w0, w2, TdList(t))
  {
    hide GraphOk, NamesDistinct, Counted, Closed, Found, Flat, FlatAll, TdLists, TdList, Tracked, KeyName, Ordered, RefersBack;
    var order :| Ordered(g, w0 + {TypeKey(y)}, w2, TdLists(t.kids[1..]), order);
    InsideOf(g, env, y, w0, w2, t);
    ListsOfDef(t);
    OrderedFirst(g, y, w0, w2, t, TdLists(t.kids[1..]), order);
  }

  /** What the definition of a type refers to. */
  lemma InsideOf(g: Graph, env: Env, y: TypeId, w0: set<Key>, w2: set<Key>, t: Tree)
    requires GraphOk(g) && NamesDistinct(g) && Tracked(g, TypeKey(y))
    requires t.Branch? && t.kids != [] && t.kids[0] == Atom(SymDef(KeyName(g, TypeKey(y))))
    requires Delta(g, env, w0 + {TypeKey(y)}, w2, FlatAll(t.kids[1..]))
    ensures RefersBack(g, w0, t, [])
  {
    hide GraphOk, NamesDistinct, Found, FlatAll, Flat, Tracked;
    var rest := FlatAll(t.kids[1..]);
    DefTokens(t, SymDef(KeyName(g, TypeKey(y))));
    forall z | Tracked(g, TypeKey(z)) && Sym(KeyName(g, TypeKey(z))) in Flat(t)
      ensures TypeKey(z) in w0 || SymDef(KeyName(g, TypeKey(z))) in Flat(t)
    {
      assert Sym(KeyName(g, TypeKey(z))) in rest;
      if TypeKey(z) !in w0 + {TypeKey(y)} {
        assert multiset(rest)[SymDef(KeyName(g, TypeKey(z)))] == 1;
        assert SymDef(KeyName(g, TypeKey(z))) in rest;
      }
    }
  }

  lemma ListsOfDef(t: Tree)
    requires t.Branch? && t.kids != [] && t.kids[0].Atom?
    ensures TdList(t) == (if t.tag.TypeDefTag? then [t] else []) + TdLists(t.kids[1..])
    ensures SdList(t) == (if t.tag.SymDefTag? then [t] else []) + SdLists(t.kids[1..])
  {
    assert TdList(t.kids[0]) == [] && SdList(t.kids[0]) == [];
    assert TdLists(t.kids) == TdLists(t.kids[1..]) && SdLists(t.kids) == SdLists(t.kids[1..]);
  }

  // ---------- symbols ----------

  /** The tree defines a symbol, with all its parts, and with the type that a symbol of this
      module has. */
  ghost predicate SdWhole(g: Graph, t: Tree)
  {
    && t.Branch? && t.tag.SymDefTag? && |t.kids| == SD_COUNT && DefName(t).Some?
    && t.kids[SD_KIND].Branch? && t.kids[SD_KIND].tag.SymKindTag?
    && forall s | Tracked(g, SymKey(s)) && DefName(t) == Some(KeyName(g, SymKey(s))) ::
         TypOk(g, g.syms[s].typ) && LoadTypeRef(t.kids[SD_TYPE]) == Some(TypeRefOf(g, g.syms[s].typ))
  }

  /** The trees define symbols, among them all that are new in `w1`. */
  ghost predicate SymsListed(g: Graph, w0: set<Key>, w1: set<Key>, sds: seq<Tree>)
  {
    && (forall d | d in sds :: SdWhole(g, d))
    && (forall s | Tracked(g, SymKey(s)) && SymKey(s) in w1 && SymKey(s) !in w0 ::
          exists d :: d in sds && DefName(d) == Some(KeyName(g, SymKey(s))))
  }

  lemma SymsAppend(g: Graph, w0: set<Key>, w1: set<Key>, w2: set<Key>, a: seq<Tree>, b: seq<Tree>)
    requires SymsListed(g, w0, w1, a) && SymsListed(g, w1, w2, b)
    ensures SymsListed(g, w0, w2, a + b)
  {
    hide SdWhole, Tracked, DefName;
    forall s | Tracked(g, SymKey(s)) && SymKey(s) in w2 && SymKey(s) !in w0
      ensures exists d :: d in a + b && DefName(d) == Some(KeyName(g, SymKey(s)))
    {
      if SymKey(s) in w1 {
        var d :| d in a && DefName(d) == Some(KeyName(g, SymKey(s)));
        assert d in a + b;
      } else {
        var d :| d in b && DefName(d) == Some(KeyName(g, SymKey(s)));
        assert d in a + b;
      }
    }
  }

  // ---------- both ----------

  /** The tags that only the file's own sections have: replayed actions, registrations, the mark
      between header and implementation, and imports and exports. */
  predicate IsMark(tag: Tag)
  {
    match tag
    case Replay => true
    case Registration(_) => true
    case Implementation => true
    case KindTag(NkImportStmt) => true
    case KindTag(NkIncludeStmt) => true
    case KindTag(NkExportStmt) => true
    case KindTag(NkExportExceptStmt) => true
    case _ => false
  }

  predicate NoMark(t: Tree)
    decreases t, 0
  {
    t.Branch? ==> !IsMark(t.tag) && NoMarks(t.kids)
  }

  predicate NoMarks(ts: seq<Tree>)
    decreases ts, 1
  {
    ts == [] || (NoMark(ts[0]) && NoMarks(ts[1..]))
  }

  lemma {:induction false} NoMarksAppend(a: seq<Tree>, b: seq<Tree>)
    ensures NoMarks(a + b) <==> NoMarks(a) && NoMarks(b)
    decreases |a|
  {
    if a == [] {
      assert a + b == b;
    } else {
      NoMarksAppend(a[1..], b);
      assert (a + b)[1..] == a[1..] + b;
    }
  }

  lemma NoMarksOfOne(t: Tree)
    ensures NoMarks([t]) <==> NoMark(t)
  {
    assert [t][1..] == [];
  }

  /** The types and the symbols that are new in `w1` are defined in the trees, the types in
      order, and no tree has a tag of the file's own sections. */
  ghost predicate Inventory(g: Graph, w0: set<Key>, w1: set<Key>, ts: seq<Tree>)
  {
    InOrder(g, w0, w1, TdLists(ts)) && SymsListed(g, w0, w1, SdLists(ts)) && NoMarks(ts)
  }

  /** Trees without definitions. */
  lemma InventoryNone(g: Graph, w: set<Key>, ts: seq<Tree>)
    requires TdLists(ts) == SdLists(ts) == [] && NoMarks(ts)
    ensures Inventory(g, w, w, ts)
  {
    assert Ordered(g, w, w, [], []);
  }

  lemma {:induction false} AtomsDefineNothing(ts: seq<Tree>)
    requires forall i | 0 <= i < |ts| :: ts[i].Atom?
    ensures TdLists(ts) == SdLists(ts) == [] && NoMarks(ts)
  {
    if ts != [] {
      AtomsDefineNothing(ts[1..]);
    }
  }

  lemma InventoryAppend(g: Graph, w0: set<Key>, w1: set<Key>, w2: set<Key>, a: seq<Tree>, b: seq<Tree>)
    requires w0 <= w1 <= w2 && Inventory(g, w0, w1, a) && Inventory(g, w1, w2, b)
    ensures Inventory(g, w0, w2, a + b)
  {
    hide InOrder, SymsListed, TdLists, SdLists, NoMarks;
    ListsAppend(a, b);
    NoMarksAppend(a, b);
    InOrderAppend(g, w0, w1, w2, TdLists(a), TdLists(b));
    SymsAppend(g, w0, w1, w2, SdLists(a), SdLists(b));
  }

  lemma InventoryBranch(g: Graph, w0: set<Key>, w1: set<Key>, tag: Tag, kids: seq<Tree>)
    requires !tag.TypeDefTag? && !tag.SymDefTag? && !IsMark(tag) && Inventory(g, w0, w1, kids)
    ensures Inventory(g, w0, w1, [Branch(tag, kids)])
  {
    hide InOrder, SymsListed, IsMark;
    ListsOfOne(Branch(tag, kids));
    NoMarksOfOne(Branch(tag, kids));
    assert TdList(Branch(tag, kids)) == TdLists(kids) && SdList(Branch(tag, kids)) == SdLists(kids);
  }

  /** Only the types among the keys matter to the order. */
  lemma InOrderFrom(g: Graph, w0: set<Key>, w: set<Key>, w1: set<Key>, tds: seq<Tree>)
    requires (forall y | Tracked(g, TypeKey(y)) :: TypeKey(y) in w0 <==> TypeKey(y) in w) && InOrder(g, w, w1, tds)
    ensures InOrder(g, w0, w1, tds)
  {
    hide Tracked, DefName;
    var order :| Ordered(g, w, w1, tds, order);
    forall i | 0 <= i < |order| ensures DefinesType(g, w0, w1, tds[i], order[i]) && RefersBack(g, w0, tds[i], order[..i]) {
      assert DefinesType(g, w, w1, tds[i], order[i]) && RefersBack(g, w, tds[i], order[..i]);
    }
    assert Ordered(g, w0, w1, tds, order);
  }

  lemma NoMarksOfDef(t: Tree)
    requires t.Branch? && (t.tag.SymDefTag? || t.tag.TypeDefTag?) && t.kids != [] && t.kids[0].Atom?
    ensures NoMark(t) <==> NoMarks(t.kids[1..])
  {
    assert NoMark(t.kids[0]);
  }

  /** The definition of a symbol adds itself to what it and the trees in front of it define. */
  lemma ListsOfSymDef(pre: seq<Tree>, t: Tree)
    requires t.Branch? && t.tag.SymDefTag? && t.kids != [] && t.kids[0].Atom?
    ensures TdLists(pre + [t]) == TdLists(pre + t.kids[1..])
    ensures SdLists(pre + [t]) == SdLists(pre) + ([t] + SdLists(t.kids[1..]))
    ensures SdLists(pre + t.kids[1..]) == SdLists(pre) + SdLists(t.kids[1..])
    ensures NoMarks(pre + t.kids[1..]) ==> NoMarks(pre + [t])
  {
    NoMarksOfDef(t);
    hide TdList, SdList, TdLists, SdLists, NoMarks, NoMark;
    NoMarksAppend(pre, [t]);
    NoMarksAppend(pre, t.kids[1..]);
    NoMarksOfOne(t);
    ListsOfDef(t);
    ListsOfOne(t);
    ListsAppend(pre, [t]);
    ListsAppend(pre, t.kids[1..]);
  }

  /** A symbol of this module that was marked in front of `pre`, defined behind it. */
  lemma InventorySym(g: Graph, s: SymId, w0: set<Key>, w1: set<Key>, w2: set<Key>, pre: seq<Tree>, t: Tree)
    requires Tracked(g, SymKey(s)) && SdWhole(g, t) && DefName(t) == Some(KeyName(g, SymKey(s))) && w0 + {SymKey(s)} <= w1 <= w2
    requires Inventory(g, w0 + {SymKey(s)}, w1, pre) && Inventory(g, w1, w2, t.kids[1..])
    ensures Inventory(g, w0, w2, pre + [t])
  {
    WholeHead(g, t);
    hide SdWhole, InOrder, TdLists, SdLists, TdList, SdList, Tracked, DefName, NoMarks;
    InventoryAppend(g, w0 + {SymKey(s)}, w1, w2, pre, t.kids[1..]);
    ListsOfSymDef(pre, t);
    InOrderFrom(g, w0, w0 + {SymKey(s)}, w2, TdLists(pre + [t]));
    forall z | Tracked(g, SymKey(z)) && SymKey(z) in w2 && SymKey(z) !in w0
      ensures exists d :: d in SdLists(pre + [t]) && DefName(d) == Some(KeyName(g, SymKey(z)))
    {
      if z == s {
        assert t in SdLists(pre + [t]);
      } else {
        var d :| d in SdLists(pre + t.kids[1..]) && DefName(d) == Some(KeyName(g, SymKey(z)));
        assert d in SdLists(pre + [t]);
      }
    }
  }

  lemma WholeHead(g: Graph, t: Tree)
    requires SdWhole(g, t)
    ensures t.Branch? && t.tag.SymDefTag? && t.kids != [] && t.kids[0].Atom?
  {
  }

  /** The same for a field or a package. */
  lemma InventoryForeign(g: Graph, w0: set<Key>, w: set<Key>, w1: set<Key>, w2: set<Key>, pre: seq<Tree>, t: Tree)
    requires w0 <= w <= w1 <= w2 && (forall k | k in w - w0 :: !Tracked(g, k)) && SdWhole(g, t)
    requires Inventory(g, w, w1, pre) && Inventory(g, w1, w2, t.kids[1..])
    ensures Inventory(g, w0, w2, pre + [t])
  {
    WholeHead(g, t);
    hide SdWhole, InOrder, TdLists, SdLists, TdList, SdList, Tracked, DefName, NoMarks;
    InventoryAppend(g, w, w1, w2, pre, t.kids[1..]);
    ListsOfSymDef(pre, t);
    InOrderFrom(g, w0, w, w2, TdLists(pre + [t]));
    forall z | Tracked(g, SymKey(z)) && SymKey(z) in w2 && SymKey(z) !in w0
      ensures exists d :: d in SdLists(pre + [t]) && DefName(d) == Some(KeyName(g, SymKey(z)))
    {
      var d :| d in SdLists(pre + t.kids[1..]) && DefName(d) == Some(KeyName(g, SymKey(z)));
      assert d in SdLists(pre + [t]);
    }
  }

  /** A type that was marked in front of its definition. */
  lemma InventoryType(g: Graph, env: Env, y: TypeId, w0: set<Key>, w2: set<Key>, t: Tree)
    requires GraphOk(g) && NamesDistinct(g) && Tracked(g, TypeKey(y)) && TypeKey(y) !in w0
    requires t.Branch? && t.tag.TypeDefTag? && t.kids != [] && t.kids[0] == Atom(SymDef(KeyName(g, TypeKey(y))))
    requires Delta(g, env, w0 + {TypeKey(y)}, w2, FlatAll(t.kids[1..])) && Inventory(g, w0 + {TypeKey(y)}, w2, t.kids[1..])
    ensures Inventory(g, w0, w2, [t])
  {
    hide GraphOk, NamesDistinct, Delta, InOrder, Tracked, TdLists, SdLists, TdList, SdList, FlatAll, SdWhole, DefName, NoMark, NoMarks;
    NoMarksOfDef(t);
    NoMarksOfOne(t);
    TypeInOrder(g, env, y, w0, w2, t);
    ListsOfDef(t);
    ListsOfOne(t);
  }
}
