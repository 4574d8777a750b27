/** The token list that the incremental-compilation writer produces and its readers
    consume, and the balanced trees it encodes.

    Tags stand for the tag texts of the NIF format: a node kind's tag, a symbol kind's
    tag, and the tags that the writer reserves for itself. */
module NifTokens {

  datatype NodeKind =
    | NkNone
    | NkEmpty
    | NkIdent
    | NkSym
    | NkCharLit
    | NkIntLit(width: nat)
    | NkUIntLit(width: nat)
    | NkFloatLit(width: nat)
    | NkStrLit(quoting: nat)
    | NkNilLit
    | NkRoutineDef(routine: nat)
    | NkLambda
    | NkDo
    | NkImportStmt
    | NkIncludeStmt
    | NkExportStmt
    | NkExportExceptStmt
    | NkFormalParams
    | NkInner(code: nat)

  datatype SymKind =
    | SkField
    | SkLet
    | SkVar
    | SkForVar
    | SkResult
    | SkModule
    | SkPackage
    | SkRoutine(routine: nat)
    | SkOther(code: nat)

  /** The operations that the compiler attaches to types. */
  datatype Hook = Destructor | Assignment | WasMoved | Dup | Sink | Trace | DeepCopy

  /** What a module's log registers. */
  datatype OpKind =
    | HookEntry(hook: Hook)
    | ConverterEntry
    | MethodEntry
    | EnumToStrEntry
    | PureEnumEntry
    | GenericInstEntry

  datatype Tag =
    | KindTag(node: NodeKind)
    | SymKindTag(sym: SymKind)
    | HiddenType
    | SymDefTag
    | TypeDefTag
    | Implementation
    | Replay
    | Registration(op: OpKind)
    | LibTag(lib: nat)
    | BoolTag(value: bool)
    | Named(text: string)

  datatype Tok =
    | ParLe(tag: Tag)
    | ParRi
    | Dot
    | Ident(text: string)
    | Str(text: string)
    | IntTok(ival: int)
    | UIntTok(uval: nat)
    | FloatTok(bits: nat)
    | CharTok(code: nat)
    | Sym(name: string)
    | SymDef(name: string)

  datatype Tree = Atom(tok: Tok) | Branch(tag: Tag, kids: seq<Tree>)

  /** A tree whose atoms are no brackets. */
  predicate IsTree(t: Tree)
    decreases t, 0
  {
    match t
    case Atom(tok) => !tok.ParLe? && !tok.ParRi?
    case Branch(_, kids) => AreTrees(kids)
  }

  predicate AreTrees(ts: seq<Tree>)
    decreases ts, 1
  {
    ts == [] || (IsTree(ts[0]) && AreTrees(ts[1..]))
  }

  function Flat(t: Tree): (r: seq<Tok>)
    ensures r != []
    decreases t, 0
  {
    match t
    case Atom(tok) => [tok]
    case Branch(tag, kids) => [ParLe(tag)] + FlatAll(kids) + [ParRi]
  }

  function FlatAll(ts: seq<Tree>): seq<Tok>
    decreases ts, 1
  {
    if ts == [] then [] else Flat(ts[0]) + FlatAll(ts[1..])
  }

  /** The elements `part` stand in `flat` at position `i`. */
  predicate At<T(==)>(flat: seq<T>, i: nat, part: seq<T>)
  {
    i + |part| <= |flat| && flat[i..i + |part|] == part
  }

  lemma AtSplit<T>(flat: seq<T>, i: nat, a: seq<T>, b: seq<T>)
    ensures At(flat, i, a + b) <==> At(flat, i, a) && At(flat, i + |a|, b)
  {
    if At(flat, i, a + b) {
      assert flat[i..i + |a|] == (a + b)[..|a|] == a;
      assert flat[i + |a|..i + |a| + |b|] == (a + b)[|a|..] == b;
    }
    if At(flat, i, a) && At(flat, i + |a|, b) {
      assert flat[i..i + |a + b|] == flat[i..i + |a|] + flat[i + |a|..i + |a| + |b|];
    }
  }

  lemma AtIndex<T>(flat: seq<T>, i: nat, part: seq<T>, k: nat)
    requires At(flat, i, part) && k < |part|
    ensures i + |part| <= |flat| && flat[i + k] == part[k]
  {
    assert flat[i..i + |part|][k] == flat[i + k];
  }

  lemma AtAppend<T>(flat: seq<T>, i: nat, part: seq<T>, x: T)
    requires At(flat, i, part) && i + |part| < |flat| && flat[i + |part|] == x
    ensures At(flat, i, part + [x])
  {
    assert flat[i..i + |part| + 1] == flat[i..i + |part|] + [x];
  }

  lemma Regroup<T>(x: seq<T>, y: seq<T>, z: seq<T>)
    ensures (x + y) + z == x + (y + z)
  {
  }

  lemma {:induction false} FlatAllAppend(a: seq<Tree>, b: seq<Tree>)
    ensures FlatAll(a + b) == FlatAll(a) + FlatAll(b)
  {
    hide Flat;
    if a == [] {
      assert a + b == b;
    } else {
      var tail := a[1..] + b;
      FlatAllAppend(a[1..], b);
      assert (a + b)[0] == a[0] && (a + b)[1..] == tail;
      assert FlatAll(a + b) == Flat(a[0]) + FlatAll(tail);
      Regroup(Flat(a[0]), FlatAll(a[1..]), FlatAll(b));
    }
  }

  lemma {:induction false} AreTreesAppend(a: seq<Tree>, b: seq<Tree>)
    ensures AreTrees(a + b) <==> AreTrees(a) && AreTrees(b)
  {
    if a == [] {
      assert a + b == b;
    } else {
      AreTreesAppend(a[1..], b);
      assert (a + b)[1..] == a[1..] + b;
    }
  }

  lemma {:induction false} TreeAmong(ts: seq<Tree>, i: nat)
    requires AreTrees(ts) && i < |ts|
    ensures IsTree(ts[i])
  {
    if i > 0 {
      TreeAmong(ts[1..], i - 1);
    }
  }

  lemma FlatAllSplit(ts: seq<Tree>, k: nat)
    requires k < |ts|
    ensures FlatAll(ts) == FlatAll(ts[..k]) + (Flat(ts[k]) + FlatAll(ts[k + 1..]))
    ensures FlatAll(ts[..k + 1]) == FlatAll(ts[..k]) + Flat(ts[k])
  {
    hide Flat;
    assert ts == ts[..k] + ts[k..] && ts[..k + 1] == ts[..k] + [ts[k]];
    FlatAllAppend(ts[..k], ts[k..]);
    FlatAllAppend(ts[..k], [ts[k]]);
    assert FlatAll([ts[k]]) == Flat(ts[k]) + FlatAll([]);
  }

  /** Where the child number `k` of a branch at `i` starts; its closing bracket for the
      number past the last child. */
  function KidAt(i: nat, kids: seq<Tree>, k: nat): nat
    requires k <= |kids|
  {
    i + 1 + |FlatAll(kids[..k])|
  }

  lemma BranchStands(flat: seq<Tok>, i: nat, tag: Tag, kids: seq<Tree>)
    requires At(flat, i, Flat(Branch(tag, kids)))
    ensures At(flat, i + 1, FlatAll(kids))
    ensures var e := i + 1 + |FlatAll(kids)|;
      e < |flat| && e + 1 == i + |Flat(Branch(tag, kids))| && flat[i] == ParLe(tag) && flat[e] == ParRi
  {
    AtSplit(flat, i, [ParLe(tag)] + FlatAll(kids), [ParRi]);
    AtSplit(flat, i, [ParLe(tag)], FlatAll(kids));
    AtIndex(flat, i, [ParLe(tag)], 0);
    AtIndex(flat, i + 1 + |FlatAll(kids)|, [ParRi], 0);
  }

  lemma KidsStand(flat: seq<Tok>, i: nat, t: Tree, k: nat)
    requires IsTree(t) && t.Branch? && At(flat, i, Flat(t)) && k < |t.kids|
    ensures IsTree(t.kids[k]) && At(flat, KidAt(i, t.kids, k), Flat(t.kids[k]))
    ensures KidAt(i, t.kids, k + 1) == KidAt(i, t.kids, k) + |Flat(t.kids[k])| < i + |Flat(t)|
  {
    var before, kid, after := FlatAll(t.kids[..k]), Flat(t.kids[k]), FlatAll(t.kids[k + 1..]);
    TreeAmong(t.kids, k);
    BranchStands(flat, i, t.tag, t.kids);
    FlatAllSplit(t.kids, k);
    hide At, Flat, FlatAll, IsTree;
    AtSplit(flat, i + 1, before, kid + after);
    AtSplit(flat, i + 1 + |before|, kid, after);
  }

  lemma KidsEnd(i: nat, t: Tree)
    requires t.Branch?
    ensures KidAt(i, t.kids, 0) == i + 1
    ensures KidAt(i, t.kids, |t.kids|) == i + |Flat(t)| - 1
  {
    assert t.kids[..|t.kids|] == t.kids;
  }

  // ---------- the definitions inside a tree ----------

  /** The type definitions inside a subtree, in the order of their first tokens. */
  function TdList(t: Tree): seq<Tree>
    decreases t, 0
  {
    match t
    case Atom(_) => []
    case Branch(tag, kids) => (if tag.TypeDefTag? then [t] else []) + TdLists(kids)
  }

  function TdLists(ts: seq<Tree>): seq<Tree>
    decreases ts, 1
  {
    if ts == [] then [] else TdList(ts[0]) + TdLists(ts[1..])
  }

  /** The symbol definitions inside a subtree. */
  function SdList(t: Tree): seq<Tree>
    decreases t, 0
  {
    match t
    case Atom(_) => []
    case Branch(tag, kids) => (if tag.SymDefTag? then [t] else []) + SdLists(kids)
  }

  function SdLists(ts: seq<Tree>): seq<Tree>
    decreases ts, 1
  {
    if ts == [] then [] else SdList(ts[0]) + SdLists(ts[1..])
  }

  lemma {:induction false} ListsAppend(a: seq<Tree>, b: seq<Tree>)
    ensures TdLists(a + b) == TdLists(a) + TdLists(b) && SdLists(a + b) == SdLists(a) + SdLists(b)
  {
    hide TdList, SdList;
    if a == [] {
      assert a + b == b;
    } else {
      var tail := a[1..] + b;
      ListsAppend(a[1..], b);
      assert (a + b)[0] == a[0] && (a + b)[1..] == tail;
      assert TdLists(a + b) == TdList(a[0]) + TdLists(tail) && SdLists(a + b) == SdList(a[0]) + SdLists(tail);
      Regroup(TdList(a[0]), TdLists(a[1..]), TdLists(b));
      Regroup(SdList(a[0]), SdLists(a[1..]), SdLists(b));
    }
  }

  lemma ListsOfOne(t: Tree)
    ensures TdLists([t]) == TdList(t) && SdLists([t]) == SdList(t)
  {
    hide TdList, SdList;
    assert [t][1..] == [];
  }

  // ---------- the index past a subtree ----------

  /** The index past the bracket that brings `nested` open brackets down to none,
      reading `flat` from `j`; the length of `flat` if there is no such bracket. */
  function Close(flat: seq<Tok>, j: nat, nested: nat): (r: nat)
    requires j <= |flat|
    ensures j <= r <= |flat|
    decreases |flat| - j
  {
    if j == |flat| then j
    else match flat[j]
      case ParLe(_) => Close(flat, j + 1, nested + 1)
      case ParRi => if nested <= 1 then j + 1 else Close(flat, j + 1, nested - 1)
      case _ => Close(flat, j + 1, nested)
  }

  function TreeEnd(flat: seq<Tok>, i: nat): (r: nat)
    requires i < |flat|
    ensures i < r <= |flat|
  {
    if flat[i].ParLe? then Close(flat, i + 1, 1) else i + 1
  }

  lemma {:induction false} CloseSkipsTree(flat: seq<Tok>, j: nat, t: Tree, nested: nat)
    requires IsTree(t) && At(flat, j, Flat(t)) && nested >= 1
    ensures Close(flat, j, nested) == Close(flat, j + |Flat(t)|, nested)
    decreases t, 0
  {
    match t
    case Atom(tok) =>
      AtIndex(flat, j, Flat(t), 0);
    case Branch(tag, kids) =>
      BranchStands(flat, j, tag, kids);
      hide At, IsTree;
      CloseSkipsTrees(flat, j + 1, kids, nested + 1);
  }

  lemma {:induction false} CloseSkipsTrees(flat: seq<Tok>, j: nat, ts: seq<Tree>, nested: nat)
    requires AreTrees(ts) && At(flat, j, FlatAll(ts)) && nested >= 1
    ensures Close(flat, j, nested) == Close(flat, j + |FlatAll(ts)|, nested)
    decreases ts, 1
  {
    if ts != [] {
      AtSplit(flat, j, Flat(ts[0]), FlatAll(ts[1..]));
      CloseSkipsTree(flat, j, ts[0], nested);
      CloseSkipsTrees(flat, j + |Flat(ts[0])|, ts[1..], nested);
    }
  }

  /** A subtree that stands at `i` ends exactly where its own tokens end. */
  lemma TreeEndOfTree(flat: seq<Tok>, i: nat, t: Tree)
    requires IsTree(t) && At(flat, i, Flat(t))
    ensures i < |flat| && TreeEnd(flat, i) == i + |Flat(t)|
  {
    match t
    case Atom(tok) =>
      AtIndex(flat, i, Flat(t), 0);
    case Branch(tag, kids) =>
      BranchStands(flat, i, tag, kids);
      CloseSkipsTrees(flat, i + 1, kids, 1);
  }

  /** Walks over the atom or balanced subtree that starts at `i`. */
  method NextTree(flat: seq<Tok>, i: nat) returns (r: nat)
    requires i < |flat|
    ensures r == TreeEnd(flat, i)
    ensures i < r <= |flat|
  {
    r := i + 1;
    if !flat[i].ParLe? {
      return;
    }
    var nested := 0;
    var j := i;
    while j < |flat|
      invariant i <= j <= |flat|
      invariant j == i ==> nested == 0
      invariant j > i ==> nested >= 1 && Close(flat, j, nested) == TreeEnd(flat, i)
    {
      match flat[j] {
        case ParLe(_) => nested := nested + 1;
        case ParRi =>
          nested := nested - 1;
          if nested == 0 {
            return j + 1;
          }
        case _ =>
      }
      j := j + 1;
    }
    r := |flat|;
  }
}
