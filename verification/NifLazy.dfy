/** Loading routine bodies on demand. The loader builds a routine's header at once and puts
    a placeholder in the place of its body, with a snapshot of the local symbols known at
    that moment; a placeholder is filled when somebody looks into it. */
module NifLazy {
  import opened NifTokens
  import opened NifNames
  import opened NifGraph
  import opened NifLoader
  import opened Options

  const BODY_POS := 6

  // ---------- eager loading, with the table of local symbols ----------

  /** Loads a node and registers the local symbols that it defines. */
  function Thread(env: Env, t: Tree): Option<(LNode, Env)>
    decreases t, 0
  {
    if DefinesLocal(t) then
      var l :- LoadNode(env, t);
      Some((l, Enter(env, t)))
    else if IsInnerTree(t) then
      var flags :- LoadFlags(t.kids[0]);
      var typ :- LoadTypeRef(t.kids[1]);
      var (sons, after) :- ThreadAll(env, t.kids[2..]);
      Some((LInner(t.tag.node, flags, typ, sons), after))
    else
      var l :- LoadNode(env, t);
      Some((l, env))
  }

  function ThreadAll(env: Env, ts: seq<Tree>): Option<(seq<LNode>, Env)>
    decreases ts, 1
  {
    if ts == [] then Some(([], env))
    else
      var (head, next) :- Thread(env, ts[0]);
      var (tail, after) :- ThreadAll(next, ts[1..]);
      Some(([head] + tail, after))
  }

  predicate HasSons(k: NodeKind)
  {
    k.NkRoutineDef? || k.NkLambda? || k.NkDo? || k.NkImportStmt? || k.NkIncludeStmt? || k.NkExportStmt? || k.NkExportExceptStmt?
    || k.NkFormalParams? || k.NkInner?
  }

  /** A node with sons: flags, type, sons. */
  predicate IsInnerTree(t: Tree)
  {
    t.Branch? && t.tag.KindTag? && HasSons(t.tag.node) && |t.kids| >= 2
  }

  /** The definition of a local symbol, with its name and its type. */
  predicate DefinesLocal(t: Tree)
  {
    t.Branch? && t.tag.SymDefTag? && |t.kids| > SD_TYPE && t.kids[0].Atom? && t.kids[0].tok.SymDef?
    && IsLocalName(t.kids[0].tok.name) && LoadTypeRef(t.kids[SD_TYPE]).Some?
  }

  function LocalName(t: Tree): string
    requires DefinesLocal(t)
  {
    t.kids[0].tok.name
  }

  function LocalType(t: Tree): Option<string>
    requires DefinesLocal(t)
  {
    LoadTypeRef(t.kids[SD_TYPE]).value
  }

  function Register(env: Env, t: Tree): Env
    requires DefinesLocal(t)
  {
    env.(locals := env.locals[LocalName(t) := LocalType(t)])
  }

  /** Is the loading of this son put off? */
  predicate Deferred(parent: NodeKind, idx: nat, t: Tree)
  {
    parent.NkRoutineDef? && idx == BODY_POS && t.Branch? && t.tag.KindTag? && !t.tag.node.NkEmpty? && !t.tag.node.NkNone?
  }

  /** A library with a path. */
  predicate IsLib(t: Tree) { t.Branch? && t.tag.LibTag? && |t.kids| == 4 }

  /** Registers the local symbols that loading a tree meets. A local symbol is loaded with its
      own definition, which may define local symbols in its turn: in its library's path, its
      ast, its constraint and its body. Bodies that are put off are left out. */
  function Enter(env: Env, t: Tree): Env
    decreases t, 0
  {
    if DefinesLocal(t) then
      var self := Register(env, t);
      if |t.kids| != SD_COUNT then self
      else
        var path := if IsLib(t.kids[SD_ANNEX]) then Enter(self, t.kids[SD_ANNEX].kids[3]) else self;
        Enter(Enter(Enter(path, t.kids[SD_AST]), t.kids[SD_CONSTRAINT]), t.kids[SD_BODY])
    else if IsInnerTree(t) then EnterSons(env, t.tag.node, 0, t.kids[2..])
    else env
  }

  function EnterSons(env: Env, parent: NodeKind, idx: nat, ts: seq<Tree>): Env
    decreases ts, 1
  {
    if ts == [] then env
    else EnterSons(if Deferred(parent, idx, ts[0]) then env else Enter(env, ts[0]), parent, idx + 1, ts[1..])
  }

  predicate Knows(env: Env, t: Tree)
    requires DefinesLocal(t)
  {
    LocalName(t) in env.locals && env.locals[LocalName(t)] == LocalType(t)
  }

  /** Everything that entering the tree registers is registered. */
  predicate Entered(env: Env, t: Tree)
    decreases t, 0
  {
    if DefinesLocal(t) then
      Knows(env, t) &&
      (|t.kids| == SD_COUNT ==>
         && (IsLib(t.kids[SD_ANNEX]) ==> Entered(env, t.kids[SD_ANNEX].kids[3]))
         && Entered(env, t.kids[SD_AST]) && Entered(env, t.kids[SD_CONSTRAINT]) && Entered(env, t.kids[SD_BODY]))
    else if IsInnerTree(t) then EnteredSons(env, t.tag.node, 0, t.kids[2..])
    else true
  }

  predicate EnteredSons(env: Env, parent: NodeKind, idx: nat, ts: seq<Tree>)
    decreases ts, 1
  {
    ts == [] || ((Deferred(parent, idx, ts[0]) || Entered(env, ts[0])) && EnteredSons(env, parent, idx + 1, ts[1..]))
  }

  // ---------- the scan in front of a definition ----------

  /** Registers the local symbols that a tree defines: a new one is loaded on the spot. Type
      definitions are left out: the fields of a type are loaded in a scope of their own. */
  function Scan(env: Env, t: Tree): Env
    decreases t, 0
  {
    match t
    case Atom(_) => env
    case Branch(tag, kids) =>
      if tag.TypeDefTag? then env
      else if DefinesLocal(t) && LocalName(t) !in env.locals then Enter(env, t)
      else ScanAll(env, kids)
  }

  function ScanAll(env: Env, ts: seq<Tree>): Env
    decreases ts, 1
  {
    if ts == [] then env else ScanAll(Scan(env, ts[0]), ts[1..])
  }

  /** The local definitions that loading the node meets, also inside the bodies that it puts
      off, are registered, with their types. */
  predicate Registered(env: Env, t: Tree)
    decreases t, 0
  {
    if DefinesLocal(t) then Entered(env, t)
    else if IsInnerTree(t) then RegisteredAll(env, t.kids[2..])
    else IsLib(t) ==> RegisteredAll(env, t.kids)
  }

  predicate RegisteredAll(env: Env, ts: seq<Tree>)
    decreases ts, 1
  {
    ts == [] || (Registered(env, ts[0]) && RegisteredAll(env, ts[1..]))
  }

  /** All definitions of a local name in the tree agree on its type. */
  ghost predicate Agree(types: map<string, Option<string>>, t: Tree)
    decreases t, 0
  {
    match t
    case Atom(_) => true
    case Branch(tag, kids) =>
      tag.TypeDefTag? || ((DefinesLocal(t) ==> LocalName(t) in types && types[LocalName(t)] == LocalType(t)) && AgreeAll(types, kids))
  }

  ghost predicate AgreeAll(types: map<string, Option<string>>, ts: seq<Tree>)
    decreases ts, 1
  {
    ts == [] || (Agree(types, ts[0]) && AgreeAll(types, ts[1..]))
  }

  ghost predicate Within(env: Env, types: map<string, Option<string>>)
  {
    forall n | n in env.locals :: n in types && types[n] == env.locals[n]
  }

  /** The tables only grow from `a` to `b`, and agree with the types. */
  ghost predicate Extends(a: Env, b: Env, types: map<string, Option<string>>)
  {
    a.symTypes == b.symTypes && Within(b, types) && forall n | n in a.locals :: n in b.locals
  }

  lemma {:induction false} EnteredStays(a: Env, b: Env, types: map<string, Option<string>>, t: Tree)
    requires Within(a, types) && Extends(a, b, types) && Entered(a, t)
    ensures Entered(b, t)
    decreases t, 0
  {
    hide IsLocalName, LoadTypeRef;
    if DefinesLocal(t) {
      if |t.kids| == SD_COUNT {
        if IsLib(t.kids[SD_ANNEX]) { EnteredStays(a, b, types, t.kids[SD_ANNEX].kids[3]); }
        EnteredStays(a, b, types, t.kids[SD_AST]);
        EnteredStays(a, b, types, t.kids[SD_CONSTRAINT]);
        EnteredStays(a, b, types, t.kids[SD_BODY]);
      }
    } else if IsInnerTree(t) {
      EnteredSonsStay(a, b, types, t.tag.node, 0, t.kids[2..]);
    }
  }

  lemma {:induction false} EnteredSonsStay(a: Env, b: Env, types: map<string, Option<string>>, parent: NodeKind, idx: nat, ts: seq<Tree>)
    requires Within(a, types) && Extends(a, b, types) && EnteredSons(a, parent, idx, ts)
    ensures EnteredSons(b, parent, idx, ts)
    decreases ts, 1
  {
    hide Entered, Extends, Within, Deferred;
    if ts != [] {
      if !Deferred(parent, idx, ts[0]) { EnteredStays(a, b, types, ts[0]); }
      EnteredSonsStay(a, b, types, parent, idx + 1, ts[1..]);
    }
  }

  /** Entering what is registered changes nothing. */
  lemma {:induction false} EnterKeeps(env: Env, t: Tree)
    requires Entered(env, t)
    ensures Enter(env, t) == env
    decreases t, 0
  {
    hide IsLocalName, LoadTypeRef;
    if DefinesLocal(t) {
      assert env.locals[LocalName(t) := LocalType(t)] == env.locals;
      if |t.kids| == SD_COUNT {
        if IsLib(t.kids[SD_ANNEX]) { EnterKeeps(env, t.kids[SD_ANNEX].kids[3]); }
        EnterKeeps(env, t.kids[SD_AST]);
        EnterKeeps(env, t.kids[SD_CONSTRAINT]);
        EnterKeeps(env, t.kids[SD_BODY]);
      }
    } else if IsInnerTree(t) {
      EnterSonsKeeps(env, t.tag.node, 0, t.kids[2..]);
    }
  }

  lemma {:induction false} EnterSonsKeeps(env: Env, parent: NodeKind, idx: nat, ts: seq<Tree>)
    requires EnteredSons(env, parent, idx, ts)
    ensures EnterSons(env, parent, idx, ts) == env
    decreases ts, 1
  {
    hide Enter, Entered, Deferred;
    if ts != [] {
      if !Deferred(parent, idx, ts[0]) { EnterKeeps(env, ts[0]); }
      EnterSonsKeeps(env, parent, idx + 1, ts[1..]);
    }
  }

  lemma {:induction false} AgreeAt(types: map<string, Option<string>>, ts: seq<Tree>, i: nat)
    requires AgreeAll(types, ts) && i < |ts|
    ensures Agree(types, ts[i])
  {
    hide Agree;
    if i > 0 { AgreeAt(types, ts[1..], i - 1); }
  }

  lemma {:induction false} AgreeTail(types: map<string, Option<string>>, ts: seq<Tree>, i: nat)
    requires AgreeAll(types, ts) && i <= |ts|
    ensures AgreeAll(types, ts[i..])
  {
    hide Agree;
    if i > 0 { AgreeTail(types, ts[1..], i - 1); assert ts[1..][i - 1..] == ts[i..]; }
  }

  /** Entering registers everything that it meets, in definitions inside definitions as well. */
  lemma {:induction false} EnterRegisters(env: Env, types: map<string, Option<string>>, t: Tree)
    requires Within(env, types) && Agree(types, t)
    ensures Extends(env, Enter(env, t), types) && Entered(Enter(env, t), t)
    decreases t, 0
  {
    hide IsLocalName, LoadTypeRef, Deferred;
    if DefinesLocal(t) {
      EnterDefinition(env, types, t);
    } else if IsInnerTree(t) {
      AgreeTail(types, t.kids, 2);
      EnterSonsRegisters(env, types, t.tag.node, 0, t.kids[2..]);
    }
  }

  lemma {:induction false} EnterDefinition(env: Env, types: map<string, Option<string>>, t: Tree)
    requires Within(env, types) && Agree(types, t) && DefinesLocal(t)
    ensures Extends(env, Enter(env, t), types) && Entered(Enter(env, t), t)
    decreases t, -1
  {
    hide IsLocalName, LoadTypeRef, Deferred;
    var self := Register(env, t);
    assert Extends(env, self, types) && Knows(self, t);
    if |t.kids| == SD_COUNT {
      var path, ast, constraint, body := t.kids[SD_ANNEX], t.kids[SD_AST], t.kids[SD_CONSTRAINT], t.kids[SD_BODY];
      AgreeAt(types, t.kids, SD_ANNEX);
      AgreeAt(types, t.kids, SD_AST);
      AgreeAt(types, t.kids, SD_CONSTRAINT);
      AgreeAt(types, t.kids, SD_BODY);
      var e1 := if IsLib(path) then Enter(self, path.kids[3]) else self;
      if IsLib(path) {
        AgreeAt(types, path.kids, 3);
        EnterRegisters(self, types, path.kids[3]);
      }
      var e2 := Enter(e1, ast);
      EnterRegisters(e1, types, ast);
      var e3 := Enter(e2, constraint);
      EnterRegisters(e2, types, constraint);
      var e4 := Enter(e3, body);
      EnterRegisters(e3, types, body);
      assert Enter(env, t) == e4;
      if IsLib(path) { EnteredStays(e1, e4, types, path.kids[3]); }
      EnteredStays(e2, e4, types, ast);
      EnteredStays(e3, e4, types, constraint);
    }
  }

  lemma {:induction false} EnterSonsRegisters(env: Env, types: map<string, Option<string>>, parent: NodeKind, idx: nat, ts: seq<Tree>)
    requires Within(env, types) && AgreeAll(types, ts)
    ensures Extends(env, EnterSons(env, parent, idx, ts), types) && EnteredSons(EnterSons(env, parent, idx, ts), parent, idx, ts)
    decreases ts, 1
  {
    hide Enter, Entered, Deferred, Agree;
    if ts != [] {
      var next := if Deferred(parent, idx, ts[0]) then env else Enter(env, ts[0]);
      if !Deferred(parent, idx, ts[0]) { EnterRegisters(env, types, ts[0]); }
      EnterSonsRegisters(next, types, parent, idx + 1, ts[1..]);
      if !Deferred(parent, idx, ts[0]) { EnteredStays(next, EnterSons(env, parent, idx, ts), types, ts[0]); }
    }
  }

  lemma {:induction false} RegisteredStays(a: Env, b: Env, types: map<string, Option<string>>, t: Tree)
    requires Within(a, types) && Extends(a, b, types) && Registered(a, t)
    ensures Registered(b, t)
    decreases t, 0
  {
    hide IsLocalName, LoadTypeRef, Entered;
    if DefinesLocal(t) {
      EnteredStays(a, b, types, t);
    } else if IsInnerTree(t) {
      RegisteredAllStays(a, b, types, t.kids[2..]);
    } else if IsLib(t) {
      RegisteredAllStays(a, b, types, t.kids);
    }
  }

  lemma {:induction false} RegisteredAllStays(a: Env, b: Env, types: map<string, Option<string>>, ts: seq<Tree>)
    requires Within(a, types) && Extends(a, b, types) && RegisteredAll(a, ts)
    ensures RegisteredAll(b, ts)
    decreases ts, 1
  {
    if ts != [] {
      RegisteredStays(a, b, types, ts[0]);
      RegisteredAllStays(a, b, types, ts[1..]);
    }
  }

  lemma {:induction false} RegisteredAt(env: Env, ts: seq<Tree>, i: nat)
    requires RegisteredAll(env, ts) && i < |ts|
    ensures Registered(env, ts[i])
  {
    hide Registered;
    if i > 0 { RegisteredAt(env, ts[1..], i - 1); }
  }

  lemma {:induction false} RegisteredIsEntered(env: Env, t: Tree)
    requires Registered(env, t)
    ensures Entered(env, t)
    decreases t, 0
  {
    hide IsLocalName, LoadTypeRef;
    if !DefinesLocal(t) && IsInnerTree(t) {
      RegisteredSonsAreEntered(env, t.tag.node, 0, t.kids[2..]);
    }
  }

  lemma {:induction false} RegisteredSonsAreEntered(env: Env, parent: NodeKind, idx: nat, ts: seq<Tree>)
    requires RegisteredAll(env, ts)
    ensures EnteredSons(env, parent, idx, ts)
    decreases ts, 1
  {
    hide Entered, Registered, Deferred;
    if ts != [] {
      RegisteredIsEntered(env, ts[0]);
      RegisteredSonsAreEntered(env, parent, idx + 1, ts[1..]);
    }
  }

  /** A definition of a known local symbol, all of whose children have been scanned. */
  lemma DefinitionEntered(env: Env, t: Tree)
    requires DefinesLocal(t) && Knows(env, t) && RegisteredAll(env, t.kids)
    ensures Entered(env, t)
  {
    hide IsLocalName, LoadTypeRef;
    if |t.kids| == SD_COUNT {
      RegisteredAt(env, t.kids, SD_ANNEX);
      RegisteredAt(env, t.kids, SD_AST);
      RegisteredAt(env, t.kids, SD_CONSTRAINT);
      RegisteredAt(env, t.kids, SD_BODY);
      RegisteredIsEntered(env, t.kids[SD_AST]);
      RegisteredIsEntered(env, t.kids[SD_CONSTRAINT]);
      RegisteredIsEntered(env, t.kids[SD_BODY]);
      if IsLib(t.kids[SD_ANNEX]) {
        RegisteredAt(env, t.kids[SD_ANNEX].kids, 3);
        RegisteredIsEntered(env, t.kids[SD_ANNEX].kids[3]);
      }
    }
  }

  /** After the scan every local definition that loading will meet is registered. */
  lemma {:induction false} ScanRegisters(env: Env, types: map<string, Option<string>>, t: Tree)
    requires Within(env, types) && Agree(types, t)
    ensures Extends(env, Scan(env, t), types) && Registered(Scan(env, t), t)
    decreases t, 0
  {
    hide IsLocalName, LoadTypeRef, Enter, Entered;
    match t
    case Atom(_) =>
    case Branch(tag, kids) =>
      if !tag.TypeDefTag? {
        if DefinesLocal(t) && LocalName(t) !in env.locals {
          EnterRegisters(env, types, t);
        } else {
          ScanAllRegisters(env, types, kids);
          if DefinesLocal(t) {
            DefinitionEntered(Scan(env, t), t);
          } else if IsInnerTree(t) {
            RegisteredTail(Scan(env, t), kids);
          }
        }
      }
  }

  lemma RegisteredTail(env: Env, kids: seq<Tree>)
    requires |kids| >= 2 && RegisteredAll(env, kids)
    ensures RegisteredAll(env, kids[2..])
  {
    assert kids[1..][1..] == kids[2..];
  }

  lemma {:induction false} ScanAllRegisters(env: Env, types: map<string, Option<string>>, ts: seq<Tree>)
    requires Within(env, types) && AgreeAll(types, ts)
    ensures Extends(env, ScanAll(env, ts), types) && RegisteredAll(ScanAll(env, ts), ts)
    decreases ts, 1
  {
    if ts != [] {
      var next := Scan(env, ts[0]);
      ScanRegisters(env, types, ts[0]);
      ScanAllRegisters(next, types, ts[1..]);
      RegisteredStays(next, ScanAll(env, ts), types, ts[0]);
    }
  }

  // ---------- eager loading when everything is registered ----------

  lemma InnerTreeLoads(env: Env, t: Tree)
    requires IsInnerTree(t)
    ensures LoadNode(env, t) ==
      if LoadFlags(t.kids[0]).None? || LoadTypeRef(t.kids[1]).None? || LoadNodes(env, t.kids[2..]).None? then None
      else Some(LInner(t.tag.node, LoadFlags(t.kids[0]).value, LoadTypeRef(t.kids[1]).value, LoadNodes(env, t.kids[2..]).value))
  {
    hide LoadFlags, LoadTypeRef, LoadNodes;
    assert LoadNode(env, t) == LoadBranch(env, t.tag, t.kids);
  }

  /** Loading registers nothing new, and the table stays as it is. */
  lemma {:induction false} ThreadKeeps(env: Env, t: Tree)
    requires Registered(env, t)
    ensures Thread(env, t) == (var l := LoadNode(env, t); if l.None? then None else Some((l.value, env)))
    decreases t, 0
  {
    hide IsLocalName, LoadTypeRef, LoadFlags, LoadNode;
    if DefinesLocal(t) {
      EnterKeeps(env, t);
    } else if IsInnerTree(t) {
      InnerTreeLoads(env, t);
      ThreadAllKeeps(env, t.kids[2..]);
    }
  }

  lemma {:induction false} ThreadAllKeeps(env: Env, ts: seq<Tree>)
    requires RegisteredAll(env, ts)
    ensures ThreadAll(env, ts) == (var ls := LoadNodes(env, ts); if ls.None? then None else Some((ls.value, env)))
    decreases ts, 1
  {
    hide LoadNode;
    if ts != [] {
      ThreadKeeps(env, ts[0]);
      ThreadAllKeeps(env, ts[1..]);
    }
  }

  // ---------- lazy loading ----------

  /** A loaded tree with placeholders: each keeps the kind of its body, where the body
      stands, and the local symbols of that moment. */
  datatype PNode =
    | Ready(l: LNode)
    | Inner(kind: NodeKind, flags: string, typ: Option<string>, sons: seq<PNode>)
    | Hole(kind: NodeKind, body: Tree, env: Env)

  function LazyThread(env: Env, t: Tree): Option<(PNode, Env)>
    decreases t, 0
  {
    if DefinesLocal(t) then
      var l :- LoadNode(env, t);
      Some((Ready(l), Enter(env, t)))
    else if IsInnerTree(t) then
      var flags :- LoadFlags(t.kids[0]);
      var typ :- LoadTypeRef(t.kids[1]);
      var (sons, after) :- LazySons(env, t.tag.node, 0, t.kids[2..]);
      Some((Inner(t.tag.node, flags, typ, sons), after))
    else
      var l :- LoadNode(env, t);
      Some((Ready(l), env))
  }

  /** The sons from number `idx` on. */
  function LazySons(env: Env, parent: NodeKind, idx: nat, ts: seq<Tree>): Option<(seq<PNode>, Env)>
    decreases ts, 1
  {
    if ts == [] then Some(([], env))
    else if Deferred(parent, idx, ts[0]) then
      var (tail, after) :- LazySons(env, parent, idx + 1, ts[1..]);
      Some(([Hole(ts[0].tag.node, ts[0], env)] + tail, after))
    else
      var (head, next) :- LazyThread(env, ts[0]);
      var (tail, after) :- LazySons(next, parent, idx + 1, ts[1..]);
      Some(([head] + tail, after))
  }

  /** Filling a placeholder grafts the sons, the type and the flags of the loaded body onto
      it, so the body has to be of a kind that has sons. */
  predicate Graftable(k: NodeKind) { HasSons(k) || k.NkNilLit? }

  function Fill(h: PNode): Option<PNode>
    requires h.Hole?
  {
    if !Graftable(h.kind) then None
    else
      var (p, _) :- LazyThread(h.env, h.body);
      Some(p)
  }

  /** What a tree with placeholders stands for. */
  function Forced(p: PNode): Option<LNode>
    decreases p
  {
    match p
    case Ready(l) => Some(l)
    case Inner(kind, flags, typ, sons) =>
      var ls :- ForcedAll(sons);
      Some(LInner(kind, flags, typ, ls))
    case Hole(kind, body, env) => if BodiesGraft(body) && Graftable(kind) then LoadNode(env, body) else None
  }

  function ForcedAll(ps: seq<PNode>): Option<seq<LNode>>
    decreases ps
  {
    if ps == [] then Some([])
    else
      var head :- Forced(ps[0]);
      var tail :- ForcedAll(ps[1..]);
      Some([head] + tail)
  }

  /** Every body in the tree that is put off has a kind with sons. */
  predicate BodiesGraft(t: Tree)
    decreases t, 0
  {
    DefinesLocal(t) || !IsInnerTree(t) || SonsGraft(t.tag.node, 0, t.kids[2..])
  }

  predicate SonsGraft(parent: NodeKind, idx: nat, ts: seq<Tree>)
    decreases ts, 1
  {
    ts == [] ||
    ((Deferred(parent, idx, ts[0]) ==> Graftable(ts[0].tag.node)) && BodiesGraft(ts[0]) && SonsGraft(parent, idx + 1, ts[1..]))
  }

  /** The placeholders were left where everything in their bodies was registered. */
  predicate Sealed(p: PNode)
    decreases p
  {
    match p
    case Ready(_) => true
    case Inner(_, _, _, sons) => SealedAll(sons)
    case Hole(kind, body, env) => Registered(env, body) && body.Branch? && body.tag == KindTag(kind)
  }

  predicate SealedAll(ps: seq<PNode>)
    decreases ps
  {
    ps == [] || (Sealed(ps[0]) && SealedAll(ps[1..]))
  }

  /** What a lazily loaded tree stands for is what loading it eagerly gives, if and only if
      no put-off body is of a kind without sons. */
  lemma {:induction false} LazyForces(env: Env, t: Tree)
    requires Registered(env, t)
    ensures var r := LazyThread(env, t);
      if r.None? then LoadNode(env, t).None?
      else r.value.1 == env && Sealed(r.value.0) && Forced(r.value.0) == if BodiesGraft(t) then LoadNode(env, t) else None
    decreases t, 0
  {
    hide IsLocalName, LoadTypeRef, LoadFlags, LoadNode, Deferred;
    if DefinesLocal(t) {
      EnterKeeps(env, t);
    } else if IsInnerTree(t) {
      InnerTreeLoads(env, t);
      LazySonsForce(env, t.tag.node, 0, t.kids[2..]);
    }
  }

  lemma {:induction false} LazySonsForce(env: Env, parent: NodeKind, idx: nat, ts: seq<Tree>)
    requires RegisteredAll(env, ts)
    ensures var r := LazySons(env, parent, idx, ts);
      if r.None? then LoadNodes(env, ts).None?
      else r.value.1 == env && SealedAll(r.value.0) && ForcedAll(r.value.0) == if SonsGraft(parent, idx, ts) then LoadNodes(env, ts) else None
    decreases ts, 1
  {
    hide LoadNode, Graftable;
    if ts != [] {
      LazySonsForce(env, parent, idx + 1, ts[1..]);
      if !Deferred(parent, idx, ts[0]) {
        LazyForces(env, ts[0]);
      }
    }
  }

  /** Filling a placeholder does not change what it stands for. */
  lemma FillForces(h: PNode)
    requires h.Hole? && Sealed(h)
    ensures var f := Fill(h); if f.None? then Forced(h).None? else Sealed(f.value) && Forced(f.value) == Forced(h)
  {
    hide LoadNode, BodiesGraft, LazyThread, Registered;
    LazyForces(h.env, h.body);
  }

  // ---------- filling placeholders one by one ----------

  predicate HoleAt(p: PNode, path: seq<nat>)
  {
    if path == [] then p.Hole? else p.Inner? && path[0] < |p.sons| && HoleAt(p.sons[path[0]], path[1..])
  }

  function TheHole(p: PNode, path: seq<nat>): (h: PNode)
    requires HoleAt(p, path)
    ensures h.Hole?
  {
    if path == [] then p else TheHole(p.sons[path[0]], path[1..])
  }

  function Replace(p: PNode, path: seq<nat>, q: PNode): PNode
    requires HoleAt(p, path)
  {
    if path == [] then q else p.(sons := p.sons[path[0] := Replace(p.sons[path[0]], path[1..], q)])
  }

  /** How much is still to be loaded: the tokens of the put-off bodies. */
  function Weight(p: PNode): nat
    decreases p
  {
    match p
    case Ready(_) => 0
    case Inner(_, _, _, sons) => WeightAll(sons)
    case Hole(_, body, _) => |Flat(body)|
  }

  function WeightAll(ps: seq<PNode>): nat
    decreases ps
  {
    if ps == [] then 0 else Weight(ps[0]) + WeightAll(ps[1..])
  }

  lemma {:induction false} LazyWeight(env: Env, t: Tree)
    ensures LazyThread(env, t).Some? ==> Weight(LazyThread(env, t).value.0) < |Flat(t)|
    decreases t, 0
  {
    hide IsLocalName, LoadTypeRef, LoadFlags, LoadNode, Deferred;
    if !DefinesLocal(t) && IsInnerTree(t) && LazyThread(env, t).Some? {
      LazySonsWeight(env, t.tag.node, 0, t.kids[2..]);
      assert t.kids == t.kids[..2] + t.kids[2..];
      FlatAllAppend(t.kids[..2], t.kids[2..]);
    }
  }

  lemma {:induction false} LazySonsWeight(env: Env, parent: NodeKind, idx: nat, ts: seq<Tree>)
    ensures LazySons(env, parent, idx, ts).Some? ==> WeightAll(LazySons(env, parent, idx, ts).value.0) <= |FlatAll(ts)|
    decreases ts, 1
  {
    hide LoadNode, Flat;
    if ts != [] {
      if Deferred(parent, idx, ts[0]) {
        LazySonsWeight(env, parent, idx + 1, ts[1..]);
      } else if LazyThread(env, ts[0]).Some? {
        LazyWeight(env, ts[0]);
        LazySonsWeight(LazyThread(env, ts[0]).value.1, parent, idx + 1, ts[1..]);
      }
    }
  }

  lemma {:induction false} AtSons(ps: seq<PNode>, i: nat, q: PNode)
    requires i < |ps| && SealedAll(ps) && Sealed(q) && Forced(q) == Forced(ps[i])
    ensures SealedAll(ps[i := q]) && ForcedAll(ps[i := q]) == ForcedAll(ps)
    ensures WeightAll(ps[i := q]) == WeightAll(ps) - Weight(ps[i]) + Weight(q)
    decreases |ps|
  {
    hide Sealed, Forced, Weight;
    var qs := ps[i := q];
    if i == 0 {
      assert qs[1..] == ps[1..];
    } else {
      AtSons(ps[1..], i - 1, q);
      assert qs[1..] == ps[1..][i - 1 := q] && qs[0] == ps[0];
    }
  }

  lemma {:induction false} SealedSon(ps: seq<PNode>, i: nat)
    requires i < |ps| && SealedAll(ps)
    ensures Sealed(ps[i])
    decreases |ps|
  {
    if i > 0 { SealedSon(ps[1..], i - 1); }
  }

  /** Filling any placeholder changes nothing of what the whole tree stands for, and leaves
      less to be loaded. */
  lemma {:induction false} FillAnywhere(p: PNode, path: seq<nat>)
    requires HoleAt(p, path) && Sealed(p)
    ensures var h := TheHole(p, path);
      Fill(h).Some? ==>
        var q := Replace(p, path, Fill(h).value);
        Sealed(q) && Forced(q) == Forced(p) && Weight(q) < Weight(p)
    ensures Fill(TheHole(p, path)).None? ==> Forced(p).None?
    decreases |path|
  {
    hide Fill, Registered, LoadNode;
    if path == [] {
      FillForces(p);
      FillWeight(p);
    } else {
      var i := path[0];
      SealedSon(p.sons, i);
      FillAnywhere(p.sons[i], path[1..]);
      var h := TheHole(p, path);
      if Fill(h).Some? {
        AtSons(p.sons, i, Replace(p.sons[i], path[1..], Fill(h).value));
      } else {
        ForcedFails(p.sons, i);
      }
    }
  }

  lemma FillWeight(h: PNode)
    requires h.Hole?
    ensures Fill(h).Some? ==> Weight(Fill(h).value) < Weight(h)
  {
    LazyWeight(h.env, h.body);
  }

  lemma {:induction false} ForcedFails(ps: seq<PNode>, i: nat)
    requires i < |ps| && Forced(ps[i]).None?
    ensures ForcedAll(ps).None?
    decreases |ps|
  {
    if i > 0 { ForcedFails(ps[1..], i - 1); }
  }

  // ---------- trees without placeholders ----------

  /** A tree that is not fully loaded has a placeholder. */
  function FirstHole(p: PNode): (path: seq<nat>)
    requires !Full(p)
    ensures HoleAt(p, path)
    decreases p
  {
    if p.Hole? then [] else var (i, path) := FirstHoleAmong(p.sons); [i] + path
  }

  function FirstHoleAmong(ps: seq<PNode>): (r: (nat, seq<nat>))
    requires !AllFull(ps)
    ensures r.0 < |ps| && HoleAt(ps[r.0], r.1)
    decreases ps
  {
    if !Full(ps[0]) then (0, FirstHole(ps[0])) else var (i, path) := FirstHoleAmong(ps[1..]); (i + 1, path)
  }

  predicate Full(p: PNode)
    decreases p
  {
    match p
    case Ready(_) => true
    case Inner(_, _, _, sons) => AllFull(sons)
    case Hole(_, _, _) => false
  }

  predicate AllFull(ps: seq<PNode>)
    decreases ps
  {
    ps == [] || (Full(ps[0]) && AllFull(ps[1..]))
  }

  /** The nodes of a tree without placeholders. */
  function Nodes(p: PNode): LNode
    requires Full(p)
    decreases p
  {
    match p
    case Ready(l) => l
    case Inner(kind, flags, typ, sons) => LInner(kind, flags, typ, AllNodes(sons))
  }

  function AllNodes(ps: seq<PNode>): seq<LNode>
    requires AllFull(ps)
    decreases ps
  {
    if ps == [] then [] else [Nodes(ps[0])] + AllNodes(ps[1..])
  }

  lemma {:induction false} FullForced(p: PNode)
    requires Full(p)
    ensures Forced(p) == Some(Nodes(p))
    decreases p
  {
    if p.Inner? {
      AllFullForced(p.sons);
    }
  }

  lemma {:induction false} AllFullForced(ps: seq<PNode>)
    requires AllFull(ps)
    ensures ForcedAll(ps) == Some(AllNodes(ps))
    decreases ps
  {
    if ps != [] {
      FullForced(ps[0]);
      AllFullForced(ps[1..]);
    }
  }

  /** A definition's tree that is being loaded on demand. */
  class LazyTree {
    ghost const env: Env
    ghost const tree: Tree
    var root: PNode

    ghost predicate Valid()
      reads this
    {
      Sealed(root) && Forced(root) == if BodiesGraft(tree) then LoadNode(env, tree) else None
    }

    constructor (env: Env, tree: Tree, root: PNode)
      requires Registered(env, tree) && LazyThread(env, tree) == Some((root, env))
      ensures Valid() && this.env == env && this.tree == tree && this.root == root
    {
      this.env, this.tree, this.root := env, tree, root;
      new;
      LazyForces(env, tree);
    }

    /** Somebody looks into the placeholder at the path: its body is loaded and grafted onto
        it. Fails where the program would. */
    method LookInto(path: seq<nat>) returns (ok: bool)
      requires Valid() && HoleAt(root, path)
      modifies this
      ensures Valid() && (ok ==> Weight(root) < old(Weight(root)))
      ensures !ok ==> root == old(root) && (LoadNode(env, tree).None? || !BodiesGraft(tree))
    {
      hide LoadNode, Fill, BodiesGraft;
      FillAnywhere(root, path);
      var filled := Fill(TheHole(root, path));
      ok := filled.Some?;
      if ok {
        root := Replace(root, path, filled.value);
      }
    }

    /** Looks into placeholders in any order. Whenever none is left, the tree is the one that
        loading everything at once gives. */
    method LookAround(order: seq<seq<nat>>) returns (ok: bool)
      requires Valid()
      modifies this
      ensures Valid() && (!ok ==> LoadNode(env, tree).None? || !BodiesGraft(tree))
      ensures Full(root) ==> BodiesGraft(tree) && LoadNode(env, tree) == Some(Nodes(root))
    {
      hide LoadNode, BodiesGraft;
      ok := true;
      for i := 0 to |order|
        invariant Valid()
        invariant !ok ==> LoadNode(env, tree).None? || !BodiesGraft(tree)
      {
        if HoleAt(root, order[i]) {
          var done := LookInto(order[i]);
          ok := ok && done;
        }
      }
      if Full(root) {
        FullForced(root);
      }
    }
  }

  /** Looks into placeholders until none is left: gives what loading everything at once
      gives, or fails if a put-off body cannot be grafted. */
  method LookEverywhere(t: LazyTree) returns (r: Option<LNode>)
    requires t.Valid()
    modifies t
    ensures t.Valid() && r == if BodiesGraft(t.tree) then LoadNode(t.env, t.tree) else None
  {
    hide LoadNode, BodiesGraft;
    while !Full(t.root)
      invariant t.Valid()
      decreases Weight(t.root)
    {
      var ok := t.LookInto(FirstHole(t.root));
      if !ok {
        return None;
      }
    }
    FullForced(t.root);
    return Some(Nodes(t.root));
  }

  // ---------- which sons are put off ----------

  /** Is it the son of a routine in the place of the body, the seventh, and neither absent nor
      an empty node? */
  predicate IsBody(kind: NodeKind, idx: nat, t: Tree)
  {
    kind.NkRoutineDef? && idx == 6 && t.Branch? && t.tag.KindTag? && t.tag.node != NkEmpty && t.tag.node != NkNone
  }

  lemma {:induction false} HolesAmong(env: Env, kind: NodeKind, idx: nat, ts: seq<Tree>)
    requires LazySons(env, kind, idx, ts).Some?
    ensures var ps := LazySons(env, kind, idx, ts).value.0;
      |ps| == |ts| && forall i | 0 <= i < |ts| ::
        (ps[i].Hole? <==> IsBody(kind, idx + i, ts[i])) && (ps[i].Hole? ==> ps[i].body == ts[i] && KindTag(ps[i].kind) == ts[i].tag)
    decreases |ts|
  {
    hide LoadNode, IsLocalName, LoadTypeRef, LoadFlags, Enter;
    if ts != [] {
      var ps := LazySons(env, kind, idx, ts).value.0;
      var next := if Deferred(kind, idx, ts[0]) then env else LazyThread(env, ts[0]).value.1;
      HolesAmong(next, kind, idx + 1, ts[1..]);
      forall i | 0 <= i < |ts|
        ensures (ps[i].Hole? <==> IsBody(kind, idx + i, ts[i])) && (ps[i].Hole? ==> ps[i].body == ts[i] && KindTag(ps[i].kind) == ts[i].tag)
      {
        if i > 0 {
          assert ts[i] == ts[1..][i - 1] && ps[i] == LazySons(next, kind, idx + 1, ts[1..]).value.0[i - 1];
        }
      }
    }
  }

  /** Of a node that has sons, exactly the body of a routine is put off. */
  lemma BodiesPutOff(env: Env, kind: NodeKind, flags: Tree, typ: Tree, sons: seq<Tree>)
    requires kind.NkRoutineDef? || kind == NkLambda || kind == NkDo || kind == NkFormalParams || kind.NkInner?
    requires LazyThread(env, Branch(KindTag(kind), [flags, typ] + sons)).Some?
    ensures var p := LazyThread(env, Branch(KindTag(kind), [flags, typ] + sons)).value.0;
      && p.Inner? && p.kind == kind && |p.sons| == |sons|
      && forall i | 0 <= i < |sons| ::
           (p.sons[i].Hole? <==> IsBody(kind, i, sons[i])) && (p.sons[i].Hole? ==> p.sons[i].body == sons[i] && KindTag(p.sons[i].kind) == sons[i].tag)
  {
    hide LoadNode, LoadTypeRef, LoadFlags, LazySons;
    var t := Branch(KindTag(kind), [flags, typ] + sons);
    assert t.kids[2..] == sons;
    HolesAmong(env, kind, 0, sons);
  }

  /** The bodies that can be grafted are those without a payload. */
  lemma KindsThatGraft(k: NodeKind)
    ensures Graftable(k) <==>
      !(k == NkNone || k == NkEmpty || k == NkIdent || k == NkSym || k == NkCharLit || k.NkIntLit? || k.NkUIntLit? || k.NkFloatLit? || k.NkStrLit?)
  {
  }
}
