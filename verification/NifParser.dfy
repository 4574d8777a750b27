/** Reading the token list back: the trees that a cursor walks over. */
module NifParser {
  import opened NifTokens
  import opened NifGraph
  import opened NifLoader
  import opened Options

  /** The tree at the front of the tokens, and what follows it. */
  function ReadTree(toks: seq<Tok>): (r: Option<(Tree, seq<Tok>)>)
    ensures r.Some? ==> |r.value.1| < |toks|
    decreases |toks|, 0
  {
    if toks == [] || toks[0].ParRi? then None
    else if toks[0].ParLe? then
      var (kids, rest) :- ReadKids(toks[1..]);
      Some((Branch(toks[0].tag, kids), rest))
    else Some((Atom(toks[0]), toks[1..]))
  }

  /** The trees up to a closing bracket, and what follows the bracket. */
  function ReadKids(toks: seq<Tok>): (r: Option<(seq<Tree>, seq<Tok>)>)
    ensures r.Some? ==> |r.value.1| < |toks|
    decreases |toks|, 1
  {
    if toks != [] && toks[0].ParRi? then Some(([], toks[1..]))
    else
      var (kid, rest) :- ReadTree(toks);
      var (kids, end) :- ReadKids(rest);
      Some(([kid] + kids, end))
  }

  /** A tree's tokens read back as the tree, whatever follows them. */
  lemma {:induction false} TreeReadsBack(t: Tree, rest: seq<Tok>)
    requires IsTree(t)
    ensures ReadTree(Flat(t) + rest) == Some((t, rest))
    decreases t, 0
  {
    match t
    case Atom(tok) =>
      assert ([tok] + rest)[1..] == rest;
    case Branch(tag, kids) =>
      KidsReadBack(kids, rest);
      assert (Flat(t) + rest)[1..] == FlatAll(kids) + ([ParRi] + rest);
  }

  lemma {:induction false} KidsReadBack(ts: seq<Tree>, rest: seq<Tok>)
    requires AreTrees(ts)
    ensures ReadKids(FlatAll(ts) + ([ParRi] + rest)) == Some((ts, rest))
    decreases ts, 1
  {
    if ts == [] {
      assert FlatAll(ts) + ([ParRi] + rest) == [ParRi] + rest;
      assert ([ParRi] + rest)[1..] == rest;
    } else {
      var after := FlatAll(ts[1..]) + ([ParRi] + rest);
      assert FlatAll(ts) + ([ParRi] + rest) == Flat(ts[0]) + after;
      TreeReadsBack(ts[0], after);
      KidsReadBack(ts[1..], rest);
      NoBracket(ts[0], after);
      assert [ts[0]] + ts[1..] == ts;
    }
  }

  lemma NoBracket(t: Tree, rest: seq<Tok>)
    requires IsTree(t)
    ensures !(Flat(t) + rest)[0].ParRi?
  {
    assert (Flat(t) + rest)[0] == Flat(t)[0];
  }

  /** Reads a node off the front of the tokens. */
  function ReadNode(env: Env, toks: seq<Tok>): Option<(LNode, seq<Tok>)>
  {
    var (t, rest) :- ReadTree(toks);
    var l :- LoadNode(env, t);
    Some((l, rest))
  }

  /** What was written for a node reads back as the node, and leaves exactly what follows;
      it cannot be read if and only if an `nkNone` was written in it. */
  lemma NodeReadsBack(g: Graph, env: Env, n: Node, forAst: bool, t: Tree, rest: seq<Tok>)
    requires GraphOk(g) && NodeOk(g, n, forAst) && IsTree(t) && NodeReads(g, env, n, forAst, t)
    ensures var r := ReadNode(env, Flat(t) + rest);
      if Loadable(g, n, forAst) then r.Some? && Matches(g, n, forAst, r.value.0) && r.value.1 == rest else r.None?
  {
    hide GraphOk, NodeOk, LoadNode, Matches, Loadable, Flat;
    TreeReadsBack(t, rest);
  }
}
