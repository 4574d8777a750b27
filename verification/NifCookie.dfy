/** The interface cookie: what the serializer feeds to the hash of a module's
    importer-visible surface, with the names that its own counters mint made harmless.

    A hash state is the sequence of atoms fed to it; `digest` stands for the hash. */
module NifCookie {
  import opened NifTokens
  import opened NifNames

  datatype NameText = Plain(name: string) | Ordinal(n: nat) | Structure(hex: string)

  datatype HashAtom = Content(tok: Tok) | NameAtom(def: bool, text: NameText)

  type Digest = seq<HashAtom> -> string

  /** What a cookie is computed from besides the hashed tokens: the module's own suffix
      and the tokens of the first definition of every type. */
  datatype Surface = Surface(self: string, tds: map<string, seq<Tok>>)

  predicate IsName(t: Tok) { t.Sym? || t.SymDef? }

  predicate ModuleLocal(self: string, name: string)
  {
    var sn := ParseName(name);
    sn.suffix == "" || sn.suffix == self
  }

  predicate TypeLike(name: string) { |name| >= 2 && name[..2] == "`t" }

  // ---------- pass 1: the names that get an ordinal ----------

  /** Is there a definition among the first `k` tokens? */
  predicate HasDef(toks: seq<Tok>, k: nat)
    requires k <= |toks|
  {
    exists i | 0 <= i < k :: toks[i].SymDef?
  }

  /** Does the definition at `k` get an ordinal? The first definition does not when it is
      to be kept literally. */
  predicate Numbered(self: string, toks: seq<Tok>, k: nat, keep: bool)
    requires k < |toks|
  {
    toks[k].SymDef? && !(keep && !HasDef(toks, k)) && ModuleLocal(self, toks[k].name)
  }

  /** The names with an ordinal among the first `k` tokens, in the order of their ordinals. */
  function DefsTo(self: string, toks: seq<Tok>, k: nat, keep: bool): (names: seq<string>)
    requires k <= |toks|
  {
    if k == 0 then []
    else
      var before := DefsTo(self, toks, k - 1, keep);
      if Numbered(self, toks, k - 1, keep) && toks[k - 1].name !in before then before + [toks[k - 1].name] else before
  }

  function Defs(self: string, toks: seq<Tok>, keep: bool): seq<string>
  {
    DefsTo(self, toks, |toks|, keep)
  }

  function IndexOf(names: seq<string>, name: string): (i: nat)
    requires name in names
    ensures i < |names| && names[i] == name
  {
    if names[0] == name then 0 else 1 + IndexOf(names[1..], name)
  }

  // ---------- pass 2: the atoms, without a memo ----------

  /** A reference that is replaced by the structure of the type it names. */
  predicate Expandable(self: string, defs: seq<string>, name: string)
  {
    name !in defs && TypeLike(name) && ModuleLocal(self, name)
  }

  function Expand(s: Surface, digest: Digest, name: string, busy: set<string>): NameText
    decreases s.tds.Keys - busy, 0
  {
    if name !in s.tds || name in busy then Plain(name)
    else
      assert s.tds.Keys - (busy + {name}) < s.tds.Keys - busy by {
        assert name in s.tds.Keys - busy;
      }
      Structure(digest(Atoms(s, digest, s.tds[name], false, busy + {name})))
  }

  function TextOf(s: Surface, digest: Digest, defs: seq<string>, name: string, busy: set<string>): NameText
    decreases s.tds.Keys - busy, 1
  {
    if name in defs then Ordinal(IndexOf(defs, name))
    else if Expandable(s.self, defs, name) then Expand(s, digest, name, busy)
    else Plain(name)
  }

  function AtomAt(s: Surface, digest: Digest, toks: seq<Tok>, keep: bool, busy: set<string>, i: nat): HashAtom
    requires i < |toks|
    decreases s.tds.Keys - busy, 2
  {
    match toks[i]
    case Sym(name) => NameAtom(false, TextOf(s, digest, Defs(s.self, toks, keep), name, busy))
    case SymDef(name) =>
      NameAtom(true, if keep && !HasDef(toks, i) then Plain(name)
                     else TextOf(s, digest, Defs(s.self, toks, keep), name, busy))
    case tok => Content(tok)
  }

  function Atoms(s: Surface, digest: Digest, toks: seq<Tok>, keep: bool, busy: set<string>): (r: seq<HashAtom>)
    ensures |r| == |toks|
    decreases s.tds.Keys - busy, 3
  {
    seq(|toks|, i requires 0 <= i < |toks| => AtomAt(s, digest, toks, keep, busy, i))
  }

  // ---------- acyclic type definitions ----------

  /** `rank` decreases along every reference from one type definition to another that an
      expansion follows: the references form no cycle, except from a definition to itself. */
  ghost predicate Ranked(s: Surface, rank: string -> nat)
  {
    forall name, t | name in s.tds && t in s.tds[name] && IsName(t)
                     && Expandable(s.self, Defs(s.self, s.tds[name], false), t.name) && t.name in s.tds ::
      rank(t.name) < rank(name)
  }

  ghost predicate Above(rank: string -> nat, busy: set<string>, n: nat)
  {
    forall b | b in busy :: rank(b) > n
  }

  /** Two sets of busy types under which every name of a region reads alike give the
      same atoms. */
  lemma AtomsAgree(s: Surface, digest: Digest, toks: seq<Tok>, keep: bool, busy: set<string>, busy': set<string>)
    requires var defs := Defs(s.self, toks, keep);
      forall t | t in toks && IsName(t) :: TextOf(s, digest, defs, t.name, busy) == TextOf(s, digest, defs, t.name, busy')
    ensures Atoms(s, digest, toks, keep, busy) == Atoms(s, digest, toks, keep, busy')
  {
    forall i | 0 <= i < |toks|
      ensures AtomAt(s, digest, toks, keep, busy, i) == AtomAt(s, digest, toks, keep, busy', i)
    {
      assert toks[i] in toks;
    }
  }

  /** Under a ranking the guard against cycles never fires. */
  lemma {:induction false} ExpandIgnoresBusy(s: Surface, digest: Digest, rank: string -> nat, name: string, busy: set<string>)
    requires Ranked(s, rank) && Above(rank, busy, rank(name))
    ensures Expand(s, digest, name, busy) == Expand(s, digest, name, {})
    decreases rank(name)
  {
    if name in s.tds {
      var toks := s.tds[name];
      var defs := Defs(s.self, toks, false);
      forall t | t in toks && IsName(t)
        ensures TextOf(s, digest, defs, t.name, busy + {name}) == TextOf(s, digest, defs, t.name, {} + {name})
      {
        if Expandable(s.self, defs, t.name) && t.name in s.tds {
          ExpandIgnoresBusy(s, digest, rank, t.name, busy + {name});
          ExpandIgnoresBusy(s, digest, rank, t.name, {} + {name});
        }
      }
      AtomsAgree(s, digest, toks, false, busy + {name}, {} + {name});
    }
  }

  // ---------- the hashing methods, with the memo ----------

  predicate RegionOk(flat: seq<Tok>, start: nat, end: nat, skipFrom: int, skipTo: int)
  {
    start <= end <= |flat| && (start <= skipFrom < end ==> skipFrom < skipTo <= end)
  }

  /** The tokens of flat[start..end], without flat[skipFrom..skipTo] if the skipped part
      lies in between. */
  function Region(flat: seq<Tok>, start: nat, end: nat, skipFrom: int, skipTo: int): seq<Tok>
    requires RegionOk(flat, start, end, skipFrom, skipTo)
  {
    if start <= skipFrom < end then flat[start..skipFrom] + flat[skipTo..end] else flat[start..end]
  }

  ghost predicate OrdsAre(ords: map<string, nat>, defs: seq<string>)
  {
    && (forall name :: name in ords <==> name in defs)
    && |ords| == |defs|
    && forall name | name in defs :: ords[name] == IndexOf(defs, name)
  }

  lemma IndexOfAppend(names: seq<string>, extra: string, name: string)
    requires name in names + [extra] && extra !in names
    ensures IndexOf(names + [extra], name) == if name in names then IndexOf(names, name) else |names|
  {
    if names != [] {
      assert (names + [extra])[1..] == names[1..] + [extra];
      if names[0] != name {
        IndexOfAppend(names[1..], extra, name);
      }
    }
  }

  lemma OrdsGrow(ords: map<string, nat>, defs: seq<string>, name: string)
    requires OrdsAre(ords, defs) && name !in defs
    ensures OrdsAre(ords[name := |ords|], defs + [name])
  {
    forall m | m in defs + [name]
      ensures ords[name := |ords|][m] == IndexOf(defs + [name], m)
    {
      IndexOfAppend(defs, name, m);
    }
  }

  class CookieCtx {
    const self: string
    ghost const surface: Surface
    const flat: seq<Tok>
    const starts: map<string, nat>
    const digest: Digest
    var memo: map<string, NameText>
    var expanding: set<string>

    /** The recorded start of a type definition is where its tokens stand. */
    ghost predicate Valid()
    {
      && surface.self == self && starts.Keys == surface.tds.Keys
      && forall name | name in starts ::
           starts[name] < |flat| && flat[starts[name]..TreeEnd(flat, starts[name])] == surface.tds[name]
    }

    /** Every memoised text is the one the memo-free recursion gives. */
    ghost predicate Sound()
      reads this
    {
      forall name | name in memo :: name in surface.tds && memo[name] == Expand(surface, digest, name, {})
    }

    constructor (self: string, flat: seq<Tok>, starts: map<string, nat>, digest: Digest, ghost surface: Surface)
      ensures this.self == self && this.surface == surface && this.flat == flat && this.starts == starts && this.digest == digest
      ensures memo == map[] && expanding == {}
    {
      this.self, this.flat, this.starts, this.digest := self, flat, starts, digest;
      this.surface := surface;
      memo, expanding := map[], {};
    }

    /** With acyclic definitions the memo changes nothing, whatever was expanded before:
        `vouch` says that the definitions are ranked and the memo was sound. */
    method ExpandTd(name: string, ghost rank: string -> nat, ghost vouch: bool) returns (text: NameText)
      requires Valid()
      requires vouch ==> Ranked(surface, rank) && (name in surface.tds ==> Above(rank, expanding, rank(name)))
      requires vouch ==> Sound()
      modifies this`memo, this`expanding
      ensures expanding == old(expanding)
      ensures vouch ==> Sound() && text == Expand(surface, digest, name, {})
      decreases surface.tds.Keys - expanding, 0
    {
      if name in memo { return memo[name]; }
      if name !in starts || name in expanding {
        return Plain(name);
      }
      ghost var busy := expanding;
      if vouch { TypeRegionRanked(surface, rank, name, busy); }
      expanding := expanding + {name};
      assert surface.tds.Keys - expanding < surface.tds.Keys - busy by {
        assert name in surface.tds.Keys - busy;
      }
      var end := NextTree(flat, starts[name]);
      var sub := HashRegion(starts[name], end, -1, -1, false, rank, vouch);
      expanding := expanding - {name};
      assert expanding == busy;
      text := Structure(digest(sub));
      if vouch { TypeText(surface, digest, rank, name); }
      memo := memo[name := text];
    }

    method HashToken(ghost toks: seq<Tok>, ghost k: nat, t: Tok, ghost keep: bool, first: bool, ords: map<string, nat>,
                     ghost rank: string -> nat, ghost vouch: bool)
      returns (first': bool, atom: HashAtom)
      requires Valid() && k < |toks| && t == toks[k]
      requires first == (keep && !HasDef(toks, k)) && OrdsAre(ords, Defs(surface.self, toks, keep))
      requires vouch ==> Ranked(surface, rank) && RegionRanked(surface, toks, keep, rank, expanding)
      requires vouch ==> Sound()
      modifies this`memo, this`expanding
      ensures expanding == old(expanding)
      ensures first' == (keep && !HasDef(toks, k + 1))
      ensures vouch ==> Sound() && atom == AtomAt(surface, digest, toks, keep, {}, k)
      decreases surface.tds.Keys - expanding, 1
    {
      first', atom := first, Content(t);
      if IsName(t) {
        assert t in toks;
        if t.SymDef? && first {
          first' := false;
          atom := NameAtom(true, Plain(t.name));
        } else if t.name in ords {
          atom := NameAtom(t.SymDef?, Ordinal(ords[t.name]));
        } else if TypeLike(t.name) && ModuleLocal(self, t.name) {
          var text := ExpandTd(t.name, rank, vouch);
          atom := NameAtom(t.SymDef?, text);
        } else {
          atom := NameAtom(t.SymDef?, Plain(t.name));
        }
      }
    }

    /** Pass 2 over one uninterrupted run of the region. */
    method HashRun(from: nat, to: nat, ghost toks: seq<Tok>, ghost k: nat, ghost keep: bool, first: bool,
                   ords: map<string, nat>, ghost rank: string -> nat, ghost vouch: bool)
      returns (first': bool, atoms: seq<HashAtom>)
      requires Valid() && from <= to <= |flat| && At(toks, k, flat[from..to])
      requires first == (keep && !HasDef(toks, k)) && OrdsAre(ords, Defs(surface.self, toks, keep))
      requires vouch ==> Ranked(surface, rank) && RegionRanked(surface, toks, keep, rank, expanding)
      requires vouch ==> Sound()
      modifies this`memo, this`expanding
      ensures expanding == old(expanding)
      ensures |atoms| == to - from && first' == (keep && !HasDef(toks, k + (to - from)))
      ensures vouch ==> Sound() && At(Atoms(surface, digest, toks, keep, {}), k, atoms)
      decreases surface.tds.Keys - expanding, 2
    {
      ghost var goal := Atoms(surface, digest, toks, keep, {});
      first', atoms := first, [];
      assert At(goal, k, []) && k + (to - from) <= |toks|;
      hide Ranked, RegionRanked, Defs, OrdsAre, At, HasDef, Sound;
      var i := from;
      while i < to
        invariant from <= i <= to && |atoms| == i - from
        invariant expanding == old(expanding)
        invariant first' == (keep && !HasDef(toks, k + (i - from)))
        invariant vouch ==> Sound()
        invariant vouch ==> At(goal, k, atoms)
      {
        AtIndex(toks, k, flat[from..to], i - from);
        assert flat[from..to][i - from] == flat[i];
        var atom;
        first', atom := HashToken(toks, k + (i - from), flat[i], keep, first', ords, rank, vouch);
        if vouch { AtAppend(goal, k, atoms, atom); }
        atoms := atoms + [atom];
        i := i + 1;
      }
    }

    /** The atoms that one region contributes. */
    method HashRegion(start: nat, end: nat, skipFrom: int, skipTo: int, keepFirst: bool,
                      ghost rank: string -> nat, ghost vouch: bool)
      returns (atoms: seq<HashAtom>)
      requires Valid() && RegionOk(flat, start, end, skipFrom, skipTo)
      requires vouch ==> Ranked(surface, rank)
      requires vouch ==> RegionRanked(surface, Region(flat, start, end, skipFrom, skipTo), keepFirst, rank, expanding)
      requires vouch ==> Sound()
      modifies this`memo, this`expanding
      ensures expanding == old(expanding)
      ensures vouch ==> Sound()
      ensures vouch ==> atoms == Atoms(surface, digest, Region(flat, start, end, skipFrom, skipTo), keepFirst, {})
      decreases surface.tds.Keys - expanding, 4
    {
      ghost var toks := Region(flat, start, end, skipFrom, skipTo);
      hide Ranked, RegionRanked, Sound;
      if start <= skipFrom < end {
        AtSplit(toks, 0, flat[start..skipFrom], flat[skipTo..end]);
        atoms := HashTwoRuns(start, skipFrom, skipTo, end, toks, keepFirst, rank, vouch);
      } else {
        AtSplit(toks, 0, flat[start..end], flat[end..end]);
        atoms := HashTwoRuns(start, end, end, end, toks, keepFirst, rank, vouch);
      }
    }

    /** Both passes over the runs flat[a..b] and flat[c..d], the tokens of a region. */
    method HashTwoRuns(a: nat, b: nat, c: nat, d: nat, ghost toks: seq<Tok>, keep: bool,
                       ghost rank: string -> nat, ghost vouch: bool)
      returns (atoms: seq<HashAtom>)
      requires Valid() && a <= b <= c <= d <= |flat| && |toks| == (b - a) + (d - c)
      requires At(toks, 0, flat[a..b]) && At(toks, b - a, flat[c..d])
      requires vouch ==> Ranked(surface, rank) && RegionRanked(surface, toks, keep, rank, expanding)
      requires vouch ==> Sound()
      modifies this`memo, this`expanding
      ensures expanding == old(expanding)
      ensures vouch ==> Sound()
      ensures vouch ==> atoms == Atoms(surface, digest, toks, keep, {})
      decreases surface.tds.Keys - expanding, 3
    {
      hide Ranked, RegionRanked, OrdsAre, Sound, DefsTo, Defs;
      var ords := NumberTwoRuns(self, flat, a, b, c, d, toks, keep);
      var first, before := HashRun(a, b, toks, 0, keep, keep, ords, rank, vouch);
      var after;
      first, after := HashRun(c, d, toks, b - a, keep, first, ords, rank, vouch);
      atoms := before + after;
      if vouch { AtSplit(Atoms(surface, digest, toks, keep, {}), 0, before, after); }
    }
  }

  method NumberToken(self: string, ghost toks: seq<Tok>, ghost k: nat, t: Tok, ghost keep: bool, first: bool, ords: map<string, nat>)
    returns (first': bool, ords': map<string, nat>)
    requires k < |toks| && t == toks[k]
    requires first == (keep && !HasDef(toks, k)) && OrdsAre(ords, DefsTo(self, toks, k, keep))
    ensures first' == (keep && !HasDef(toks, k + 1)) && OrdsAre(ords', DefsTo(self, toks, k + 1, keep))
  {
    first', ords' := first, ords;
    if t.SymDef? {
      if first {
        first' := false;
      } else if ModuleLocal(self, t.name) && t.name !in ords {
        OrdsGrow(ords, DefsTo(self, toks, k, keep), t.name);
        ords' := ords[t.name := |ords|];
      }
    }
  }

  /** Pass 1 over one uninterrupted run of the region: the ordinals of what it defines. */
  method NumberRun(self: string, flat: seq<Tok>, from: nat, to: nat, ghost toks: seq<Tok>, ghost k: nat, ghost keep: bool,
                   first: bool, ords: map<string, nat>)
    returns (first': bool, ords': map<string, nat>)
    requires from <= to <= |flat| && At(toks, k, flat[from..to])
    requires first == (keep && !HasDef(toks, k)) && OrdsAre(ords, DefsTo(self, toks, k, keep))
    ensures first' == (keep && !HasDef(toks, k + (to - from)))
    ensures OrdsAre(ords', DefsTo(self, toks, k + (to - from), keep))
  {
    assert k + (to - from) <= |toks|;
    hide OrdsAre, At, HasDef;
    first', ords' := first, ords;
    var i := from;
    while i < to
      invariant from <= i <= to
      invariant first' == (keep && !HasDef(toks, k + (i - from)))
      invariant OrdsAre(ords', DefsTo(self, toks, k + (i - from), keep))
    {
      AtIndex(toks, k, flat[from..to], i - from);
      assert flat[from..to][i - from] == flat[i];
      first', ords' := NumberToken(self, toks, k + (i - from), flat[i], keep, first', ords');
      i := i + 1;
    }
  }

  lemma NothingNumbered(self: string, toks: seq<Tok>, keep: bool)
    ensures OrdsAre(map[], DefsTo(self, toks, 0, keep)) && !HasDef(toks, 0)
  {
  }

  method NumberTwoRuns(self: string, flat: seq<Tok>, a: nat, b: nat, c: nat, d: nat, ghost toks: seq<Tok>, keep: bool)
    returns (ords: map<string, nat>)
    requires a <= b <= c <= d <= |flat| && |toks| == (b - a) + (d - c)
    requires At(toks, 0, flat[a..b]) && At(toks, b - a, flat[c..d])
    ensures OrdsAre(ords, Defs(self, toks, keep))
  {
    hide OrdsAre, DefsTo, HasDef, At;
    NothingNumbered(self, toks, keep);
    var first;
    first, ords := NumberRun(self, flat, a, b, toks, 0, keep, keep, map[]);
    first, ords := NumberRun(self, flat, c, d, toks, b - a, keep, first, ords);
  }

  /** Every type that a region refers to ranks below all the types being expanded. */
  ghost predicate RegionRanked(s: Surface, toks: seq<Tok>, keep: bool, rank: string -> nat, busy: set<string>)
  {
    forall t | t in toks && IsName(t) && Expandable(s.self, Defs(s.self, toks, keep), t.name) && t.name in s.tds ::
      Above(rank, busy, rank(t.name))
  }

  lemma TypeRegionRanked(s: Surface, rank: string -> nat, name: string, busy: set<string>)
    requires Ranked(s, rank) && name in s.tds && Above(rank, busy, rank(name))
    ensures RegionRanked(s, s.tds[name], false, rank, busy + {name})
  {
  }

  /** Under a ranking a type reads as its own region hashed on its own. */
  lemma TypeText(s: Surface, digest: Digest, rank: string -> nat, name: string)
    requires Ranked(s, rank) && name in s.tds
    ensures Expand(s, digest, name, {}) == Structure(digest(Atoms(s, digest, s.tds[name], false, {})))
  {
    var toks := s.tds[name];
    var defs := Defs(s.self, toks, false);
    forall t | t in toks && IsName(t)
      ensures TextOf(s, digest, defs, t.name, {} + {name}) == TextOf(s, digest, defs, t.name, {})
    {
      if Expandable(s.self, defs, t.name) && t.name in s.tds {
        ExpandIgnoresBusy(s, digest, rank, t.name, {} + {name});
      }
    }
    AtomsAgree(s, digest, toks, false, {} + {name}, {});
  }

  // ---------- alpha-invariance ----------

  type Renaming = string -> string

  function RenameTok(r: Renaming, t: Tok): Tok
  {
    match t
    case Sym(name) => Sym(r(name))
    case SymDef(name) => SymDef(r(name))
    case _ => t
  }

  function RenameToks(r: Renaming, toks: seq<Tok>): seq<Tok>
  {
    seq(|toks|, i requires 0 <= i < |toks| => RenameTok(r, toks[i]))
  }

  ghost predicate NamesAmong(toks: seq<Tok>, names: set<string>)
  {
    forall t | t in toks && IsName(t) :: t.name in names
  }

  /** `s'` is the surface `s` with its names renamed: different names stay different, and
      whether a name is module-local or a type's is not changed. */
  ghost predicate Renames(r: Renaming, s: Surface, s': Surface, names: set<string>)
  {
    && s'.self == s.self
    && (forall m, n | m in names && n in names :: r(m) == r(n) ==> m == n)
    && (forall n | n in names :: ModuleLocal(s.self, r(n)) == ModuleLocal(s.self, n) && TypeLike(r(n)) == TypeLike(n))
    && (forall n | n in names :: n in s.tds <==> r(n) in s'.tds)
    && (forall n | n in names && n in s.tds ::
          NamesAmong(s.tds[n], names) && s'.tds[r(n)] == RenameToks(r, s.tds[n]))
  }

  /** Only names that the region defines, and references that it expands, are renamed;
      a first definition that is kept is not. */
  ghost predicate Harmless(r: Renaming, s: Surface, toks: seq<Tok>, keep: bool)
  {
    && (forall t | t in toks && IsName(t) && r(t.name) != t.name ::
          t.name in Defs(s.self, toks, keep) || (Expandable(s.self, Defs(s.self, toks, keep), t.name) && t.name in s.tds))
    && (forall i | 0 <= i < |toks| && toks[i].SymDef? && keep && !HasDef(toks, i) :: r(toks[i].name) == toks[i].name)
  }

  ghost predicate ImageOf(r: Renaming, names: set<string>, busy: set<string>, busy': set<string>)
  {
    forall n | n in names :: n in busy <==> r(n) in busy'
  }

  ghost predicate MapsTo(r: Renaming, a: seq<string>, b: seq<string>)
  {
    |a| == |b| && forall i | 0 <= i < |a| :: b[i] == r(a[i])
  }

  ghost predicate DefsAmong(a: seq<string>, names: set<string>)
  {
    forall n | n in a :: n in names
  }

  lemma HasDefRenamed(r: Renaming, toks: seq<Tok>, k: nat)
    requires k <= |toks|
    ensures HasDef(RenameToks(r, toks), k) <==> HasDef(toks, k)
  {
    if HasDef(toks, k) {
      var i :| 0 <= i < k && toks[i].SymDef?;
      assert RenameToks(r, toks)[i].SymDef?;
    }
  }

  lemma {:induction false} DefsRenamed(r: Renaming, s: Surface, s': Surface, names: set<string>, toks: seq<Tok>, k: nat, keep: bool)
    requires Renames(r, s, s', names) && NamesAmong(toks, names) && k <= |toks|
    ensures MapsTo(r, DefsTo(s.self, toks, k, keep), DefsTo(s.self, RenameToks(r, toks), k, keep))
    ensures DefsAmong(DefsTo(s.self, toks, k, keep), names)
  {
    if k > 0 {
      DefsRenamed(r, s, s', names, toks, k - 1, keep);
      HasDefRenamed(r, toks, k - 1);
      assert toks[k - 1] in toks;
      var before, before' := DefsTo(s.self, toks, k - 1, keep), DefsTo(s.self, RenameToks(r, toks), k - 1, keep);
      if IsName(toks[k - 1]) {
        InRenamed(r, names, before, before', toks[k - 1].name);
      }
    }
  }

  ghost predicate InjectiveOn(r: Renaming, names: set<string>)
  {
    forall m, n | m in names && n in names :: r(m) == r(n) ==> m == n
  }

  lemma InRenamed(r: Renaming, names: set<string>, a: seq<string>, b: seq<string>, n: string)
    requires InjectiveOn(r, names) && MapsTo(r, a, b) && DefsAmong(a, names) && n in names
    ensures n in a <==> r(n) in b
  {
    if n in a {
      var i :| 0 <= i < |a| && a[i] == n;
      assert b[i] == r(n);
    }
    if r(n) in b {
      var i :| 0 <= i < |b| && b[i] == r(n);
      assert a[i] in a;
    }
  }

  lemma {:induction false} IndexRenamed(r: Renaming, names: set<string>, a: seq<string>, b: seq<string>, n: string)
    requires InjectiveOn(r, names) && MapsTo(r, a, b) && DefsAmong(a, names) && n in names && n in a && r(n) in b
    ensures IndexOf(a, n) == IndexOf(b, r(n))
  {
    assert a[0] in a;
    if a[0] != n {
      assert forall m | m in a[1..] :: m in a;
      IndexRenamed(r, names, a[1..], b[1..], n);
    }
  }

  lemma {:induction false} ExpandRenamed(r: Renaming, s: Surface, s': Surface, names: set<string>, digest: Digest,
                                         rank: string -> nat, name: string, busy: set<string>, busy': set<string>)
    requires Renames(r, s, s', names) && Ranked(s, rank)
    requires forall n | n in names && n in s.tds :: Harmless(r, s, s.tds[n], false)
    requires name in names && name in s.tds && Above(rank, busy, rank(name)) && ImageOf(r, names, busy, busy')
    ensures Expand(s', digest, r(name), busy') == Expand(s, digest, name, busy)
    decreases s.tds.Keys - busy, 0
  {
    assert name !in busy;
    assert s.tds.Keys - (busy + {name}) < s.tds.Keys - busy by {
      assert name in s.tds.Keys - busy;
    }
    TypeRegionRanked(s, rank, name, busy);
    AtomsRenamed(r, s, s', names, digest, rank, s.tds[name], false, busy + {name}, busy' + {r(name)});
  }

  lemma {:induction false} TextRenamed(r: Renaming, s: Surface, s': Surface, names: set<string>, digest: Digest,
                                       rank: string -> nat, toks: seq<Tok>, keep: bool, t: Tok,
                                       busy: set<string>, busy': set<string>)
    requires Renames(r, s, s', names) && Ranked(s, rank)
    requires forall n | n in names && n in s.tds :: Harmless(r, s, s.tds[n], false)
    requires NamesAmong(toks, names) && t in toks && IsName(t) && Harmless(r, s, toks, keep)
    requires RegionRanked(s, toks, keep, rank, busy) && ImageOf(r, names, busy, busy')
    ensures TextOf(s', digest, Defs(s.self, RenameToks(r, toks), keep), r(t.name), busy')
         == TextOf(s, digest, Defs(s.self, toks, keep), t.name, busy)
    decreases s.tds.Keys - busy, 1
  {
    var defs, defs' := Defs(s.self, toks, keep), Defs(s.self, RenameToks(r, toks), keep);
    DefsRenamed(r, s, s', names, toks, |toks|, keep);
    InRenamed(r, names, defs, defs', t.name);
    if t.name in defs {
      IndexRenamed(r, names, defs, defs', t.name);
    } else if Expandable(s.self, defs, t.name) && t.name in s.tds {
      ExpandRenamed(r, s, s', names, digest, rank, t.name, busy, busy');
    }
  }

  /** Renaming what a region defines, and the types that it expands, does not change the
      atoms that it contributes. */
  lemma {:induction false} AtomsRenamed(r: Renaming, s: Surface, s': Surface, names: set<string>, digest: Digest,
                                        rank: string -> nat, toks: seq<Tok>, keep: bool, busy: set<string>, busy': set<string>)
    requires Renames(r, s, s', names) && Ranked(s, rank)
    requires forall n | n in names && n in s.tds :: Harmless(r, s, s.tds[n], false)
    requires NamesAmong(toks, names) && Harmless(r, s, toks, keep)
    requires RegionRanked(s, toks, keep, rank, busy) && ImageOf(r, names, busy, busy')
    ensures Atoms(s', digest, RenameToks(r, toks), keep, busy') == Atoms(s, digest, toks, keep, busy)
    decreases s.tds.Keys - busy, 2
  {
    var toks' := RenameToks(r, toks);
    forall i | 0 <= i < |toks|
      ensures AtomAt(s', digest, toks', keep, busy', i) == AtomAt(s, digest, toks, keep, busy, i)
    {
      var t := toks[i];
      HasDefRenamed(r, toks, i);
      if IsName(t) {
        TextRenamed(r, s, s', names, digest, rank, toks, keep, t, busy, busy');
      }
    }
  }

  // ---------- what the atoms still tell ----------

  ghost predicate Injective(digest: Digest)
  {
    forall a, b :: digest(a) == digest(b) ==> a == b
  }

  lemma AtomMeans(s: Surface, digest: Digest, toks: seq<Tok>, keep: bool, i: nat)
    requires i < |toks|
    ensures var atom, t := AtomAt(s, digest, toks, keep, {}, i), toks[i];
      if IsName(t)
      then atom.NameAtom? && atom.def == t.SymDef?
        && (atom.text.Plain? ==> atom.text.name == t.name)
        && (atom.text.Ordinal? ==> t.name in Defs(s.self, toks, keep) && atom.text.n == IndexOf(Defs(s.self, toks, keep), t.name))
      else atom == Content(t)
  {
    hide Defs, Expandable;
    if IsName(toks[i]) {
      TextMeans(s, digest, Defs(s.self, toks, keep), toks[i].name, {});
    }
  }

  lemma TextMeans(s: Surface, digest: Digest, defs: seq<string>, name: string, busy: set<string>)
    ensures var text := TextOf(s, digest, defs, name, busy);
      (text.Plain? ==> text.name == name) && (text.Ordinal? ==> name in defs && text.n == IndexOf(defs, name))
  {
    assert var text := Expand(s, digest, name, busy); !text.Ordinal? && (text.Plain? ==> text.name == name);
  }

  /** The converse of invariance: equal atoms mean equal tokens, up to a consistent
      renaming of what the regions define and up to the structure of expanded types. */
  lemma AtomsTell(s: Surface, digest: Digest, a: seq<Tok>, b: seq<Tok>, keep: bool, i: nat, j: nat)
    requires Atoms(s, digest, a, keep, {}) == Atoms(s, digest, b, keep, {}) && i < |a| && j < |a|
    ensures |a| == |b| && IsName(a[i]) == IsName(b[i]) && (!IsName(a[i]) ==> a[i] == b[i])
    ensures IsName(a[i]) ==> a[i].SymDef? == b[i].SymDef?
    ensures IsName(a[i]) && AtomAt(s, digest, a, keep, {}, i).text.Plain? ==> a[i].name == b[i].name
    ensures IsName(a[i]) && IsName(a[j]) && IsName(b[i]) && IsName(b[j]) ==>
      var x, y := AtomAt(s, digest, a, keep, {}, i).text, AtomAt(s, digest, a, keep, {}, j).text;
      x.Ordinal? && y.Ordinal? ==> (a[i].name == a[j].name <==> b[i].name == b[j].name)
  {
    assert |Atoms(s, digest, a, keep, {})| == |Atoms(s, digest, b, keep, {})|;
    assert AtomAt(s, digest, a, keep, {}, i) == Atoms(s, digest, b, keep, {})[i] == AtomAt(s, digest, b, keep, {}, i);
    assert AtomAt(s, digest, a, keep, {}, j) == Atoms(s, digest, b, keep, {})[j] == AtomAt(s, digest, b, keep, {}, j);
    hide AtomAt, Atoms, Defs;
    AtomMeans(s, digest, a, keep, i);
    AtomMeans(s, digest, a, keep, j);
    AtomMeans(s, digest, b, keep, i);
    AtomMeans(s, digest, b, keep, j);
  }
}
