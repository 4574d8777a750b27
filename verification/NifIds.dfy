/** Identities of symbols and types: the two halves of an id, the counters that the loader
    and the backend draw items from, and the generators that number symbols and types and
    tell equal names apart. */
module NifIds {
  import opened Integers
  import opened Options

  // ---------- ids ----------

  const BACKEND_BIT := 0x4000_0000
  const MODULE_SHIFT := 0x100_0000
  const PACKAGE_MODULE := -3

  datatype ItemId = ItemId(moduleBits: int, item: int)

  predicate IsModule(home: int) { home < BACKEND_BIT }

  function MakeId(home: int, item: int): ItemId
    requires IsModule(home)
  {
    ItemId(home, item)
  }

  /** An id of the backend: bit 30 of the module half is set. */
  function MakeBackendId(home: nat, item: int): ItemId
    requires IsModule(home)
  {
    ItemId(home + BACKEND_BIT, item)
  }

  function ModuleOf(id: ItemId): int
  {
    if id.moduleBits >= BACKEND_BIT then id.moduleBits - BACKEND_BIT else id.moduleBits
  }

  predicate IsBackendMinted(id: ItemId) { id.moduleBits >= BACKEND_BIT }

  function DerivedFieldId(source: ItemId): ItemId { ItemId(source.moduleBits, -Abs(source.item)) }

  predicate MatchesDerivedFieldId(field: ItemId, source: ItemId)
  {
    field.moduleBits == source.moduleBits && field.item == -Abs(source.item)
  }

  function ToId(id: ItemId): int { id.moduleBits * MODULE_SHIFT + id.item }

  /** Two ids pack into the same number exactly if their items are as many strides apart as
      their modules are the other way round. So different ids with items less than a stride
      apart never do. */
  lemma ToIdTellsApart(a: ItemId, b: ItemId)
    ensures ToId(a) == ToId(b) <==> a.item - b.item == (b.moduleBits - a.moduleBits) * MODULE_SHIFT
    ensures Abs(a.item - b.item) < MODULE_SHIFT ==> (ToId(a) == ToId(b) <==> a == b)
  {
  }

  /** The id of a field derived from a captured local is recognised from the local and from
      the derived id itself, and from no other id with a positive item. */
  lemma DerivedFieldsAreTold(source: ItemId, other: ItemId)
    requires source.item > 0 && other.item > 0
    ensures MatchesDerivedFieldId(DerivedFieldId(source), DerivedFieldId(source))
    ensures MatchesDerivedFieldId(DerivedFieldId(source), other) <==> other == source
    ensures DerivedFieldId(source) != other
  {
  }

  // ---------- the loader's counters ----------

  datatype Counters = Counters(sym: nat, typ: nat)

  /** What a stage has minted so far for the loaded modules. */
  class DecodeContext {
    /** The first free item that each module's file records. */
    const files: map<nat, nat>
    var mods: map<nat, Counters>
    ghost var syms: set<(nat, nat)>
    ghost var types: set<(nat, nat)>

    /** The minted items of a module are exactly those above its file's and up to its
        counter. */
    ghost predicate Valid()
      reads this
    {
      && (forall m | m in mods :: IsModule(m) && m in files && files[m] <= mods[m].sym && files[m] <= mods[m].typ)
      && (forall m: nat, i: nat :: (m, i) in syms <==> m in mods && files[m] < i <= mods[m].sym)
      && (forall m: nat, i: nat :: (m, i) in types <==> m in mods && files[m] < i <= mods[m].typ)
    }

    constructor (files: map<nat, nat>)
      ensures Valid() && this.files == files && mods == map[] && syms == {} && types == {}
    {
      this.files, this.mods, this.syms, this.types := files, map[], {}, {};
    }

    /** Loads a module's file unless it is loaded already or a reload is demanded. A reload
        resets the counters: the books are right afterwards if and only if nothing has been
        minted for the module. */
    method ModuleId(m: nat, always: bool) returns (ok: bool)
      requires Valid() && IsModule(m)
      modifies this`mods
      ensures ok <==> (m in old(mods) && !always) || m in files
      ensures mods == if ok && (m !in old(mods) || always) then old(mods)[m := Counters(files[m], files[m])] else old(mods)
      ensures Valid() <==> (ok && always ==> forall i: nat :: (m, i) !in syms && (m, i) !in types)
    {
      ghost var before := mods;
      ok := true;
      if m !in mods || always {
        if m !in files {
          return false;
        }
        mods := mods[m := Counters(files[m], files[m])];
        if m in before {
          assert (m, files[m] + 1) in syms <==> files[m] < before[m].sym;
          assert (m, files[m] + 1) in types <==> files[m] < before[m].typ;
        }
      }
    }

    /** Mints an item for a symbol of a loaded module: the next value of its counter. If the
        books are right, the item is new and above what the file uses. */
    method NextSymId(m: nat, backend: bool) returns (id: ItemId)
      requires m in mods && IsModule(m)
      modifies this`mods, this`syms
      ensures mods == old(mods)[m := Counters(old(mods)[m].sym + 1, old(mods)[m].typ)] && syms == old(syms) + {(m, mods[m].sym)}
      ensures id.item == mods[m].sym && ModuleOf(id) == m && IsBackendMinted(id) == backend
      ensures old(Valid()) ==> Valid() && m in files && id.item > files[m] && (m, id.item) !in old(syms)
    {
      var item := mods[m].sym + 1;
      mods := mods[m := mods[m].(sym := item)];
      syms := syms + {(m, item)};
      id := if backend then MakeBackendId(m, item) else MakeId(m, item);
    }

    method NextBackendSymItem(m: nat) returns (item: int)
      requires Valid()
      modifies this`mods, this`syms
      ensures Valid() && (item == -1 <==> m !in old(mods)) && item >= -1
      ensures m !in old(mods) ==> mods == old(mods) && syms == old(syms)
      ensures m in old(mods) ==> m in files && item > files[m] && (m, item) !in old(syms) && syms == old(syms) + {(m, item)}
      ensures m in old(mods) ==> item == old(mods)[m].sym + 1 && mods == old(mods)[m := Counters(item, old(mods)[m].typ)]
    {
      if m !in mods {
        return -1;
      }
      item := mods[m].sym + 1;
      mods := mods[m := mods[m].(sym := item)];
      syms := syms + {(m, item)};
    }

    method NextBackendTypeItem(m: nat) returns (item: int)
      modifies this`mods, this`types
      ensures (item == -1 <==> m !in old(mods)) && item >= -1
      ensures m !in old(mods) ==> mods == old(mods) && types == old(types)
      ensures m in old(mods) ==> item == old(mods)[m].typ + 1 && types == old(types) + {(m, item)}
      ensures m in old(mods) ==> mods == old(mods)[m := Counters(old(mods)[m].sym, item)]
      ensures old(Valid()) ==> Valid() && (m in old(mods) ==> m in files && item > files[m] && (m, item) !in old(types))
    {
      if m !in mods {
        return -1;
      }
      item := mods[m].typ + 1;
      mods := mods[m := mods[m].(typ := item)];
      types := types + {(m, item)};
    }

    /** The first free item that the next stage's file records for a module. */
    function LoweredSeed(m: nat): nat
      reads this
    {
      if m !in mods then 0 else if mods[m].sym < mods[m].typ then mods[m].typ else mods[m].sym
    }
  }

  /** After a forced reload the next item of a symbol is one that exists already if and only
      if any had been minted for the module; likewise for types. */
  method ReloadRepeats(c: DecodeContext, m: nat, backend: bool) returns (sym: ItemId, typ: int)
    requires c.Valid() && m in c.mods
    modifies c
    ensures (m, sym.item) in old(c.syms) <==> exists i: nat :: (m, i) in old(c.syms)
    ensures typ >= 0 && ((m, typ) in old(c.types) <==> exists i: nat :: (m, i) in old(c.types))
  {
    ghost var syms, types := c.syms, c.types;
    var ok := c.ModuleId(m, true);
    sym := c.NextSymId(m, backend);
    typ := c.NextBackendTypeItem(m);
    assert forall i: nat :: (m, i) in syms ==> (m, c.files[m] + 1) in syms;
    assert forall i: nat :: (m, i) in types ==> (m, c.files[m] + 1) in types;
  }

  /** The files of the next stage record the counters that this stage ends with. */
  ghost predicate CarriedForward(earlier: DecodeContext, later: DecodeContext)
    reads earlier
  {
    forall m | m in earlier.mods && m in later.files :: later.files[m] == earlier.LoweredSeed(m)
  }

  /** Every item of a later stage lies above every item of the earlier stage, symbols and
      types alike. */
  lemma LaterStagesAbove(earlier: DecodeContext, later: DecodeContext, m: nat, i: nat, j: nat)
    requires earlier.Valid() && later.Valid() && CarriedForward(earlier, later)
    requires (m, i) in earlier.syms || (m, i) in earlier.types
    requires (m, j) in later.syms || (m, j) in later.types
    ensures i < j
  {
  }

  // ---------- any interleaving of loads and mints ----------

  datatype Event = Load(m: nat) | LoaderSym(m: nat, backend: bool) | BackendSym(m: nat) | BackendType(m: nat)

  datatype Minted = SymItem(m: nat, item: nat) | TypeItem(m: nat, item: nat)

  ghost predicate Exists(x: Minted, syms: set<(nat, nat)>, types: set<(nat, nat)>)
  {
    match x
    case SymItem(m, item) => (m, item) in syms
    case TypeItem(m, item) => (m, item) in types
  }

  ghost predicate Distinct(minted: seq<Minted>)
  {
    forall i, j | 0 <= i < j < |minted| :: minted[i] != minted[j]
  }

  lemma StillDistinct(minted: seq<Minted>, more: seq<Minted>, syms: set<(nat, nat)>, types: set<(nat, nat)>)
    requires Distinct(minted) && |more| <= 1
    requires (forall x | x in minted :: Exists(x, syms, types)) && (forall x | x in more :: !Exists(x, syms, types))
    ensures Distinct(minted + more)
  {
    hide Exists;
    forall i, j | 0 <= i < j < |minted + more| ensures (minted + more)[i] != (minted + more)[j] {
      if j >= |minted| {
        assert (minted + more)[i] in minted && (minted + more)[j] in more;
      }
    }
  }

  /** Carries out loads and mints in the given order; what asks for a module that is not
      loaded or has no file mints nothing. No item is minted twice, and every item lies
      above what the module's file uses. */
  method Interleave(c: DecodeContext, events: seq<Event>) returns (minted: seq<Minted>)
    requires c.Valid() && forall e | e in events :: IsModule(e.m)
    modifies c`mods, c`syms, c`types
    ensures c.Valid() && Distinct(minted)
    ensures forall x | x in minted :: x.m in c.files && x.item > c.files[x.m]
    ensures forall x | x in minted :: !Exists(x, old(c.syms), old(c.types)) && Exists(x, c.syms, c.types)
  {
    minted := [];
    for k := 0 to |events|
      invariant c.Valid() && old(c.syms) <= c.syms && old(c.types) <= c.types && Distinct(minted)
      invariant forall x | x in minted :: x.m in c.files && x.item > c.files[x.m]
      invariant forall x | x in minted :: !Exists(x, old(c.syms), old(c.types)) && Exists(x, c.syms, c.types)
    {
      ghost var syms, types := c.syms, c.types;
      var more := Perform(c, events[k]);
      StillDistinct(minted, more, syms, types);
      minted := minted + more;
    }
  }

  method Perform(c: DecodeContext, e: Event) returns (minted: seq<Minted>)
    requires c.Valid() && IsModule(e.m)
    modifies c`mods, c`syms, c`types
    ensures c.Valid() && |minted| <= 1 && old(c.syms) <= c.syms && old(c.types) <= c.types
    ensures forall x | x in minted :: x.m in c.files && x.item > c.files[x.m]
    ensures forall x | x in minted :: !Exists(x, old(c.syms), old(c.types)) && Exists(x, c.syms, c.types)
    ensures !e.Load? && e.m in old(c.mods) ==> |minted| == 1
  {
    minted := [];
    match e
    case Load(m) =>
      var _ := c.ModuleId(m, false);
    case LoaderSym(m, backend) =>
      if m in c.mods {
        var id := c.NextSymId(m, backend);
        minted := [SymItem(m, id.item)];
      }
    case BackendSym(m) =>
      var item := c.NextBackendSymItem(m);
      if item >= 0 { minted := [SymItem(m, item)]; }
    case BackendType(m) =>
      var item := c.NextBackendTypeItem(m);
      if item >= 0 { minted := [TypeItem(m, item)]; }
  }

  // ---------- generators ----------

  /** Numbers the symbols and types of one module and counts how often each name is used. */
  class IdGenerator {
    const home: int
    const backendMinted: bool
    /** The name that the module itself has taken. */
    const reserved: Option<string>
    var symId: int
    var typeId: nat
    var disambTable: map<string, nat>
    ghost var made: set<(string, nat)>

    /** The pairs handed out are exactly the counted ones, without the module's own. */
    ghost predicate Valid()
      reads this
    {
      && IsModule(home) && (backendMinted ==> home >= 0)
      && (reserved.Some? ==> reserved.value in disambTable && disambTable[reserved.value] >= 1)
      && (forall n, d: nat :: (n, d) in made <==> n in disambTable && d < disambTable[n] && !(reserved == Some(n) && d == 0))
    }

    constructor FromModule(home: nat, item: int, name: string)
      requires IsModule(home)
      ensures Valid() && made == {} && reserved == Some(name) && this.home == home && !backendMinted && symId == item && typeId == 0
    {
      this.home, backendMinted, reserved := home, false, Some(name);
      symId, typeId, disambTable, made := item, 0, map[name := 1], {};
    }

    constructor ForBackend(home: nat, name: string)
      requires IsModule(home)
      ensures Valid() && made == {} && reserved == Some(name) && this.home == home && backendMinted && symId == 0 && typeId == 0
    {
      this.home, backendMinted, reserved := home, true, Some(name);
      symId, typeId, disambTable, made := 0, 0, map[name := 1], {};
    }

    constructor ForPackage(nextIdWillBe: int)
      ensures Valid() && made == {} && reserved == None && home == PACKAGE_MODULE == -3 && !backendMinted && symId == nextIdWillBe - 1
    {
      home, backendMinted, reserved := PACKAGE_MODULE, false, None;
      symId, typeId, disambTable, made := nextIdWillBe - 1, 0, map[], {};
    }

    /** A front end counts on its own; a backend draws from the loader's counter, and counts
        on its own only for a module that is not loaded. */
    method NextSymId(program: DecodeContext) returns (id: ItemId)
      requires Valid() && program.Valid()
      modifies this`symId, program`mods, program`syms
      ensures Valid() && program.Valid() && ModuleOf(id) == home && IsBackendMinted(id) == backendMinted
      ensures if backendMinted && home in old(program.mods) then
          symId == old(symId) && (home, id.item) !in old(program.syms) && program.syms == old(program.syms) + {(home, id.item)}
          && id.item == old(program.mods[home].sym) + 1 && program.mods == old(program.mods)[home := Counters(id.item, old(program.mods[home].typ))]
        else symId == old(symId) + 1 == id.item && program.syms == old(program.syms) && program.mods == old(program.mods)
    {
      if backendMinted {
        var item := program.NextBackendSymItem(home);
        if item >= 0 {
          return MakeBackendId(home, item);
        }
      }
      symId := symId + 1;
      id := if backendMinted then MakeBackendId(home, symId) else MakeId(home, symId);
    }

    method NextTypeId(program: DecodeContext) returns (id: ItemId)
      requires Valid() && program.Valid()
      modifies this`typeId, program`mods, program`types
      ensures Valid() && program.Valid() && ModuleOf(id) == home && IsBackendMinted(id) == backendMinted
      ensures if backendMinted && home in old(program.mods) then
          typeId == old(typeId) && (home, id.item) !in old(program.types) && program.types == old(program.types) + {(home, id.item)}
          && id.item == old(program.mods[home].typ) + 1 && program.mods == old(program.mods)[home := Counters(old(program.mods[home].sym), id.item)]
        else typeId == old(typeId) + 1 == id.item && program.types == old(program.types) && program.mods == old(program.mods)
    {
      if backendMinted {
        var item := program.NextBackendTypeItem(home);
        if item >= 0 {
          return MakeBackendId(home, item);
        }
      }
      typeId := typeId + 1;
      id := if backendMinted then MakeBackendId(home, typeId) else MakeId(home, typeId);
    }

    /** A new symbol: an id, and the number that tells it from the other symbols of its
        name. No pair of name and number is handed out twice, and the module's own never. */
    method NewSym(name: string, program: DecodeContext) returns (id: ItemId, disamb: nat)
      requires Valid() && program.Valid()
      modifies this`symId, this`disambTable, this`made, program`mods, program`syms
      ensures Valid() && program.Valid() && ModuleOf(id) == home && IsBackendMinted(id) == backendMinted
      ensures (name, disamb) !in old(made) && made == old(made) + {(name, disamb)} && !(reserved == Some(name) && disamb == 0)
      ensures forall d: nat | d < disamb :: (name, d) in old(made) || (reserved == Some(name) && d == 0)
      ensures program.mods.Keys == old(program.mods).Keys
      ensures if backendMinted && home in old(program.mods) then
          symId == old(symId) && id.item >= 0 && (home, id.item) !in old(program.syms) && program.syms == old(program.syms) + {(home, id.item)}
        else id.item == old(symId) + 1 == symId && program.syms == old(program.syms)
    {
      id := NextSymId(program);
      disamb := if name in disambTable then disambTable[name] else 0;
      disambTable := disambTable[name := disamb + 1];
      made := made + {(name, disamb)};
    }
  }

  // ---------- a backend that mints before its module is loaded ----------

  /** A backend generator counts on its own before its module is loaded. Afterwards it hands
      out the early id again, among any number of draws, if and only if the early item lies
      above what the module's file uses and the draws get that far. */
  method EarlySym(gen: IdGenerator, program: DecodeContext, draws: nat) returns (early: ItemId, later: seq<ItemId>)
    requires gen.Valid() && program.Valid() && gen.backendMinted && gen.home !in program.mods && gen.home in program.files
    modifies gen`symId, program`mods, program`syms
    ensures gen.Valid() && program.Valid() && early.item == old(gen.symId) + 1 && |later| == draws
    ensures early in later <==> program.files[gen.home] < early.item <= program.files[gen.home] + draws
  {
    early := gen.NextSymId(program);
    var seed := program.files[gen.home];
    var ok := program.ModuleId(gen.home, false);
    later := [];
    for i := 0 to draws
      invariant gen.Valid() && program.Valid() && gen.home in program.mods && program.mods[gen.home].sym == seed + i && |later| == i
      invariant forall k | 0 <= k < i :: later[k] == MakeBackendId(gen.home, seed + 1 + k)
    {
      var id := gen.NextSymId(program);
      later := later + [id];
    }
    AmongDraws(gen.home, seed, early, later);
  }

  /** The same for types. */
  method EarlyType(gen: IdGenerator, program: DecodeContext, draws: nat) returns (early: ItemId, later: seq<ItemId>)
    requires gen.Valid() && program.Valid() && gen.backendMinted && gen.home !in program.mods && gen.home in program.files
    modifies gen`typeId, program`mods, program`types
    ensures gen.Valid() && program.Valid() && early.item == old(gen.typeId) + 1 && |later| == draws
    ensures early in later <==> program.files[gen.home] < early.item <= program.files[gen.home] + draws
  {
    early := gen.NextTypeId(program);
    var seed := program.files[gen.home];
    var ok := program.ModuleId(gen.home, false);
    later := [];
    for i := 0 to draws
      invariant gen.Valid() && program.Valid() && gen.home in program.mods && program.mods[gen.home].typ == seed + i && |later| == i
      invariant forall k | 0 <= k < i :: later[k] == MakeBackendId(gen.home, seed + 1 + k)
    {
      var id := gen.NextTypeId(program);
      later := later + [id];
    }
    AmongDraws(gen.home, seed, early, later);
  }

  lemma AmongDraws(home: nat, seed: nat, id: ItemId, draws: seq<ItemId>)
    requires IsModule(home) && id == MakeBackendId(home, id.item)
    requires forall k | 0 <= k < |draws| :: draws[k] == MakeBackendId(home, seed + 1 + k)
    ensures id in draws <==> seed < id.item <= seed + |draws|
  {
    if seed < id.item <= seed + |draws| {
      assert draws[id.item - seed - 1] == id;
    }
  }

  /** With a file that uses nothing the first draw repeats the first early id. */
  method EarlyMintRepeats(m: nat, name: string) returns (before: ItemId, after: ItemId)
    requires IsModule(m)
    ensures before == after
  {
    var program := new DecodeContext(map[m := 0]);
    var gen := new IdGenerator.ForBackend(m, name);
    var later;
    before, later := EarlySym(gen, program, 1);
    after := later[0];
    assert before in later;
  }

  /** How ids are packed: the backend's mark is bit 30 of the module half, and a module has room
      for 2^24 items. */
  lemma IdLayout(home: nat, item: int)
    requires IsModule(home)
    ensures MakeId(home, item) == ItemId(home, item) && MakeBackendId(home, item) == ItemId(home + 1073741824, item)
    ensures IsModule(1073741823) && !IsModule(1073741824)
    ensures ModuleOf(MakeId(home, item)) == ModuleOf(MakeBackendId(home, item)) == home
    ensures !IsBackendMinted(MakeId(home, item)) && IsBackendMinted(MakeBackendId(home, item))
    ensures ToId(MakeId(home, item)) == home * 16777216 + item
  {
  }
}
