/** The hash tables of the compiler: integers to integers, and ids to anything. Both are one
    algorithm over different keys. */
module IdTables {
  import opened ProbeSequence
  import opened ProbeChains
  import Integers
  import NifIds
  import opened SetSizes

  const GROWTH_FACTOR := 2
  const START_BITS := 3

  /** Is the table too full for one more key? */
  predicate MustRehash(length: nat, counter: nat)
    requires length > counter
  {
    length * 2 < counter * 3 || length - counter < 4
  }

  /** It is not as long as it is filled to two thirds at most, with at least four free slots. */
  lemma RoomLeft(length: nat, counter: nat)
    requires length > counter
    ensures !MustRehash(length, counter) <==> 3 * counter <= 2 * length && counter + 4 <= length
  {
  }

  datatype Entry<K, V> = Entry(key: K, val: V)

  /** What a table knows of its keys: which one marks a free slot, what identifies a key,
      and its hash. */
  datatype Keys<!K, !I> = Keys(isNil: K -> bool, ident: K -> I, hash: I -> int)

  function SlotOf<K, I, V>(keys: Keys<K, I>, e: Entry<K, V>): Slot<I>
  {
    if keys.isNil(e.key) then Free else Taken(keys.ident(e.key))
  }

  function SlotsOf<K, I, V>(keys: Keys<K, I>, d: seq<Entry<K, V>>): (s: seq<Slot<I>>)
    ensures |s| == |d|
  {
    seq(|d|, i requires 0 <= i < |d| => SlotOf(keys, d[i]))
  }

  /** The entries are those of the map. */
  ghost predicate Holds<K, I, V>(keys: Keys<K, I>, d: seq<Entry<K, V>>, m: map<I, V>)
  {
    && (forall i | 0 <= i < |d| && !keys.isNil(d[i].key) :: keys.ident(d[i].key) in m && m[keys.ident(d[i].key)] == d[i].val)
    && (forall x | x in m :: Taken(x) in SlotsOf(keys, d))
  }

  ghost predicate TableOk<K, I, V>(keys: Keys<K, I>, d: seq<Entry<K, V>>, bits: nat, m: map<I, V>)
  {
    && |d| == Pow2(bits) && WellPlaced(SlotsOf(keys, d), keys.hash, bits) && DistinctKeys(SlotsOf(keys, d))
    && Holds(keys, d, m)
  }

  lemma TableHasFree<K, I, V>(keys: Keys<K, I>, d: seq<Entry<K, V>>, bits: nat, m: map<I, V>)
    requires TableOk(keys, d, bits, m) && |m| < |d|
    ensures Free in SlotsOf(keys, d)
  {
    var s := SlotsOf(keys, d);
    forall x | x in s && x.Taken? ensures x.key in m {
      var i :| 0 <= i < |s| && s[i] == x;
      assert s[i] == SlotOf(keys, d[i]);
    }
    assert |m.Keys| == |m|;
    SomeFree(s, m.Keys);
  }

  /** A new key in the first free slot of its probes. */
  lemma EntryPlaced<K, I, V>(keys: Keys<K, I>, d: seq<Entry<K, V>>, bits: nat, m: map<I, V>, key: K, val: V, j: nat)
    requires TableOk(keys, d, bits, m) && !keys.isNil(key) && keys.ident(key) !in m && j < Pow2(bits)
    requires Chain(SlotsOf(keys, d), Start(keys.hash(keys.ident(key)), bits), j, bits)
    requires keys.isNil(d[Probe(Start(keys.hash(keys.ident(key)), bits), j, bits)].key)
    ensures var i := Probe(Start(keys.hash(keys.ident(key)), bits), j, bits);
      TableOk(keys, d[i := Entry(key, val)], bits, m[keys.ident(key) := val])
  {
    hide Probe, Pow2, Start, WellPlaced, DistinctKeys, Chain;
    var id := keys.ident(key);
    var slot := Probe(Start(keys.hash(id), bits), j, bits);
    var s, e := SlotsOf(keys, d), d[slot := Entry(key, val)];
    var n := m[id := val];
    assert forall i | 0 <= i < |s| :: s[i] == SlotOf(keys, d[i]);
    Placed(s, keys.hash, bits, id, j);
    assert SlotsOf(keys, e) == s[slot := Taken(id)];
    forall x | x in n ensures Taken(x) in SlotsOf(keys, e) {
      if x == id {
        assert SlotsOf(keys, e)[slot] == Taken(x);
      } else {
        var i :| 0 <= i < |s| && s[i] == Taken(x);
        assert SlotsOf(keys, e)[i] == Taken(x);
      }
    }
    forall i | 0 <= i < |e| && !keys.isNil(e[i].key)
      ensures keys.ident(e[i].key) in n && n[keys.ident(e[i].key)] == e[i].val
    {
      if i != slot {
        assert keys.ident(d[i].key) in m;
      }
    }
  }

  /** Another value for a key that is there. */
  lemma EntryUpdated<K, I, V>(keys: Keys<K, I>, d: seq<Entry<K, V>>, bits: nat, m: map<I, V>, i: nat, val: V)
    requires TableOk(keys, d, bits, m) && i < |d| && !keys.isNil(d[i].key)
    ensures TableOk(keys, d[i := Entry(d[i].key, val)], bits, m[keys.ident(d[i].key) := val])
  {
    hide Pow2, WellPlaced;
    var id, e := keys.ident(d[i].key), d[i := Entry(d[i].key, val)];
    var s := SlotsOf(keys, d);
    assert SlotsOf(keys, e) == s;
    assert s[i] == Taken(id);
    forall j | 0 <= j < |e| && !keys.isNil(e[j].key)
      ensures keys.ident(e[j].key) in m[id := val] && m[id := val][keys.ident(e[j].key)] == e[j].val
    {
      assert s[j] == SlotOf(keys, d[j]);
    }
  }

  /** Two maps with the same entries are equal. */
  lemma HoldsOnce<K, I, V>(keys: Keys<K, I>, d: seq<Entry<K, V>>, m: map<I, V>, n: map<I, V>)
    requires Holds(keys, d, m) && Holds(keys, d, n)
    ensures m == n
  {
    var s := SlotsOf(keys, d);
    forall x | x in m ensures x in n && m[x] == n[x] {
      var i :| 0 <= i < |s| && s[i] == Taken(x);
      assert s[i] == SlotOf(keys, d[i]);
    }
    forall x | x in n ensures x in m {
      var i :| 0 <= i < |s| && s[i] == Taken(x);
      assert s[i] == SlotOf(keys, d[i]);
    }
  }

  lemma HoldsMore<K, I, V>(keys: Keys<K, I>, d: seq<Entry<K, V>>, i: nat, m: map<I, V>)
    requires i < |d| && Holds(keys, d[..i], m) && DistinctKeys(SlotsOf(keys, d))
    ensures keys.isNil(d[i].key) ==> Holds(keys, d[..i + 1], m)
    ensures !keys.isNil(d[i].key) ==> keys.ident(d[i].key) !in m && Holds(keys, d[..i + 1], m[keys.ident(d[i].key) := d[i].val])
  {
    var s, t := SlotsOf(keys, d[..i]), SlotsOf(keys, d[..i + 1]);
    assert t == s + [SlotOf(keys, d[i])];
    var all := SlotsOf(keys, d);
    assert all[..i] == s && all[i] == SlotOf(keys, d[i]);
    if !keys.isNil(d[i].key) {
      var id := keys.ident(d[i].key);
      assert forall j | 0 <= j < |s| :: all[j] == s[j] && s[j] != all[i];
      forall j | 0 <= j <= i && !keys.isNil(d[j].key)
        ensures keys.ident(d[j].key) in m[id := d[i].val] && m[id := d[i].val][keys.ident(d[j].key)] == d[j].val
      {
        if j < i {
          assert d[..i][j] == d[j] && all[j] == SlotOf(keys, d[j]);
        }
      }
    }
  }

  lemma HoldsNothing<K, I, V>(keys: Keys<K, I>, d: seq<Entry<K, V>>, bits: nat)
    requires |d| == Pow2(bits) && forall i | 0 <= i < |d| :: keys.isNil(d[i].key)
    ensures TableOk(keys, d, bits, map[])
  {
    hide Pow2;
    NothingPlaced(SlotsOf(keys, d), keys.hash, bits);
  }

  lemma PartOfMap<I, V>(part: map<I, V>, whole: map<I, V>)
    requires part.Keys <= whole.Keys
    ensures |part| <= |whole|
  {
    SubsetSize(part.Keys, whole.Keys);
    assert |part.Keys| == |part| && |whole.Keys| == |whole|;
  }

  /** Walks along the probes of a key in an array of entries with a free slot: gives the slot
      of the key, or the free slot at the end of its probes. */
  method Search<K, I(==), V>(keys: Keys<K, I>, data: array<Entry<K, V>>, bits: nat, id: I, ghost m: map<I, V>)
    returns (h: nat, found: bool, ghost j: nat)
    requires TableOk(keys, data[..], bits, m) && |m| < data.Length
    ensures h < data.Length && found == (id in m)
    ensures found ==> !keys.isNil(data[h].key) && keys.ident(data[h].key) == id && m[id] == data[h].val
    ensures !found ==> keys.isNil(data[h].key) && j < Pow2(bits) && h == Probe(Start(keys.hash(id), bits), j, bits)
    ensures !found ==> Chain(SlotsOf(keys, data[..]), Start(keys.hash(id), bits), j, bits)
  {
    hide Pow2, Start, Probe, WellPlaced, DistinctKeys;
    ghost var s := SlotsOf(keys, data[..]);
    TableHasFree(keys, data[..], bits, m);
    h := Start(keys.hash(id), bits);
    ghost var start := h;
    StartProbe(start, bits);
    j := 0;
    while !keys.isNil(data[h].key)
      invariant h < data.Length && h == Probe(start, j, bits) && Passed(s, start, j, bits, id) && j <= Pow2(bits)
      decreases Pow2(bits) - j
    {
      assert s[h] == SlotOf(keys, data[h]);
      if keys.ident(data[h].key) == id {
        return h, true, j;
      }
      SearchGoesOn(s, start, j, bits);
      NextProbe(start, j, bits);
      h := NextTry(h, bits);
      j := j + 1;
    }
    assert s[h] == SlotOf(keys, data[h]);
    SearchGoesOn(s, start, j, bits);
    SearchStops(s, keys.hash, bits, id, j);
    found := false;
  }

  lemma StartProbe(start: nat, bits: nat)
    requires start < Pow2(bits)
    ensures Probe(start, 0, bits) == start
  {
  }

  lemma NextProbe(start: nat, j: nat, bits: nat)
    requires start < Pow2(bits)
    ensures Probe(start, j + 1, bits) == NextTry(Probe(start, j, bits), bits)
  {
  }

  lemma TableParts<K, I, V>(keys: Keys<K, I>, d: seq<Entry<K, V>>, bits: nat, m: map<I, V>)
    requires TableOk(keys, d, bits, m)
    ensures |d| == Pow2(bits) && DistinctKeys(SlotsOf(keys, d)) && Holds(keys, d, m)
  {
  }

  lemma TableHas<K, I, V>(keys: Keys<K, I>, d: seq<Entry<K, V>>, bits: nat, m: map<I, V>, i: nat)
    requires TableOk(keys, d, bits, m) && i < |d| && !keys.isNil(d[i].key)
    ensures keys.ident(d[i].key) in m
  {
  }

  lemma NextPower(bits: nat)
    ensures Pow2(bits + 1) == 2 * Pow2(bits)
  {
  }

  lemma NothingHeld<K, I, V>(keys: Keys<K, I>, d: seq<Entry<K, V>>)
    ensures Holds(keys, d[..0], map[])
  {
  }

  class Table<!K, !I(==), V> {
    const keys: Keys<K, I>
    const nil: K
    const zero: V
    var counter: nat
    /** The size of the table is this power of two. */
    var bits: nat
    var data: array<Entry<K, V>>
    ghost var model: map<I, V>

    ghost predicate Valid()
      reads this, data
    {
      keys.isNil(nil) && TableOk(keys, data[..], bits, model) && counter == |model| && counter < data.Length
    }

    constructor (keys: Keys<K, I>, nil: K, zero: V)
      requires keys.isNil(nil)
      ensures Valid() && model == map[] && this.keys == keys && this.zero == zero && fresh(data) && data.Length == 8
    {
      this.keys, this.nil, this.zero := keys, nil, zero;
      counter, bits, model := 0, START_BITS, map[];
      data := new Entry<K, V>[Pow2(START_BITS)](_ => Entry(nil, zero));
      new;
      HoldsNothing(keys, data[..], bits);
    }

    method RawGet(id: I) returns (index: int)
      requires Valid()
      ensures -1 <= index < data.Length && (index >= 0 <==> id in model)
      ensures index >= 0 ==> !keys.isNil(data[index].key) && keys.ident(data[index].key) == id && data[index].val == model[id]
    {
      hide TableOk;
      ghost var j;
      var h, found;
      h, found, j := Search(keys, data, bits, id, model);
      index := if found then h else -1;
    }

    /** The last value put for the key, or the default. */
    method Get(id: I) returns (val: V)
      requires Valid()
      ensures val == if id in model then model[id] else zero
    {
      hide TableOk;
      var index := RawGet(id);
      val := if index >= 0 then data[index].val else zero;
    }

    static method RawInsert(keys: Keys<K, I>, a: array<Entry<K, V>>, bits: nat, key: K, val: V, ghost m: map<I, V>)
      requires TableOk(keys, a[..], bits, m) && |m| < a.Length && !keys.isNil(key) && keys.ident(key) !in m
      modifies a
      ensures TableOk(keys, a[..], bits, m[keys.ident(key) := val])
    {
      hide TableOk, Pow2, Start, Probe;
      ghost var j;
      var h, found;
      h, found, j := Search(keys, a, bits, keys.ident(key), m);
      EntryPlaced(keys, a[..], bits, m, key, val, j);
      ghost var before := a[..];
      a[h] := Entry(key, val);
      assert a[..] == before[h := Entry(key, val)];
    }

    /** Puts every entry of a table into an empty one with more room. */
    static method MoveAll(keys: Keys<K, I>, from: array<Entry<K, V>>, bits: nat, ghost m: map<I, V>, into: array<Entry<K, V>>)
      requires TableOk(keys, from[..], bits, m) && |m| < into.Length && from != into
      requires TableOk(keys, into[..], bits + 1, map[])
      modifies into
      ensures TableOk(keys, into[..], bits + 1, m)
    {
      hide TableOk, Holds, Pow2, DistinctKeys;
      ghost var d := from[..];
      TableParts(keys, d, bits, m);
      ghost var moved: map<I, V> := map[];
      NothingHeld(keys, d);
      for i := 0 to from.Length
        invariant from[..] == d
        invariant TableOk(keys, into[..], bits + 1, moved) && Holds(keys, d[..i], moved) && moved.Keys <= m.Keys
      {
        HoldsMore(keys, d, i, moved);
        PartOfMap(moved, m);
        if !keys.isNil(from[i].key) {
          TableHas(keys, d, bits, m, i);
          RawInsert(keys, into, bits + 1, from[i].key, from[i].val, moved);
          moved := moved[keys.ident(d[i].key) := d[i].val];
        }
      }
      assert d[..from.Length] == d;
      HoldsOnce(keys, d, moved, m);
    }

    /** Doubles the table and puts every entry into its new place. */
    method Enlarge()
      requires Valid()
      modifies this`data, this`bits
      ensures Valid() && fresh(data) && data.Length == GROWTH_FACTOR * old(data.Length) && unchanged(old(data))
    {
      hide TableOk, Pow2;
      TableParts(keys, data[..], bits, model);
      var n := new Entry<K, V>[data.Length * GROWTH_FACTOR](_ => Entry(nil, zero));
      NextPower(bits);
      HoldsNothing(keys, n[..], bits + 1);
      MoveAll(keys, data, bits, model, n);
      data, bits := n, bits + 1;
    }

    /** Puts a value for a key; the reserved key cannot be put. */
    method Put(key: K, val: V)
      requires Valid() && !keys.isNil(key)
      modifies this, data
      ensures Valid() && model == old(model)[keys.ident(key) := val] && (data == old(data) || fresh(data))
    {
      hide TableOk, Pow2;
      var index := RawGet(keys.ident(key));
      if index >= 0 {
        EntryUpdated(keys, data[..], bits, model, index, val);
        ghost var before := data[..];
        data[index] := Entry(data[index].key, val);
        assert data[..] == before[index := Entry(before[index].key, val)];
        model := model[keys.ident(key) := val];
      } else {
        if MustRehash(data.Length, counter) {
          Enlarge();
        }
        RawInsert(keys, data, bits, key, val, model);
        model := model[keys.ident(key) := val];
        counter := counter + 1;
      }
    }

    /** The set's operation: says whether the key is there, and adds it if not. Without
        growth it goes into the free slot where the search ended. */
    method ContainsOrIncl(key: K, val: V) returns (known: bool)
      requires Valid() && !keys.isNil(key)
      modifies this, data
      ensures Valid() && known == (keys.ident(key) in old(model)) && (data == old(data) || fresh(data))
      ensures model == if known then old(model) else old(model)[keys.ident(key) := val]
    {
      hide TableOk, Pow2, Start, Probe;
      ghost var j;
      var h;
      h, known, j := Search(keys, data, bits, keys.ident(key), model);
      if !known {
        if MustRehash(data.Length, counter) {
          Enlarge();
          RawInsert(keys, data, bits, key, val, model);
        } else {
          EntryPlaced(keys, data[..], bits, model, key, val, j);
          ghost var before := data[..];
          data[h] := Entry(key, val);
          assert data[..] == before[h := Entry(key, val)];
        }
        model := model[keys.ident(key) := val];
        counter := counter + 1;
      }
    }
  }

  // ---------- the tables, and runs of puts ----------

  const INVALID_KEY := -0x8000_0000_0000_0000

  /** Integers to integers: the smallest integer marks a free slot. */
  function IntKeys(): Keys<int, int>
  {
    Keys((k: int) => k == INVALID_KEY, (k: int) => k, (k: int) => k)
  }

  /** Ids to anything: an id with module and item 0 marks a free slot, and what the id packs
      into identifies it. */
  function IdKeys(): Keys<NifIds.ItemId, int>
  {
    Keys((k: NifIds.ItemId) => NifIds.ModuleOf(k) == 0 && k.item == 0, (k: NifIds.ItemId) => NifIds.ToId(k), (i: int) => i)
  }

  /** Objects, compared by identity and hashed by anything; no object marks a free slot. */
  function ObjectKeys(hashNode: nat -> int): Keys<nat, nat>
  {
    Keys((k: nat) => k == 0, (k: nat) => k, hashNode)
  }

  /** The last of the puts for a key. */
  function LastPut<K, I(==), V>(keys: Keys<K, I>, puts: seq<(K, V)>, id: I, none: V): V
  {
    if puts == [] then none
    else
      var (key, val) := puts[|puts| - 1];
      if keys.ident(key) == id then val else LastPut(keys, puts[..|puts| - 1], id, none)
  }

  /** After any run of puts into a fresh table, looking a key up gives the last value put for
      it, or the default if none was. */
  method PutAll<K, I(==), V>(keys: Keys<K, I>, nil: K, zero: V, puts: seq<(K, V)>, id: I) returns (val: V)
    requires keys.isNil(nil) && forall p | p in puts :: !keys.isNil(p.0)
    ensures val == LastPut(keys, puts, id, zero)
  {
    var t := new Table(keys, nil, zero);
    for i := 0 to |puts|
      invariant t.Valid() && fresh(t) && fresh(t.data) && t.keys == keys && t.zero == zero
      invariant (if id in t.model then t.model[id] else zero) == LastPut(keys, puts[..i], id, zero)
    {
      assert puts[..i + 1][..i] == puts[..i];
      t.Put(puts[i].0, puts[i].1);
    }
    assert puts[..|puts|] == puts;
    val := t.Get(id);
  }

  /** The last of the puts for a key, told by the key itself. */
  function LastOf<K(==), V>(puts: seq<(K, V)>, key: K, none: V): V
  {
    if puts == [] then none
    else if puts[|puts| - 1].0 == key then puts[|puts| - 1].1
    else LastOf(puts[..|puts| - 1], key, none)
  }

  lemma {:induction false} LastPutIsLastOf<K, I, V>(keys: Keys<K, I>, puts: seq<(K, V)>, key: K, none: V)
    requires forall p | p in puts :: keys.ident(p.0) == keys.ident(key) <==> p.0 == key
    ensures LastPut(keys, puts, keys.ident(key), none) == LastOf(puts, key, none)
  {
    if puts != [] { LastPutIsLastOf(keys, puts[..|puts| - 1], key, none); }
  }

  method PutAllInts(puts: seq<(int, int)>, key: int) returns (val: int)
    requires forall p | p in puts :: p.0 != INVALID_KEY
    ensures val == LastOf(puts, key, INVALID_KEY)
  {
    LastPutIsLastOf(IntKeys(), puts, key, INVALID_KEY);
    val := PutAll(IntKeys(), INVALID_KEY, INVALID_KEY, puts, key);
  }

  /** A lookup by id finds the last put for an id that packs into the same number: for the
      id itself, as long as the items of all ids are less than a stride apart. */
  method PutAllIds<V>(zero: V, puts: seq<(NifIds.ItemId, V)>, key: NifIds.ItemId) returns (val: V)
    requires forall p | p in puts :: !(NifIds.ModuleOf(p.0) == 0 && p.0.item == 0)
    ensures val == LastPut(IdKeys(), puts, NifIds.ToId(key), zero)
    ensures (forall p | p in puts :: Integers.Abs(p.0.item - key.item) < NifIds.MODULE_SHIFT) ==> val == LastOf(puts, key, zero)
  {
    if forall p | p in puts :: Integers.Abs(p.0.item - key.item) < NifIds.MODULE_SHIFT {
      forall p | p in puts ensures NifIds.ToId(p.0) == NifIds.ToId(key) <==> p.0 == key {
        NifIds.ToIdTellsApart(p.0, key);
      }
      LastPutIsLastOf(IdKeys(), puts, key, zero);
    }
    val := PutAll(IdKeys(), NifIds.ItemId(0, 0), zero, puts, NifIds.ToId(key));
  }

  /** Whatever objects hash to, a lookup gives the last value put for the object. */
  method PutAllObjects<V>(hashNode: nat -> int, zero: V, puts: seq<(nat, V)>, key: nat) returns (val: V)
    requires forall p | p in puts :: p.0 != 0
    ensures val == LastOf(puts, key, zero)
  {
    LastPutIsLastOf(ObjectKeys(hashNode), puts, key, zero);
    val := PutAll(ObjectKeys(hashNode), 0, zero, puts, key);
  }
}
