/** Open addressing: which keys stand where in a table of slots, and why searching along a
    key's probes finds exactly what was put in. */
module ProbeChains {
  import opened ProbeSequence

  datatype Slot<I> = Free | Taken(key: I)

  /** The slot where the probes for a hash start. */
  function Start(h: int, k: nat): (r: nat)
    ensures r < Pow2(k)
  {
    Low(h, k)
  }

  /** The first `j` probes from `start` meet no free slot. */
  ghost predicate Chain<I>(s: seq<Slot<I>>, start: nat, j: nat, k: nat)
    requires |s| == Pow2(k) && start < Pow2(k)
  {
    forall m: nat | m < j :: s[Probe(start, m, k)].Taken?
  }

  /** The slot `i` is the end of an unbroken chain of probes from `start`. */
  ghost predicate Reached<I>(s: seq<Slot<I>>, start: nat, i: nat, k: nat)
    requires |s| == Pow2(k) && start < Pow2(k)
  {
    exists j: nat :: j < Pow2(k) && Probe(start, j, k) == i && Chain(s, start, j, k)
  }

  /** Each key stands at the end of an unbroken chain from its hash slot. */
  ghost predicate WellPlaced<I>(s: seq<Slot<I>>, hash: I -> int, k: nat)
    requires |s| == Pow2(k)
  {
    forall i: nat | i < |s| && s[i].Taken? :: Reached(s, Start(hash(s[i].key), k), i, k)
  }

  ghost predicate DistinctKeys<I>(s: seq<Slot<I>>)
  {
    forall i, j | 0 <= i < j < |s| && s[i].Taken? && s[j].Taken? :: s[i].key != s[j].key
  }

  /** The first `j` probes meet other keys only. */
  ghost predicate Passed<I>(s: seq<Slot<I>>, start: nat, j: nat, k: nat, key: I)
    requires |s| == Pow2(k) && start < Pow2(k)
  {
    forall m: nat | m < j :: s[Probe(start, m, k)].Taken? && s[Probe(start, m, k)].key != key
  }

  /** A search that has met other keys only, and then a free slot, proves the key absent. */
  lemma SearchStops<I>(s: seq<Slot<I>>, hash: I -> int, k: nat, key: I, j: nat)
    requires |s| == Pow2(k) && WellPlaced(s, hash, k)
    requires Passed(s, Start(hash(key), k), j, k, key) && s[Probe(Start(hash(key), k), j, k)].Free?
    ensures Taken(key) !in s
  {
    hide Probe, Pow2, Start;
    var start := Start(hash(key), k);
    assert forall i: nat | i < |s| && s[i] == Taken(key) :: Reached(s, start, i, k);
  }

  /** A search that has met taken slots only is within its first round, if a slot is free. */
  lemma SearchGoesOn<I>(s: seq<Slot<I>>, start: nat, j: nat, k: nat)
    requires |s| == Pow2(k) && start < Pow2(k) && Chain(s, start, j, k) && Free in s
    ensures j < Pow2(k)
  {
    hide Probe, Pow2;
    var i: nat :| i < |s| && s[i] == Free;
    EverySlotProbed(start, k, i);
  }

  /** Putting a new key into the first free slot of its probes keeps everything in place. */
  lemma Placed<I>(s: seq<Slot<I>>, hash: I -> int, k: nat, key: I, j: nat)
    requires |s| == Pow2(k) && WellPlaced(s, hash, k) && DistinctKeys(s) && Taken(key) !in s
    requires j < Pow2(k) && Chain(s, Start(hash(key), k), j, k) && s[Probe(Start(hash(key), k), j, k)].Free?
    ensures var t := s[Probe(Start(hash(key), k), j, k) := Taken(key)]; WellPlaced(t, hash, k) && DistinctKeys(t)
  {
    hide Probe, Pow2, Start;
    var slot := Probe(Start(hash(key), k), j, k);
    var t := s[slot := Taken(key)];
    assert forall i | 0 <= i < |s| && s[i].Taken? :: s[i] in s && t[i] == s[i];
    forall i: nat | i < |t| && t[i].Taken? ensures Reached(t, Start(hash(t[i].key), k), i, k) {
      var start := Start(hash(t[i].key), k);
      if i == slot {
        assert Chain(t, start, j, k);
      } else {
        assert Reached(s, start, i, k);
        var m: nat :| m < Pow2(k) && Probe(start, m, k) == i && Chain(s, start, m, k);
        assert Chain(t, start, m, k);
      }
    }
  }

  lemma NothingPlaced<I>(s: seq<Slot<I>>, hash: I -> int, k: nat)
    requires |s| == Pow2(k) && forall i | 0 <= i < |s| :: s[i].Free?
    ensures WellPlaced(s, hash, k) && DistinctKeys(s)
  {
  }

  // ---------- counting ----------

  ghost function KeysIn<I>(s: seq<Slot<I>>): set<I>
  {
    set x | x in s && x.Taken? :: x.key
  }

  /** A table with more slots than keys has a free slot. */
  lemma {:induction false} SomeFree<I>(s: seq<Slot<I>>, keys: set<I>)
    requires KeysIn(s) <= keys && DistinctKeys(s) && |keys| < |s|
    ensures Free in s
    decreases |s|
  {
    var last := s[|s| - 1];
    if last.Taken? {
      var rest := s[..|s| - 1];
      assert last in s && last.key in keys;
      assert forall x | x in rest && x.Taken? :: x in s && x.key != last.key;
      assert |keys - {last.key}| == |keys| - 1;
      SomeFree(rest, keys - {last.key});
    }
  }
}
