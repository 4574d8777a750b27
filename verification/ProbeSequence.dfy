/** The probe sequence of the open-addressing tables: in a table whose size is a power of
    two, the step from `h` to `5 * h + 1` visits every slot exactly once per round. */
module ProbeSequence {
  import opened SetSizes

  function Pow2(k: nat): (n: nat)
    ensures n >= 1
  {
    if k == 0 then 1 else 2 * Pow2(k - 1)
  }

  /** The low `k` bits of an integer, which masking with `Pow2(k) - 1` keeps. */
  function Low(x: int, k: nat): (r: nat)
    ensures r < Pow2(k)
    decreases k
  {
    if k == 0 then 0 else 2 * Low(x / 2, k - 1) + x % 2
  }

  /** The slot after `h` in a table of `Pow2(k)` slots. */
  function NextTry(h: nat, k: nat): (r: nat)
    ensures r < Pow2(k)
  {
    Low(5 * h + 1, k)
  }

  /** The slot after `j` steps from `h`. */
  function Probe(h: nat, j: nat, k: nat): (r: nat)
    requires h < Pow2(k)
    ensures r < Pow2(k)
  {
    if j == 0 then h else NextTry(Probe(h, j - 1, k), k)
  }

  /** 1 + 5 + 25 + ... with `j` summands. */
  function Sum5(j: nat): nat
  {
    if j == 0 then 0 else 5 * Sum5(j - 1) + 1
  }

  // ---------- powers of two in a number ----------

  /** Does `Pow2(k)` divide `x`? */
  predicate Divides(k: nat, x: int)
  {
    k == 0 || (x % 2 == 0 && Divides(k - 1, x / 2))
  }

  /** Masking tells apart exactly what differs by no multiple of the table size. */
  lemma {:induction false} LowEqual(x: int, y: int, k: nat)
    ensures Low(x, k) == Low(y, k) <==> Divides(k, x - y)
    decreases k
  {
    if k > 0 {
      LowEqual(x / 2, y / 2, k - 1);
      if x % 2 == y % 2 {
        assert (x - y) / 2 == x / 2 - y / 2;
      }
    }
  }

  lemma {:induction false} LowSmall(x: nat, k: nat)
    requires x < Pow2(k)
    ensures Low(x, k) == x
  {
    if k > 0 {
      LowSmall(x / 2, k - 1);
    }
  }

  lemma {:induction false} DividesNoLess(k: nat, d: nat)
    requires 0 < d < Pow2(k)
    ensures !Divides(k, d)
  {
    if k > 0 && d % 2 == 0 {
      DividesNoLess(k - 1, d / 2);
    }
  }

  lemma HalfProduct(c: int, b: int)
    ensures (2 * c) * b == 2 * (c * b)
  {
  }

  lemma OddProduct(c: int, d: int)
    ensures (2 * c + 1) * (2 * d + 1) == 2 * (2 * (c * d) + c + d) + 1
  {
  }

  /** Multiplying by an odd number neither adds nor removes factors of two. */
  lemma {:induction false} OddFactor(a: int, b: int, k: nat)
    requires b % 2 == 1
    ensures Divides(k, a * b) <==> Divides(k, a)
    decreases k
  {
    if k > 0 {
      if a % 2 == 1 {
        OddProduct(a / 2, b / 2);
      } else {
        HalfProduct(a / 2, b);
        OddFactor(a / 2, b, k - 1);
      }
    }
  }

  // ---------- steps in closed form ----------

  /** Where `j` steps from `h` lead without masking. */
  function Jump(h: nat, j: nat): nat
  {
    h + Sum5(j) * (4 * h + 1)
  }

  lemma Unfold5(s: int, h: int)
    ensures 5 * (h + s * (4 * h + 1)) + 1 == h + (5 * s + 1) * (4 * h + 1)
  {
    assert (5 * s + 1) * (4 * h + 1) == 5 * (s * (4 * h + 1)) + (4 * h + 1);
  }

  lemma JumpSteps(h: nat, j: nat)
    requires j > 0
    ensures Jump(h, j) == 5 * Jump(h, j - 1) + 1
  {
    Unfold5(Sum5(j - 1), h);
  }

  lemma {:induction false} ProbeClosed(h: nat, j: nat, k: nat)
    requires h < Pow2(k)
    ensures Probe(h, j, k) == Low(Jump(h, j), k)
    decreases j
  {
    hide Low, Sum5, Pow2, Jump;
    if j == 0 {
      NoSteps(h);
      LowSmall(h, k);
    } else {
      ProbeClosed(h, j - 1, k);
      JumpSteps(h, j);
      StepLow(Jump(h, j - 1), k);
    }
  }

  lemma NoSteps(h: nat)
    ensures Jump(h, 0) == h
  {
  }

  lemma JumpDivides(h: nat, d: nat, k: nat)
    ensures Divides(k, Jump(h, d) - h) <==> Divides(k, Sum5(d))
  {
    hide Divides, Sum5;
    OddFactor(Sum5(d), 4 * h + 1, k);
  }

  lemma StepLow(x: int, k: nat)
    ensures Low(5 * Low(x, k) + 1, k) == Low(5 * x + 1, k)
  {
    var l := Low(x, k);
    LowSmall(l, k);
    LowEqual(l, x, k);
    OddFactor(l - x, 5, k);
    LowEqual(5 * l + 1, 5 * x + 1, k);
  }

  lemma {:induction false} ProbeAdds(h: nat, i: nat, j: nat, k: nat)
    requires h < Pow2(k)
    ensures Probe(h, i + j, k) == Probe(Probe(h, i, k), j, k)
    decreases j
  {
    if j > 0 {
      ProbeAdds(h, i, j - 1, k);
    }
  }

  lemma Unfold4(a: int, s: int)
    ensures 5 * (a * (4 * s + 1) + s) + 1 == a * (4 * (5 * s + 1) + 1) + (5 * s + 1)
  {
  }

  lemma {:induction false} SumAdds(a: nat, b: nat)
    ensures Sum5(a + b) == Sum5(a) * (4 * Sum5(b) + 1) + Sum5(b)
    decreases b
  {
    if b > 0 {
      SumAdds(a, b - 1);
      Unfold4(Sum5(a), Sum5(b - 1));
    }
  }

  lemma {:induction false} SumParity(d: nat)
    ensures Sum5(d) % 2 == d % 2
  {
    if d > 0 {
      SumParity(d - 1);
    }
  }

  lemma Doubled(s: int)
    ensures s * (4 * s + 1) + s == 2 * (s * (2 * s + 1))
  {
  }

  lemma SumEven(e: nat)
    ensures Sum5(e + e) == 2 * (Sum5(e) * (2 * Sum5(e) + 1))
  {
    hide Sum5;
    SumAdds(e, e);
    Doubled(Sum5(e));
  }

  lemma HalfDivides(k: nat, s: nat)
    ensures Divides(k + 1, 2 * (s * (2 * s + 1))) <==> Divides(k, s)
  {
    OddFactor(s, 2 * s + 1, k);
  }

  /** A power of two divides the sum of `d` summands exactly if it divides `d`. */
  lemma {:induction false} SumDivides(d: nat, k: nat)
    ensures Divides(k, Sum5(d)) <==> Divides(k, d)
    decreases k
  {
    hide Sum5;
    if k > 0 {
      SumParity(d);
      if d % 2 == 0 {
        SumEven(d / 2);
        HalfDivides(k - 1, Sum5(d / 2));
        SumDivides(d / 2, k - 1);
      }
    }
  }

  // ---------- the full cycle ----------

  /** From any slot, `d` steps lead back to it exactly if the table size divides `d`. */
  lemma ReturnsAfter(h: nat, d: nat, k: nat)
    requires h < Pow2(k)
    ensures Probe(h, d, k) == h <==> Divides(k, d)
  {
    hide Low, Divides, Sum5, Jump, Probe, Pow2;
    ProbeClosed(h, d, k);
    LowSmall(h, k);
    LowEqual(Jump(h, d), h, k);
    JumpDivides(h, d, k);
    SumDivides(d, k);
  }

  /** The first `Pow2(k)` probes are pairwise different. */
  lemma ProbesDiffer(h: nat, i: nat, j: nat, k: nat)
    requires h < Pow2(k) && i < j < Pow2(k)
    ensures Probe(h, i, k) != Probe(h, j, k)
  {
    ProbeAdds(h, i, j - i, k);
    ReturnsAfter(Probe(h, i, k), j - i, k);
    DividesNoLess(k, j - i);
  }

  ghost function Visited(h: nat, count: nat, k: nat): set<nat>
    requires h < Pow2(k)
  {
    set j | 0 <= j < count :: Probe(h, j, k)
  }

  lemma {:induction false} VisitedCount(h: nat, count: nat, k: nat)
    requires h < Pow2(k) && count <= Pow2(k)
    ensures |Visited(h, count, k)| == count
    decreases count
  {
    hide Probe, Pow2;
    if count > 0 {
      VisitedCount(h, count - 1, k);
      var before, last := Visited(h, count - 1, k), Probe(h, count - 1, k);
      assert Visited(h, count, k) == before + {last};
      forall j | 0 <= j < count - 1 ensures Probe(h, j, k) != last {
        ProbesDiffer(h, j, count - 1, k);
      }
      assert last !in before;
    }
  }

  lemma {:induction false} BelowCount(s: set<nat>, n: nat)
    requires forall x | x in s :: x < n
    ensures |s| <= n
    decreases n
  {
    if n > 0 {
      var t := s - {n - 1};
      BelowCount(t, n - 1);
      assert s <= t + {n - 1};
      SubsetSize(s, t + {n - 1});
      assert n - 1 !in t;
    } else {
      assert s == {};
    }
  }

  /** Every slot is probed within one round, from wherever the round starts. */
  lemma EverySlotProbed(h: nat, k: nat, slot: nat)
    requires h < Pow2(k) && slot < Pow2(k)
    ensures exists j: nat :: j < Pow2(k) && Probe(h, j, k) == slot
  {
    hide Probe, Pow2;
    var visited := Visited(h, Pow2(k), k);
    VisitedCount(h, Pow2(k), k);
    if slot !in visited {
      var more := visited + {slot};
      assert |more| == Pow2(k) + 1;
      BelowCount(more, Pow2(k));
    }
  }
}
