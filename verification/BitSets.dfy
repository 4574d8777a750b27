/** Sets of small integers as arrays of bytes. */
module BitSets {

  const ELEM_SIZE := 8

  // ---------- bits of a byte ----------

  /** One shifted left. */
  function Mask(k: nat): bv8
    requires k < ELEM_SIZE
  {
    match k
    case 0 => 0x01
    case 1 => 0x02
    case 2 => 0x04
    case 3 => 0x08
    case 4 => 0x10
    case 5 => 0x20
    case 6 => 0x40
    case 7 => 0x80
  }

  predicate Bit(b: bv8, k: nat)
    requires k < ELEM_SIZE
  {
    b & Mask(k) != 0
  }

  lemma BitOr(b: bv8, c: bv8, k: nat)
    requires k < ELEM_SIZE
    ensures Bit(b | c, k) <==> Bit(b, k) || Bit(c, k)
  {
  }

  lemma BitAnd(b: bv8, c: bv8, k: nat)
    requires k < ELEM_SIZE
    ensures Bit(b & c, k) <==> Bit(b, k) && Bit(c, k)
  {
  }

  lemma BitNot(c: bv8, k: nat)
    requires k < ELEM_SIZE
    ensures Bit(!c, k) <==> !Bit(c, k)
  {
  }

  lemma BitXor(b: bv8, c: bv8, k: nat)
    requires k < ELEM_SIZE
    ensures Bit(b ^ c, k) <==> Bit(b, k) != Bit(c, k)
  {
    hide Mask;
    var m := Mask(k);
    XorMasked(b, c, m);
    MaskedIs(b, k);
    MaskedIs(c, k);
    MaskIsSome(k);
    XorOfMasks(b & m, c & m, m);
  }

  lemma XorMasked(b: bv8, c: bv8, m: bv8)
    ensures (b ^ c) & m == (b & m) ^ (c & m)
  {
  }

  lemma MaskIsSome(k: nat)
    requires k < ELEM_SIZE
    ensures Mask(k) != 0
  {
  }

  lemma MaskedIs(b: bv8, k: nat)
    requires k < ELEM_SIZE
    ensures b & Mask(k) == 0 || b & Mask(k) == Mask(k)
  {
  }

  lemma XorOfMasks(x: bv8, y: bv8, m: bv8)
    requires (x == 0 || x == m) && (y == 0 || y == m) && m != 0
    ensures x ^ y != 0 <==> x != y
  {
  }

  lemma BitOps(b: bv8, c: bv8, k: nat)
    requires k < ELEM_SIZE
    ensures Bit(b | c, k) <==> Bit(b, k) || Bit(c, k)
    ensures Bit(b & c, k) <==> Bit(b, k) && Bit(c, k)
    ensures Bit(b & !c, k) <==> Bit(b, k) && !Bit(c, k)
    ensures Bit(b ^ c, k) <==> Bit(b, k) != Bit(c, k)
  {
    hide Bit;
    BitOr(b, c, k);
    BitAnd(b, c, k);
    BitNot(c, k);
    BitAnd(b, !c, k);
    BitXor(b, c, k);
  }

  lemma BitOfMask(k: nat, l: nat)
    requires k < ELEM_SIZE && l < ELEM_SIZE
    ensures Bit(Mask(k), l) <==> k == l
  {
  }

  /** Bytes with the same bits are equal. */
  lemma SameBits(b: bv8, c: bv8)
    requires forall k: nat | k < ELEM_SIZE :: Bit(b, k) <==> Bit(c, k)
    ensures b == c
  {
    assert Bit(b, 0) == Bit(c, 0) && Bit(b, 1) == Bit(c, 1) && Bit(b, 2) == Bit(c, 2) && Bit(b, 3) == Bit(c, 3);
    assert Bit(b, 4) == Bit(c, 4) && Bit(b, 5) == Bit(c, 5) && Bit(b, 6) == Bit(c, 6) && Bit(b, 7) == Bit(c, 7);
  }

  lemma NoBits(b: bv8)
    requires forall k: nat | k < ELEM_SIZE :: !Bit(b, k)
    ensures b == 0
  {
    assert !Bit(b, 0) && !Bit(b, 1) && !Bit(b, 2) && !Bit(b, 3) && !Bit(b, 4) && !Bit(b, 5) && !Bit(b, 6) && !Bit(b, 7);
  }

  // ---------- the set of an array ----------

  predicate Contains(x: seq<bv8>, e: nat)
  {
    e / ELEM_SIZE < |x| && Bit(x[e / ELEM_SIZE], e % ELEM_SIZE)
  }

  ghost function Elements(x: seq<bv8>): set<nat>
  {
    set e | 0 <= e < ELEM_SIZE * |x| && Contains(x, e)
  }

  lemma ElementsAre(x: seq<bv8>, e: nat)
    ensures e in Elements(x) <==> Contains(x, e)
  {
  }

  method In(x: array<bv8>, e: nat) returns (r: bool)
    requires e / ELEM_SIZE < x.Length
    ensures r <==> e in Elements(x[..])
  {
    r := x[e / ELEM_SIZE] & Mask(e % ELEM_SIZE) != 0;
    ElementsAre(x[..], e);
  }

  method Incl(x: array<bv8>, e: nat)
    requires e / ELEM_SIZE < x.Length
    modifies x
    ensures Elements(x[..]) == Elements(old(x[..])) + {e}
  {
    ghost var before := x[..];
    x[e / ELEM_SIZE] := x[e / ELEM_SIZE] | Mask(e % ELEM_SIZE);
    forall f: nat ensures Contains(x[..], f) <==> Contains(before, f) || f == e {
      BitOps(before[e / ELEM_SIZE], Mask(e % ELEM_SIZE), f % ELEM_SIZE);
      BitOfMask(e % ELEM_SIZE, f % ELEM_SIZE);
      SamePlace(e, f);
    }
  }

  method Excl(x: array<bv8>, e: nat)
    requires e / ELEM_SIZE < x.Length
    modifies x
    ensures Elements(x[..]) == Elements(old(x[..])) - {e}
  {
    ghost var before := x[..];
    x[e / ELEM_SIZE] := x[e / ELEM_SIZE] & !Mask(e % ELEM_SIZE);
    forall f: nat ensures Contains(x[..], f) <==> Contains(before, f) && f != e {
      BitOps(before[e / ELEM_SIZE], Mask(e % ELEM_SIZE), f % ELEM_SIZE);
      BitOfMask(e % ELEM_SIZE, f % ELEM_SIZE);
      SamePlace(e, f);
    }
  }

  lemma SamePlace(e: nat, f: nat)
    ensures e == f <==> e / ELEM_SIZE == f / ELEM_SIZE && e % ELEM_SIZE == f % ELEM_SIZE
  {
  }

  method Init(length: nat) returns (x: array<bv8>)
    ensures fresh(x) && x.Length == length && Elements(x[..]) == {}
  {
    x := new bv8[length](_ => 0);
    forall e: nat ensures !Contains(x[..], e) {
      if e / ELEM_SIZE < length { ZeroHasNoBit(e % ELEM_SIZE); }
    }
  }

  lemma ZeroHasNoBit(k: nat)
    requires k < ELEM_SIZE
    ensures !Bit(0, k)
  {
  }

  // ---------- whole sets ----------
  // The second array may be longer; only as many of its bytes count as the first has.

  method Union(x: array<bv8>, y: array<bv8>)
    requires x.Length <= y.Length
    modifies x
    ensures Elements(x[..]) == Elements(old(x[..])) + Elements(old(y[..x.Length]))
  {
    hide Bit;
    ghost var s, t := x[..], y[..x.Length];
    for i := 0 to x.Length
      invariant forall k | 0 <= k < i :: x[k] == s[k] | t[k]
      invariant forall k | i <= k < x.Length :: x[k] == s[k] && y[k] == t[k]
    {
      x[i] := x[i] | y[i];
    }
    forall e: nat ensures Contains(x[..], e) <==> Contains(s, e) || Contains(t, e) {
      if e / ELEM_SIZE < |s| { BitOps(s[e / ELEM_SIZE], t[e / ELEM_SIZE], e % ELEM_SIZE); }
    }
  }

  method Diff(x: array<bv8>, y: array<bv8>)
    requires x.Length <= y.Length
    modifies x
    ensures Elements(x[..]) == Elements(old(x[..])) - Elements(old(y[..x.Length]))
  {
    hide Bit;
    ghost var s, t := x[..], y[..x.Length];
    for i := 0 to x.Length
      invariant forall k | 0 <= k < i :: x[k] == s[k] & !t[k]
      invariant forall k | i <= k < x.Length :: x[k] == s[k] && y[k] == t[k]
    {
      x[i] := x[i] & !y[i];
    }
    forall e: nat ensures Contains(x[..], e) <==> Contains(s, e) && !Contains(t, e) {
      if e / ELEM_SIZE < |s| { BitOps(s[e / ELEM_SIZE], t[e / ELEM_SIZE], e % ELEM_SIZE); }
    }
  }

  method SymDiff(x: array<bv8>, y: array<bv8>)
    requires x.Length <= y.Length
    modifies x
    ensures Elements(x[..]) == (Elements(old(x[..])) - Elements(old(y[..x.Length]))) + (Elements(old(y[..x.Length])) - Elements(old(x[..])))
  {
    hide Bit;
    ghost var s, t := x[..], y[..x.Length];
    for i := 0 to x.Length
      invariant forall k | 0 <= k < i :: x[k] == s[k] ^ t[k]
      invariant forall k | i <= k < x.Length :: x[k] == s[k] && y[k] == t[k]
    {
      x[i] := x[i] ^ y[i];
    }
    forall e: nat ensures Contains(x[..], e) <==> Contains(s, e) != Contains(t, e) {
      if e / ELEM_SIZE < |s| { BitOps(s[e / ELEM_SIZE], t[e / ELEM_SIZE], e % ELEM_SIZE); }
    }
  }

  method Intersect(x: array<bv8>, y: array<bv8>)
    requires x.Length <= y.Length
    modifies x
    ensures Elements(x[..]) == Elements(old(x[..])) * Elements(old(y[..x.Length]))
  {
    hide Bit;
    ghost var s, t := x[..], y[..x.Length];
    for i := 0 to x.Length
      invariant forall k | 0 <= k < i :: x[k] == s[k] & t[k]
      invariant forall k | i <= k < x.Length :: x[k] == s[k] && y[k] == t[k]
    {
      x[i] := x[i] & y[i];
    }
    forall e: nat ensures Contains(x[..], e) <==> Contains(s, e) && Contains(t, e) {
      if e / ELEM_SIZE < |s| { BitOps(s[e / ELEM_SIZE], t[e / ELEM_SIZE], e % ELEM_SIZE); }
    }
  }

  /** Equal bytes are equal sets. */
  method Equals(x: array<bv8>, y: array<bv8>) returns (r: bool)
    requires x.Length <= y.Length
    ensures r <==> Elements(x[..]) == Elements(y[..x.Length])
  {
    for i := 0 to x.Length
      invariant forall k | 0 <= k < i :: x[k] == y[k]
    {
      if x[i] != y[i] {
        BytesDiffer(x[..], y[..x.Length], i);
        return false;
      }
    }
    assert x[..] == y[..x.Length];
    r := true;
  }

  /** Some bit tells apart bytes that differ. */
  lemma BytesDiffer(x: seq<bv8>, y: seq<bv8>, i: nat)
    requires |x| == |y| && i < |x| && x[i] != y[i]
    ensures Elements(x) != Elements(y)
  {
    if forall k: nat | k < ELEM_SIZE :: Bit(x[i], k) <==> Bit(y[i], k) {
      SameBits(x[i], y[i]);
    }
    var k: nat :| k < ELEM_SIZE && (Bit(x[i], k) != Bit(y[i], k));
    var e := i * ELEM_SIZE + k;
    assert e / ELEM_SIZE == i && e % ELEM_SIZE == k;
    ElementsAre(x, e);
    ElementsAre(y, e);
  }

  /** Is the first set part of the second? */
  method ContainsAll(x: array<bv8>, y: array<bv8>) returns (r: bool)
    requires x.Length <= y.Length
    ensures r <==> Elements(x[..]) <= Elements(y[..x.Length])
  {
    for i := 0 to x.Length
      invariant forall k | 0 <= k < i :: x[k] & !y[k] == 0
    {
      if x[i] & !y[i] != 0 {
        ByteExceeds(x[..], y[..x.Length], i);
        return false;
      }
    }
    forall e: nat | Contains(x[..], e) ensures Contains(y[..x.Length], e) {
      BitOps(x[e / ELEM_SIZE], y[e / ELEM_SIZE], e % ELEM_SIZE);
      ZeroHasNoBit(e % ELEM_SIZE);
    }
    r := true;
  }

  lemma ByteExceeds(x: seq<bv8>, y: seq<bv8>, i: nat)
    requires |x| == |y| && i < |x| && x[i] & !y[i] != 0
    ensures !(Elements(x) <= Elements(y))
  {
    var d := x[i] & !y[i];
    if forall k: nat | k < ELEM_SIZE :: !Bit(d, k) {
      NoBits(d);
    }
    var k: nat :| k < ELEM_SIZE && Bit(d, k);
    BitOps(x[i], y[i], k);
    var e := i * ELEM_SIZE + k;
    assert e / ELEM_SIZE == i && e % ELEM_SIZE == k;
    ElementsAre(x, e);
    ElementsAre(y, e);
  }

  // ---------- how many ----------

  /** One bit, shifted to the right end. */
  function Term(b: bv8, k: nat): nat
    requires k < ELEM_SIZE
  {
    match k
    case 0 => (b & 0x01) as nat
    case 1 => ((b & 0x02) >> 1) as nat
    case 2 => ((b & 0x04) >> 2) as nat
    case 3 => ((b & 0x08) >> 3) as nat
    case 4 => ((b & 0x10) >> 4) as nat
    case 5 => ((b & 0x20) >> 5) as nat
    case 6 => ((b & 0x40) >> 6) as nat
    case 7 => ((b & 0x80) >> 7) as nat
  }

  /** The entry of the population count table for a byte. */
  function CountSetBits(b: bv8): nat
  {
    Term(b, 0) + Term(b, 1) + Term(b, 2) + Term(b, 3) + Term(b, 4) + Term(b, 5) + Term(b, 6) + Term(b, 7)
  }

  function One(c: bool): nat { if c then 1 else 0 }

  lemma TermIsBit(b: bv8, k: nat)
    requires k < ELEM_SIZE
    ensures Term(b, k) == One(Bit(b, k))
  {
    assert (b & 0x01) == if Bit(b, 0) then 1 else 0;
    assert (b & 0x02) >> 1 == if Bit(b, 1) then 1 else 0;
    assert (b & 0x04) >> 2 == if Bit(b, 2) then 1 else 0;
    assert (b & 0x08) >> 3 == if Bit(b, 3) then 1 else 0;
    assert (b & 0x10) >> 4 == if Bit(b, 4) then 1 else 0;
    assert (b & 0x20) >> 5 == if Bit(b, 5) then 1 else 0;
    assert (b & 0x40) >> 6 == if Bit(b, 6) then 1 else 0;
    assert (b & 0x80) >> 7 == if Bit(b, 7) then 1 else 0;
  }

  lemma CountIsBits(b: bv8)
    ensures CountSetBits(b) == BitsBelow(b, ELEM_SIZE)
  {
    hide Bit, Term;
    forall k: nat | k < ELEM_SIZE ensures BitsBelow(b, k + 1) == BitsBelow(b, k) + Term(b, k) {
      TermIsBit(b, k);
    }
    assert BitsBelow(b, 4) == BitsBelow(b, 3 + 1) == BitsBelow(b, 2 + 1) + Term(b, 3) == BitsBelow(b, 1 + 1) + Term(b, 2) + Term(b, 3);
    assert BitsBelow(b, 1 + 1) == BitsBelow(b, 0 + 1) + Term(b, 1) == Term(b, 0) + Term(b, 1);
    assert BitsBelow(b, 8) == BitsBelow(b, 7 + 1) == BitsBelow(b, 6 + 1) + Term(b, 7) == BitsBelow(b, 5 + 1) + Term(b, 6) + Term(b, 7);
    assert BitsBelow(b, 5 + 1) == BitsBelow(b, 4 + 1) + Term(b, 5) == BitsBelow(b, 4) + Term(b, 4) + Term(b, 5);
  }

  /** How many of the first `n` bits are set. */
  function BitsBelow(b: bv8, n: nat): nat
    requires n <= ELEM_SIZE
  {
    if n == 0 then 0 else BitsBelow(b, n - 1) + One(Bit(b, n - 1))
  }

  /** The elements that the first `n` bits of a byte at `base` stand for. */
  ghost function ByteElements(b: bv8, base: nat, n: nat): set<nat>
    requires n <= ELEM_SIZE
  {
    set k | 0 <= k < n && Bit(b, k) :: base + k
  }

  lemma {:induction false} ByteCount(b: bv8, base: nat, n: nat)
    requires n <= ELEM_SIZE
    ensures |ByteElements(b, base, n)| == BitsBelow(b, n)
    decreases n
  {
    hide Mask;
    if n > 0 {
      ByteCount(b, base, n - 1);
      var before := ByteElements(b, base, n - 1);
      if Bit(b, n - 1) {
        assert ByteElements(b, base, n) == before + {base + n - 1};
      } else {
        assert ByteElements(b, base, n) == before;
      }
    }
  }

  lemma OneMoreByte(x: seq<bv8>, i: nat)
    requires i < |x|
    ensures |Elements(x[..i + 1])| == |Elements(x[..i])| + BitsBelow(x[i], ELEM_SIZE)
  {
    hide Bit;
    var s, b := Elements(x[..i]), ByteElements(x[i], ELEM_SIZE * i, ELEM_SIZE);
    forall e: nat ensures Contains(x[..i + 1], e) <==> e in s || e in b {
      ElementsAre(x[..i], e);
      if e / ELEM_SIZE == i && Bit(x[i], e % ELEM_SIZE) {
        assert e == ELEM_SIZE * i + e % ELEM_SIZE;
      }
    }
    assert Elements(x[..i + 1]) == s + b;
    assert s !! b;
    ByteCount(x[i], ELEM_SIZE * i, ELEM_SIZE);
  }

  method Card(x: array<bv8>) returns (r: nat)
    ensures r == |Elements(x[..])|
  {
    r := 0;
    assert Elements(x[..0]) == {};
    for i := 0 to x.Length
      invariant r == |Elements(x[..i])|
    {
      OneMoreByte(x[..], i);
      assert x[..][..i] == x[..i] && x[..][..i + 1] == x[..i + 1];
      CountIsBits(x[i]);
      r := r + CountSetBits(x[i]);
    }
    assert x[..x.Length] == x[..];
  }

  // ---------- words ----------

  /** Byte number `j` of a word. */
  function ByteOf(w: bv64, j: nat): bv8
    requires j < 8
  {
    match j
    case 0 => (w & 0xff) as bv8
    case 1 => ((w >> 8) & 0xff) as bv8
    case 2 => ((w >> 16) & 0xff) as bv8
    case 3 => ((w >> 24) & 0xff) as bv8
    case 4 => ((w >> 32) & 0xff) as bv8
    case 5 => ((w >> 40) & 0xff) as bv8
    case 6 => ((w >> 48) & 0xff) as bv8
    case 7 => ((w >> 56) & 0xff) as bv8
  }

  /** Bit number `i` of a word. */
  predicate WordBit(w: bv64, i: nat)
    requires i < 64
  {
    Bit(ByteOf(w, i / ELEM_SIZE), i % ELEM_SIZE)
  }

  /** A byte shifted left by `j` bytes. */
  function Shifted(b: bv8, j: nat): bv64
    requires j < 8
  {
    match j
    case 0 => b as bv64
    case 1 => (b as bv64) << 8
    case 2 => (b as bv64) << 16
    case 3 => (b as bv64) << 24
    case 4 => (b as bv64) << 32
    case 5 => (b as bv64) << 40
    case 6 => (b as bv64) << 48
    case 7 => (b as bv64) << 56
  }

  lemma ShiftedByte(b: bv8, j: nat, l: nat)
    requires j < 8 && l < 8
    ensures ByteOf(Shifted(b, j), l) == if l == j then b else 0
  {
  }

  lemma LowByteOfOr(w: bv64, v: bv64)
    ensures ((w | v) & 0xff) as bv8 == ((w & 0xff) as bv8) | ((v & 0xff) as bv8)
  {
  }

  lemma OrShifts(w: bv64, v: bv64)
    ensures (w | v) >> 8 == (w >> 8) | (v >> 8) && (w | v) >> 16 == (w >> 16) | (v >> 16)
    ensures (w | v) >> 24 == (w >> 24) | (v >> 24) && (w | v) >> 32 == (w >> 32) | (v >> 32)
    ensures (w | v) >> 40 == (w >> 40) | (v >> 40) && (w | v) >> 48 == (w >> 48) | (v >> 48)
    ensures (w | v) >> 56 == (w >> 56) | (v >> 56)
  {
  }

  lemma ByteOfOr(w: bv64, v: bv64, l: nat)
    requires l < 8
    ensures ByteOf(w | v, l) == ByteOf(w, l) | ByteOf(v, l)
  {
    OrShifts(w, v);
    match l
    case 0 => LowByteOfOr(w, v);
    case 1 => LowByteOfOr(w >> 8, v >> 8);
    case 2 => LowByteOfOr(w >> 16, v >> 16);
    case 3 => LowByteOfOr(w >> 24, v >> 24);
    case 4 => LowByteOfOr(w >> 32, v >> 32);
    case 5 => LowByteOfOr(w >> 40, v >> 40);
    case 6 => LowByteOfOr(w >> 48, v >> 48);
    case 7 => LowByteOfOr(w >> 56, v >> 56);
  }

  /** The bytes of a set as one word: bit `i` says whether `i` is in the set. */
  method ToWord(s: array<bv8>, size: nat) returns (w: bv64)
    requires size <= 8
    ensures forall i: nat | i < ELEM_SIZE * size :: WordBit(w, i) <==> i in Elements(s[..])
    ensures forall i: nat | ELEM_SIZE * size <= i < 64 :: !WordBit(w, i)
  {
    w := 0;
    for j := 0 to size
      invariant forall l: nat | l < 8 :: ByteOf(w, l) == if l < j && l < s.Length then s[l] else 0
    {
      if j < s.Length {
        forall l: nat | l < 8 ensures ByteOf(w | Shifted(s[j], j), l) == ByteOf(w, l) | if l == j then s[j] else 0 {
          ByteOfOr(w, Shifted(s[j], j), l);
          ShiftedByte(s[j], j, l);
        }
        w := w | Shifted(s[j], j);
      }
    }
    forall i: nat | i < 64 ensures WordBit(w, i) <==> i < ELEM_SIZE * size && i in Elements(s[..]) {
      ElementsAre(s[..], i);
      ZeroHasNoBit(i % ELEM_SIZE);
    }
  }
}
