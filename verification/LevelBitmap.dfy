/** Occupancy bitmap over a price ladder, scanned a 64-bit word at a time. */
module Bitmap {
  import opened Types

  const ONES: bv64 := 0xFFFF_FFFF_FFFF_FFFF

  /** A bit number as the machine shifts by it. */
  function Amount(k: nat): (c: bv64)
    requires k < 64
    ensures c < 64
  {
    Small(k as bv6);
    (k as bv6) as bv64
  }

  predicate BitAt(w: bv64, c: bv64)
    requires c < 64
  {
    (w >> c) & 1 == 1
  }

  function OneBit(c: bv64): bv64
    requires c < 64
  {
    1 << c
  }

  function AllBut(c: bv64): bv64
    requires c < 64
  {
    !OneBit(c)
  }

  function OrBit(w: bv64, c: bv64): bv64
    requires c < 64
  {
    w | OneBit(c)
  }

  function AndNot(w: bv64, c: bv64): bv64
    requires c < 64
  {
    w & AllBut(c)
  }

  function HighOnes(c: bv64): bv64
    requires c < 64
  {
    ONES << c
  }

  function LowOnes(c: bv64): bv64
    requires c < 64
  {
    ONES >> (63 - c)
  }

  function MaskUp(w: bv64, c: bv64): bv64
    requires c < 64
  {
    w & HighOnes(c)
  }

  function MaskDown(w: bv64, c: bv64): bv64
    requires c < 64
  {
    w & LowOnes(c)
  }

  predicate AndTest(w: bv64, c: bv64)
    requires c < 64
  {
    w & OneBit(c) != 0
  }

  predicate AnyFrom(w: bv64, c: bv64)
    requires c < 64
  {
    w >> c != 0
  }

  /** Bit `k` of a word. */
  predicate Bit(w: bv64, k: nat)
    requires k < 64
    ensures Bit(w, k) ==> w != 0
  {
    BitAt(w, Amount(k))
  }

  function SetIn(w: bv64, k: nat): bv64
    requires k < 64
  {
    OrBit(w, Amount(k))
  }

  function ClearIn(w: bv64, k: nat): bv64
    requires k < 64
  {
    AndNot(w, Amount(k))
  }

  predicate TestIn(w: bv64, k: nat)
    requires k < 64
  {
    AndTest(w, Amount(k))
  }

  /** The word with the bits below `k` cleared. */
  function FromUp(w: bv64, k: nat): bv64
    requires k < 64
  {
    MaskUp(w, Amount(k))
  }

  /** The word with the bits above `k` cleared. */
  function FromDown(w: bv64, k: nat): bv64
    requires k < 64
  {
    MaskDown(w, Amount(k))
  }

  lemma Small(b: bv6)
    ensures (b as bv64) < 64
  {
  }

  lemma OnlyBit(i: bv64, j: bv64)
    requires i < 64 && j < 64
    ensures BitAt(OneBit(i), j) <==> i == j
  {
  }

  lemma OrJoins(v: bv64, w: bv64, j: bv64)
    requires j < 64
    ensures BitAt(v | w, j) <==> BitAt(v, j) || BitAt(w, j)
  {
  }

  lemma AndMeets(v: bv64, w: bv64, j: bv64)
    requires j < 64
    ensures BitAt(v & w, j) <==> BitAt(v, j) && BitAt(w, j)
  {
  }

  lemma OtherBits(i: bv64, j: bv64)
    requires i < 64 && j < 64
    ensures BitAt(AllBut(i), j) <==> i != j
  {
  }

  lemma OrSets(w: bv64, i: bv64, j: bv64)
    requires i < 64 && j < 64
    ensures BitAt(OrBit(w, i), j) <==> i == j || BitAt(w, j)
  {
    hide BitAt, OneBit;
    OrJoins(w, OneBit(i), j);
    OnlyBit(i, j);
  }

  lemma AndNotClears(w: bv64, i: bv64, j: bv64)
    requires i < 64 && j < 64
    ensures BitAt(AndNot(w, i), j) <==> i != j && BitAt(w, j)
  {
    hide BitAt, AllBut;
    AndMeets(w, AllBut(i), j);
    OtherBits(i, j);
  }

  lemma OnesAbove(i: bv64, j: bv64)
    requires i < 64 && j < 64
    ensures BitAt(HighOnes(i), j) <==> i <= j
  {
  }

  lemma OnesBelow(i: bv64, j: bv64)
    requires i < 64 && j < 64
    ensures BitAt(LowOnes(i), j) <==> j <= i
  {
  }

  lemma MaskUpKeeps(w: bv64, i: bv64, j: bv64)
    requires i < 64 && j < 64
    ensures BitAt(MaskUp(w, i), j) <==> i <= j && BitAt(w, j)
  {
    hide BitAt, HighOnes;
    AndMeets(w, HighOnes(i), j);
    OnesAbove(i, j);
  }

  lemma MaskDownKeeps(w: bv64, i: bv64, j: bv64)
    requires i < 64 && j < 64
    ensures BitAt(MaskDown(w, i), j) <==> j <= i && BitAt(w, j)
  {
    hide BitAt, LowOnes;
    AndMeets(w, LowOnes(i), j);
    OnesBelow(i, j);
  }

  lemma MaskTests(w: bv64, c: bv64)
    requires c < 64
    ensures AndTest(w, c) <==> BitAt(w, c)
  {
  }

  lemma Exact(k: nat)
    requires k < 64
    ensures (k as bv6) as nat == k
  {
  }

  lemma NarrowOrder(a: bv6, b: bv6)
    ensures a <= b <==> a as nat <= b as nat
  {
  }

  lemma WideOrder(a: bv6, b: bv6)
    ensures a as bv64 <= b as bv64 <==> a <= b
    ensures a as bv64 == b as bv64 <==> a == b
  {
  }

  lemma AmountOrder(i: nat, j: nat)
    requires i < 64 && j < 64
    ensures Amount(i) < 64 && Amount(j) < 64
    ensures Amount(i) <= Amount(j) <==> i <= j
    ensures Amount(i) == Amount(j) <==> i == j
  {
    Exact(i);
    Exact(j);
    Small(i as bv6);
    Small(j as bv6);
    NarrowOrder(i as bv6, j as bv6);
    WideOrder(i as bv6, j as bv6);
  }

  lemma NarrowNext(a: bv6)
    requires a < 63
    ensures (a + 1) as nat == a as nat + 1
  {
  }

  lemma WideNext(a: bv6)
    requires a < 63
    ensures (a + 1) as bv64 == (a as bv64) + 1
  {
  }

  lemma NarrowInjective(a: bv6, b: bv6)
    requires a as nat == b as nat
    ensures a == b
  {
  }

  lemma AmountNext(k: nat)
    requires k < 63
    ensures Amount(k + 1) == Amount(k) + 1
  {
    AmountOrder(k, 63);
    Exact(k);
    Exact(k + 1);
    NarrowNext(k as bv6);
    NarrowInjective((k + 1) as bv6, (k as bv6) + 1);
    WideNext(k as bv6);
  }

  lemma ShiftOn(w: bv64, c: bv64, d: bv64)
    requires c < 64 && AnyFrom(w, c) && !BitAt(w, c) && d == c + 1
    ensures c != 63 && AnyFrom(w, d)
  {
  }

  lemma LastAmount()
    ensures Amount(63) == 63
  {
  }

  lemma NextBit(w: bv64, k: nat)
    requires k < 64 && AnyFrom(w, Amount(k)) && !Bit(w, k)
    ensures k < 63 && AnyFrom(w, Amount(k + 1))
  {
    hide Amount, AnyFrom, BitAt;
    ShiftOn(w, Amount(k), Amount(k) + 1);
    LastAmount();
    AmountNext(k);
  }

  lemma FindBit(w: bv64, k: nat) returns (r: nat)
    requires k < 64 && AnyFrom(w, Amount(k))
    ensures r < 64 && Bit(w, r)
    decreases 64 - k
  {
    hide *;
    if Bit(w, k) {
      r := k;
    } else {
      NextBit(w, k);
      r := FindBit(w, k + 1);
    }
  }

  lemma WholeShift(w: bv64)
    requires w != 0
    ensures AnyFrom(w, Amount(0))
  {
    assert Amount(0) == 0;
  }

  /** A nonzero word has a bit set. */
  lemma SomeBit(w: bv64) returns (r: nat)
    requires w != 0
    ensures r < 64 && Bit(w, r)
  {
    hide *;
    WholeShift(w);
    r := FindBit(w, 0);
  }

  lemma SetBit(w: bv64, i: nat, j: nat)
    requires i < 64 && j < 64
    ensures Bit(SetIn(w, i), j) <==> i == j || Bit(w, j)
  {
    hide Amount, BitAt, OrBit;
    AmountOrder(i, j);
    OrSets(w, Amount(i), Amount(j));
  }

  lemma ClearBit(w: bv64, i: nat, j: nat)
    requires i < 64 && j < 64
    ensures Bit(ClearIn(w, i), j) <==> i != j && Bit(w, j)
  {
    hide Amount, BitAt, AndNot;
    AmountOrder(i, j);
    AndNotClears(w, Amount(i), Amount(j));
  }

  lemma KeepAbove(w: bv64, i: nat, j: nat)
    requires i < 64 && j < 64
    ensures Bit(FromUp(w, i), j) <==> i <= j && Bit(w, j)
  {
    hide Amount, BitAt, MaskUp;
    AmountOrder(i, j);
    MaskUpKeeps(w, Amount(i), Amount(j));
  }

  lemma KeepBelow(w: bv64, i: nat, j: nat)
    requires i < 64 && j < 64
    ensures Bit(FromDown(w, i), j) <==> j <= i && Bit(w, j)
  {
    hide Amount, BitAt, MaskDown;
    AmountOrder(j, i);
    MaskDownKeeps(w, Amount(i), Amount(j));
  }

  lemma TestBit(w: bv64, i: nat)
    requires i < 64
    ensures TestIn(w, i) <==> Bit(w, i)
  {
    hide Amount, BitAt, AndTest;
    MaskTests(w, Amount(i));
  }

  /** Count of trailing zeros, counted from bit `k`: the lowest set bit at or above `k`. */
  function CtzFrom(w: bv64, k: nat): (r: nat)
    requires k < 64
    requires exists j: nat :: k <= j < 64 && Bit(w, j)
    ensures k <= r < 64 && Bit(w, r)
    ensures forall j: nat :: k <= j < r ==> !Bit(w, j)
    decreases 64 - k
  {
    if Bit(w, k) then k else CtzFrom(w, k + 1)
  }

  /** The highest set bit at or below `k`, which is 63 minus the count of leading zeros. */
  function TopBitFrom(w: bv64, k: nat): (r: nat)
    requires k < 64
    requires exists j: nat :: 0 <= j <= k && Bit(w, j)
    ensures r <= k && Bit(w, r)
    ensures forall j: nat :: r < j <= k ==> !Bit(w, j)
  {
    if Bit(w, k) then k else TopBitFrom(w, k - 1)
  }

  /** Member `i` of the set a word array stands for. */
  predicate Has(words: seq<bv64>, i: nat) {
    i / 64 < |words| && Bit(words[i / 64], i % 64)
  }

  /** The set of indices a word array stands for. */
  function Members(words: seq<bv64>): (m: set<nat>)
    ensures forall i: nat :: i in m <==> Has(words, i)
  {
    set i: nat | i < 64 * |words| && Has(words, i)
  }

  class LevelBitmap {
    const n: nat
    const words: array<bv64>

    ghost predicate Valid()
      reads words
    {
      && n < TWO32
      && words.Length == (n + 63) / 64
      && forall i :: i in Contents() ==> i < n
    }

    /** The occupied levels. */
    ghost function Contents(): (m: set<nat>)
      reads words
    {
      Members(words[..])
    }

    constructor (n: nat)
      requires n < TWO32
      ensures Valid() && Contents() == {} && this.n == n && fresh(words)
    {
      this.n := n;
      words := new bv64[(n + 63) / 64](_ => 0);
    }

    method Set(idx: nat)
      requires Valid() && idx < n
      modifies words
      ensures Valid() && Contents() == old(Contents()) + {idx}
    {
      hide Bit, SetIn, ClearIn, TestIn, FromUp, FromDown, CtzFrom, TopBitFrom;
      ghost var before := words[..];
      words[idx / 64] := SetIn(words[idx / 64], idx % 64);
      forall i: nat ensures Has(words[..], i) <==> i == idx || Has(before, i) {
        if i / 64 == idx / 64 {
          SetBit(before[idx / 64], idx % 64, i % 64);
        }
      }
      assert Contents() == old(Contents()) + {idx};
    }

    method Clear(idx: nat)
      requires Valid() && idx < n
      modifies words
      ensures Valid() && Contents() == old(Contents()) - {idx}
    {
      hide Bit, SetIn, ClearIn, TestIn, FromUp, FromDown, CtzFrom, TopBitFrom;
      ghost var before := words[..];
      words[idx / 64] := ClearIn(words[idx / 64], idx % 64);
      forall i: nat ensures Has(words[..], i) <==> i != idx && Has(before, i) {
        if i / 64 == idx / 64 {
          ClearBit(before[idx / 64], idx % 64, i % 64);
        }
      }
      assert Contents() == old(Contents()) - {idx};
    }

    method Test(idx: nat) returns (b: bool)
      requires Valid() && idx < n
      ensures b <==> idx in Contents()
    {
      hide Bit, SetIn, ClearIn, TestIn, FromUp, FromDown, CtzFrom, TopBitFrom;
      b := TestIn(words[idx / 64], idx % 64);
      TestBit(words[idx / 64], idx % 64);
    }

    /** The lowest member at or above `from`, or NULL_IDX when there is none. */
    method NextUp(from: nat) returns (r: nat)
      requires Valid()
      ensures r == NULL_IDX ==> forall i :: i in Contents() ==> i < from
      ensures r != NULL_IDX ==> r in Contents() && from <= r < n
      ensures r != NULL_IDX ==> forall i :: i in Contents() && from <= i ==> r <= i
    {
      hide Bit, SetIn, ClearIn, TestIn, FromUp, FromDown, CtzFrom, TopBitFrom;
      if from >= n {
        return NULL_IDX;
      }
      var w := from / 64;
      var bits := FromUp(words[w], from % 64);
      forall j: nat | j < 64 ensures Bit(bits, j) <==> from % 64 <= j && Bit(words[w], j) {
        KeepAbove(words[w], from % 64, j);
      }
      while true
        invariant from / 64 <= w < words.Length
        invariant forall j: nat :: j < 64 ==> (Bit(bits, j) <==> from <= 64 * w + j && Bit(words[w], j))
        invariant forall i :: i in Contents() && from <= i ==> w <= i / 64
        decreases words.Length - w
      {
        if bits != 0 {
          ghost var b := SomeBit(bits);
          r := 64 * w + CtzFrom(bits, 0);
          assert r / 64 == w && r % 64 == CtzFrom(bits, 0);
          assert Has(words[..], r);
          forall i | i in Contents() && from <= i ensures r <= i {
            if i / 64 == w {
              assert Bit(bits, i % 64);
            }
          }
          return;
        }
        w := w + 1;
        if w >= words.Length {
          return NULL_IDX;
        }
        bits := words[w];
      }
    }

    /** The highest member at or below `from`, or NULL_IDX when there is none or `from` is out of range. */
    method NextDown(from: nat) returns (r: nat)
      requires Valid()
      ensures r == NULL_IDX ==> from >= n || forall i :: i in Contents() ==> i > from
      ensures r != NULL_IDX ==> from < n && r in Contents() && r <= from
      ensures r != NULL_IDX ==> forall i :: i in Contents() && i <= from ==> i <= r
    {
      hide Bit, SetIn, ClearIn, TestIn, FromUp, FromDown, CtzFrom, TopBitFrom;
      if from >= n {
        return NULL_IDX;
      }
      var w := from / 64;
      var bits := FromDown(words[w], from % 64);
      forall j: nat | j < 64 ensures Bit(bits, j) <==> j <= from % 64 && Bit(words[w], j) {
        KeepBelow(words[w], from % 64, j);
      }
      while true
        invariant w <= from / 64
        invariant forall j: nat :: j < 64 ==> (Bit(bits, j) <==> 64 * w + j <= from && Bit(words[w], j))
        invariant forall i :: i in Contents() && i <= from ==> i / 64 <= w
        decreases w
      {
        if bits != 0 {
          ghost var b := SomeBit(bits);
          r := 64 * w + TopBitFrom(bits, 63);
          assert r / 64 == w && r % 64 == TopBitFrom(bits, 63);
          assert Has(words[..], r);
          forall i | i in Contents() && i <= from ensures i <= r {
            if i / 64 == w {
              assert Bit(bits, i % 64);
            }
          }
          return;
        }
        if w == 0 {
          return NULL_IDX;
        }
        w := w - 1;
        bits := words[w];
      }
    }
  }
}
