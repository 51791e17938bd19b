/** The intrusive FIFO queue of one price level, threaded through the shared arena by index. */
module Levels {
  import opened Types
  import opened ArenaPool

  function QtyAt(slots: seq<Order>, s: nat): nat {
    if s < |slots| then slots[s].qty else 0
  }

  /** Open quantity of a queue of slots. */
  function SumQty(q: seq<nat>, slots: seq<Order>): nat {
    if q == [] then 0 else QtyAt(slots, q[0]) + SumQty(q[1..], slots)
  }

  function NextOf(q: seq<nat>, k: nat): nat
    requires k < |q|
  {
    if k + 1 < |q| then q[k + 1] else NULL_IDX
  }

  function PrevOf(q: seq<nat>, k: nat): nat
    requires k < |q|
  {
    if k == 0 then NULL_IDX else q[k - 1]
  }

  ghost predicate LinkedAt(q: seq<nat>, slots: seq<Order>, k: nat)
    requires k < |q| && q[k] < |slots|
  {
    && slots[q[k]].next == NextOf(q, k)
    && slots[q[k]].prev == PrevOf(q, k)
  }

  /** `q` threads through `slots` by its links. */
  ghost predicate Linked(q: seq<nat>, slots: seq<Order>) {
    && NoDup(q)
    && (forall k :: 0 <= k < |q| ==> q[k] < |slots|)
    && (forall k :: 0 <= k < |q| ==> LinkedAt(q, slots, k))
  }

  /** The level's own fields stand for the queue `q`; its total is kept modulo 2^32. */
  ghost predicate Heads(lv: PriceLevel, q: seq<nat>, slots: seq<Order>) {
    && lv.head == (if q == [] then NULL_IDX else q[0])
    && lv.tail == (if q == [] then NULL_IDX else q[|q| - 1])
    && lv.count == |q| % TWO32
    && lv.total == SumQty(q, slots) % TWO32
  }

  ghost predicate LevelOk(lv: PriceLevel, q: seq<nat>, slots: seq<Order>) {
    Linked(q, slots) && Heads(lv, q, slots)
  }

  /** Two arenas hold the same order at `s`, links aside. */
  predicate SameOrder(a: Order, b: Order) {
    a.(next := 0, prev := 0) == b.(next := 0, prev := 0)
  }

  /** Links may differ, orders do not; outside `touched` nothing differs. */
  ghost predicate Relinked(was: seq<Order>, now: seq<Order>, touched: seq<nat>) {
    && |was| == |now|
    && (forall s :: 0 <= s < |was| ==> SameOrder(was[s], now[s]))
    && (forall s :: 0 <= s < |was| && s !in touched ==> was[s] == now[s])
  }

  function Without(q: seq<nat>, k: nat): seq<nat>
    requires k < |q|
  {
    q[..k] + q[k + 1..]
  }

  lemma {:induction false} SumSame(q: seq<nat>, was: seq<Order>, now: seq<Order>)
    requires forall k :: 0 <= k < |q| ==> QtyAt(was, q[k]) == QtyAt(now, q[k])
    ensures SumQty(q, was) == SumQty(q, now)
  {
    if q != [] {
      SumSame(q[1..], was, now);
    }
  }

  lemma {:induction false} SumConcat(q: seq<nat>, p: seq<nat>, slots: seq<Order>)
    ensures SumQty(q + p, slots) == SumQty(q, slots) + SumQty(p, slots)
  {
    if q == [] {
      assert q + p == p;
    } else {
      assert (q + p)[1..] == q[1..] + p;
      SumConcat(q[1..], p, slots);
    }
  }

  lemma SumWithout(q: seq<nat>, k: nat, slots: seq<Order>)
    requires k < |q|
    ensures SumQty(q, slots) == SumQty(Without(q, k), slots) + QtyAt(slots, q[k])
  {
    assert q == q[..k] + q[k..];
    assert q[k..] == [q[k]] + q[k + 1..];
    SumConcat(q[..k], q[k..], slots);
    SumConcat(q[..k], q[k + 1..], slots);
  }

  /** A level none of whose slots is touched is left as it was. */
  lemma UntouchedLevel(lv: PriceLevel, q: seq<nat>, was: seq<Order>, now: seq<Order>)
    requires LevelOk(lv, q, was) && |was| == |now|
    requires forall k :: 0 <= k < |q| && q[k] < |was| ==> was[q[k]] == now[q[k]]
    ensures LevelOk(lv, q, now)
  {
    SumSame(q, was, now);
    forall k | 0 <= k < |q| ensures LinkedAt(q, now, k) {
      assert LinkedAt(q, was, k);
    }
  }

  /** No queue of arena slots is so long that the 32-bit count wraps. */
  lemma CountExact(lv: PriceLevel, q: seq<nat>, slots: seq<Order>)
    requires LevelOk(lv, q, slots) && |slots| < TWO32
    ensures lv.count == |q|
  {
    NoDupSize(q, Range(|slots|));
  }

  // ---------- What each operation does to the links ----------

  predicate LinkIn(x: u32, slots: seq<Order>) {
    x == NULL_IDX || x < |slots|
  }

  function SetNext(slots: seq<Order>, at: u32, x: u32): (r: seq<Order>)
    requires LinkIn(at, slots)
    ensures |r| == |slots|
  {
    if at == NULL_IDX || at >= |slots| then slots else slots[at := slots[at].(next := x)]
  }

  function SetPrev(slots: seq<Order>, at: u32, x: u32): (r: seq<Order>)
    requires LinkIn(at, slots)
    ensures |r| == |slots|
  {
    if at == NULL_IDX || at >= |slots| then slots else slots[at := slots[at].(prev := x)]
  }

  function PushLinks(slots: seq<Order>, tail: u32, s: u32): seq<Order>
    requires s < |slots| && LinkIn(tail, slots)
  {
    SetNext(slots[s := slots[s].(prev := tail, next := NULL_IDX)], tail, s)
  }

  function CutLinks(slots: seq<Order>, prev: u32, next: u32): seq<Order>
    requires LinkIn(prev, slots) && LinkIn(next, slots)
  {
    SetPrev(SetNext(slots, prev, next), next, prev)
  }

  lemma LinksInRange(lv: PriceLevel, q: seq<nat>, slots: seq<Order>)
    requires LevelOk(lv, q, slots) && |slots| < TWO32
    ensures LinkIn(lv.head, slots) && LinkIn(lv.tail, slots)
    ensures q == [] <==> lv.head == NULL_IDX
    ensures q == [] <==> lv.tail == NULL_IDX
    ensures q != [] ==> lv.head == q[0] && lv.tail == q[|q| - 1]
  {
    hide SumQty;
    if q != [] {
      assert LinkedAt(q, slots, 0) && LinkedAt(q, slots, |q| - 1);
    }
  }

  lemma LinkEnds(q: seq<nat>, slots: seq<Order>, k: nat)
    requires Linked(q, slots) && k < |q|
    ensures q[k] < |slots| && slots[q[k]].next == NextOf(q, k) && slots[q[k]].prev == PrevOf(q, k)
  {
    assert LinkedAt(q, slots, k);
  }

  lemma PushRelinks(slots: seq<Order>, tail: u32, s: u32, touched: seq<nat>)
    requires s < |slots| < TWO32 && LinkIn(tail, slots) && s in touched && (tail == NULL_IDX || tail in touched)
    ensures Relinked(slots, PushLinks(slots, tail, s), touched)
  {
  }

  lemma PushLinked(q: seq<nat>, slots: seq<Order>, tail: u32, s: u32)
    requires Linked(q, slots) && s < |slots| < TWO32 && s !in q
    requires tail == if q == [] then NULL_IDX else q[|q| - 1]
    ensures LinkIn(tail, slots)
    ensures Linked(q + [s], PushLinks(slots, tail, s))
    ensures Relinked(slots, PushLinks(slots, tail, s), q + [s])
  {
    var now := PushLinks(slots, tail, s);
    var p := q + [s];
    PushRelinks(slots, tail, s, p);
    if q != [] {
      LinkEnds(q, slots, |q| - 1);
    }
    forall k | 0 <= k < |p| ensures LinkedAt(p, now, k) {
      if k < |q| {
        LinkEnds(q, slots, k);
        assert tail == p[|q| - 1];
        assert k < |q| - 1 ==> p[k] != p[|q| - 1];
      }
    }
  }

  lemma CutRelinks(slots: seq<Order>, prev: u32, next: u32, touched: seq<nat>)
    requires LinkIn(prev, slots) && LinkIn(next, slots) && |slots| < TWO32
    requires prev == NULL_IDX || prev in touched
    requires next == NULL_IDX || next in touched
    ensures Relinked(slots, CutLinks(slots, prev, next), touched)
  {
  }

  lemma WithoutAt(q: seq<nat>, k: nat)
    requires k < |q|
    ensures |Without(q, k)| == |q| - 1
    ensures forall j :: 0 <= j < |q| - 1 ==> Without(q, k)[j] == if j < k then q[j] else q[j + 1]
  {
  }

  /** The links of a surviving order after position `k` is cut out. */
  lemma CutEnds(q: seq<nat>, slots: seq<Order>, k: nat, prev: u32, next: u32, j: nat)
    requires Linked(q, slots) && |slots| < TWO32 && k < |q| && j < |q| && j != k
    requires prev == PrevOf(q, k) && next == NextOf(q, k) && LinkIn(prev, slots) && LinkIn(next, slots)
    ensures var now := CutLinks(slots, prev, next);
            && now[q[j]].next == (if j + 1 == k then next else NextOf(q, j))
            && now[q[j]].prev == (if j == k + 1 then prev else PrevOf(q, j))
  {
    LinkEnds(q, slots, j);
    assert k > 0 && j != k - 1 ==> q[j] != q[k - 1];
    assert k + 1 < |q| && j != k + 1 ==> q[j] != q[k + 1];
  }

  lemma NoDupWithout(q: seq<nat>, k: nat)
    requires NoDup(q) && k < |q|
    ensures NoDup(Without(q, k))
  {
    WithoutAt(q, k);
    hide Without;
  }

  lemma CutAt(q: seq<nat>, p: seq<nat>, slots: seq<Order>, now: seq<Order>, k: nat, prev: u32, next: u32, j: nat)
    requires Linked(q, slots) && |slots| < TWO32 && k < |q| && p == Without(q, k) && j < |p|
    requires prev == PrevOf(q, k) && next == NextOf(q, k) && LinkIn(prev, slots) && LinkIn(next, slots)
    requires now == CutLinks(slots, prev, next)
    ensures p[j] < |now| && LinkedAt(p, now, j)
  {
    WithoutAt(q, k);
    CutEnds(q, slots, k, prev, next, if j < k then j else j + 1);
    hide Without, CutLinks, NoDup, LinkIn;
    assert j + 1 < |p| ==> p[j + 1] == if j + 1 < k then q[j + 1] else q[j + 2];
    assert j > 0 ==> p[j - 1] == if j - 1 < k then q[j - 1] else q[j];
  }

  lemma CutLinked(q: seq<nat>, slots: seq<Order>, k: nat, prev: u32, next: u32)
    requires Linked(q, slots) && |slots| < TWO32 && k < |q|
    requires prev == PrevOf(q, k) && next == NextOf(q, k)
    ensures LinkIn(prev, slots) && LinkIn(next, slots)
    ensures Linked(Without(q, k), CutLinks(slots, prev, next))
    ensures Relinked(slots, CutLinks(slots, prev, next), q)
  {
    CutRelinks(slots, prev, next, q);
    NoDupWithout(q, k);
    var now := CutLinks(slots, prev, next);
    var p := Without(q, k);
    forall j: nat | j < |p| ensures p[j] < |now| && LinkedAt(p, now, j) {
      CutAt(q, p, slots, now, k, prev, next, j);
    }
    hide Without, CutLinks, NoDup, LinkedAt;
  }

  /** A level's fields once position `k` is cut out. */
  function CutLevel(lv: PriceLevel, prev: u32, next: u32, qty: u32): PriceLevel {
    PriceLevel(if prev == NULL_IDX then next else lv.head, if next == NULL_IDX then prev else lv.tail,
               (lv.count - 1) % TWO32, (lv.total - qty) % TWO32)
  }

  lemma CutHeads(lv: PriceLevel, q: seq<nat>, slots: seq<Order>, now: seq<Order>, k: nat, prev: u32, next: u32)
    requires LevelOk(lv, q, slots) && |slots| < TWO32 && k < |q|
    requires prev == PrevOf(q, k) && next == NextOf(q, k) && Relinked(slots, now, q)
    ensures Heads(CutLevel(lv, prev, next, slots[q[k]].qty), Without(q, k), now)
  {
    SumRelinked(q, slots, now, q);
    SumWithout(q, k, now);
    WithoutAt(q, k);
    ModDown(|q|, 1);
    ModDown(SumQty(q, slots), slots[q[k]].qty);
    hide Without, SumQty, LinkedAt;
    assert SameOrder(slots[q[k]], now[q[k]]);
  }

  lemma ModDown(a: int, b: int)
    ensures (a % TWO32 - b) % TWO32 == (a - b) % TWO32
  {
  }

  lemma SumRelinked(q: seq<nat>, was: seq<Order>, now: seq<Order>, touched: seq<nat>)
    requires Relinked(was, now, touched)
    ensures SumQty(q, was) == SumQty(q, now)
  {
    SumSame(q, was, now);
  }

  // ---------- The operations ----------

  /** Appends slot `s` to level `i`. */
  method PushBack(levels: array<PriceLevel>, i: nat, s: nat, base: array<Order>, ghost q: seq<nat>)
    requires i < levels.Length && s < base.Length < TWO32
    requires LevelOk(levels[i], q, base[..]) && s !in q
    modifies levels, base
    ensures LevelOk(levels[i], q + [s], base[..])
    ensures levels[..] == old(levels[..])[i := levels[i]]
    ensures Relinked(old(base[..]), base[..], q + [s])
  {
    hide Linked, SumQty, Relinked;
    ghost var was := base[..];
    var lv := levels[i];
    LinksInRange(lv, q, was);
    PushLinked(q, was, lv.tail, s);
    base[s] := base[s].(prev := lv.tail, next := NULL_IDX);
    if lv.tail != NULL_IDX {
      base[lv.tail] := base[lv.tail].(next := s);
    } else {
      lv := lv.(head := s);
    }
    assert base[..] == PushLinks(was, old(levels[i]).tail, s);
    lv := lv.(tail := s, count := (lv.count + 1) % TWO32, total := (lv.total + base[s].qty) % TWO32);
    levels[i] := lv;
    SumConcat(q, [s], base[..]);
    SumOne(s, base[..]);
    SumRelinked(q, was, base[..], q + [s]);
  }

  lemma SumOne(s: nat, slots: seq<Order>)
    ensures SumQty([s], slots) == QtyAt(slots, s)
  {
  }

  /** Takes the first order of level `i`; an empty level gives NULL_IDX and does not change. */
  method PopFront(levels: array<PriceLevel>, i: nat, base: array<Order>, ghost q: seq<nat>) returns (s: nat)
    requires i < levels.Length && base.Length < TWO32
    requires LevelOk(levels[i], q, base[..])
    modifies levels, base
    ensures q == [] ==> s == NULL_IDX && levels[..] == old(levels[..]) && base[..] == old(base[..])
    ensures q != [] ==> s == q[0] && LevelOk(levels[i], q[1..], base[..])
    ensures levels[..] == old(levels[..])[i := levels[i]]
    ensures Relinked(old(base[..]), base[..], q)
  {
    hide Linked, SumQty, Without, Heads;
    ghost var was := base[..];
    var lv := levels[i];
    LinksInRange(lv, q, was);
    if lv.head == NULL_IDX {
      SameRelinked(was, q);
      return NULL_IDX;
    }
    LinkEnds(q, was, 0);
    CutLinked(q, was, 0, NULL_IDX, base[q[0]].next);
    assert Without(q, 0) == q[1..] by { DropFirst(q); }
    s := lv.head;
    lv := lv.(head := base[s].next);
    if lv.head != NULL_IDX {
      base[lv.head] := base[lv.head].(prev := NULL_IDX);
    } else {
      lv := lv.(tail := NULL_IDX);
    }
    assert base[..] == CutLinks(was, NULL_IDX, was[s].next);
    lv := lv.(count := (lv.count - 1) % TWO32, total := (lv.total - base[s].qty) % TWO32);
    assert lv == CutLevel(old(levels[i]), NULL_IDX, was[s].next, was[s].qty);
    levels[i] := lv;
    CutHeads(old(levels[i]), q, was, base[..], 0, NULL_IDX, was[s].next);
  }

  lemma DropFirst(q: seq<nat>)
    requires q != []
    ensures Without(q, 0) == q[1..]
  {
  }

  lemma SameRelinked(slots: seq<Order>, touched: seq<nat>)
    ensures Relinked(slots, slots, touched)
  {
  }

  /** Unlinks the order at position `k` of level `i`, wherever in the queue it is. */
  method Remove(levels: array<PriceLevel>, i: nat, s: nat, base: array<Order>, ghost q: seq<nat>, ghost k: nat)
    requires i < levels.Length && base.Length < TWO32
    requires LevelOk(levels[i], q, base[..]) && k < |q| && q[k] == s
    modifies levels, base
    ensures LevelOk(levels[i], Without(q, k), base[..])
    ensures levels[..] == old(levels[..])[i := levels[i]]
    ensures Relinked(old(base[..]), base[..], q)
  {
    hide Linked, SumQty, Relinked, Heads, Without;
    ghost var was := base[..];
    var lv := levels[i];
    LinkEnds(q, was, k);
    CutLinked(q, was, k, base[s].prev, base[s].next);
    var o := base[s];
    if o.prev != NULL_IDX {
      base[o.prev] := base[o.prev].(next := o.next);
    } else {
      lv := lv.(head := o.next);
    }
    if o.next != NULL_IDX {
      base[o.next] := base[o.next].(prev := o.prev);
    } else {
      lv := lv.(tail := o.prev);
    }
    assert base[..] == CutLinks(was, o.prev, o.next);
    lv := lv.(count := (lv.count - 1) % TWO32, total := (lv.total - o.qty) % TWO32);
    assert lv == CutLevel(old(levels[i]), o.prev, o.next, o.qty);
    levels[i] := lv;
    CutHeads(old(levels[i]), q, was, base[..], k, o.prev, o.next);
  }
}
