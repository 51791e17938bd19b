/** A ladder of slot queues, read as one price-time priority list of resting orders. */
module Ladders {
  import opened Types
  import opened PriceTime
  import opened ArenaPool
  import opened Levels

  /** The level of rank `r`: asks are ranked from the lowest level up, bids from the highest down. */
  function Ranked(side: Side, n: nat, r: nat): nat
    requires r < n
    ensures Ranked(side, n, r) < n
  {
    if side == Buy then n - 1 - r else r
  }

  /** The slots of rank `r` and worse, best first. */
  function FlatFrom(side: Side, q: seq<seq<nat>>, r: nat): seq<nat>
    requires r <= |q|
    decreases |q| - r
  {
    if r == |q| then [] else q[Ranked(side, |q|, r)] + FlatFrom(side, q, r + 1)
  }

  function Flat(side: Side, q: seq<seq<nat>>): seq<nat> {
    FlatFrom(side, q, 0)
  }

  /** The resting order a slot holds. */
  function ViewOf(cfg: Config, slots: seq<Order>, sess: seq<u32>, s: nat): (r: Resting)
    requires cfg.Valid()
    ensures r.name == s
  {
    if s < |slots| && s < |sess| then
      var o := slots[s];
      var idx := if InLadder(cfg, o.price) then PriceToIdx(cfg, o.price) else 0;
      Resting(s, o.id, o.price, idx, o.qty, o.symbol, sess[s])
    else
      Resting(s, 0, 0, 0, 0, 0, 0)
  }

  function Views(cfg: Config, slots: seq<Order>, sess: seq<u32>, f: seq<nat>): (r: seq<Resting>)
    requires cfg.Valid()
    ensures |r| == |f| && forall k :: 0 <= k < |f| ==> r[k] == ViewOf(cfg, slots, sess, f[k])
  {
    seq(|f|, k requires 0 <= k < |f| => ViewOf(cfg, slots, sess, f[k]))
  }

  lemma ViewNames(cfg: Config, slots: seq<Order>, sess: seq<u32>, f: seq<nat>)
    requires cfg.Valid()
    ensures Names(Views(cfg, slots, sess, f)) == f
  {
  }

  lemma ViewsConcat(cfg: Config, slots: seq<Order>, sess: seq<u32>, f: seq<nat>, g: seq<nat>)
    requires cfg.Valid()
    ensures Views(cfg, slots, sess, f + g) == Views(cfg, slots, sess, f) + Views(cfg, slots, sess, g)
  {
  }

  /** What level `i` of `side` may hold: open orders of that side whose price is on that level. */
  ghost predicate BelongsAt(side: Side, cfg: Config, i: nat, o: Order)
    requires cfg.Valid()
  {
    SideOf(o.side) == side && PriceToIdx(cfg, o.price) == i && o.qty > 0
  }

  ghost predicate QueueOk(side: Side, cfg: Config, i: nat, q: seq<nat>, slots: seq<Order>)
    requires cfg.Valid()
  {
    forall k :: 0 <= k < |q| ==> q[k] < |slots| && BelongsAt(side, cfg, i, slots[q[k]])
  }

  ghost predicate QueuesOk(side: Side, cfg: Config, q: seq<seq<nat>>, slots: seq<Order>)
    requires cfg.Valid()
  {
    && |q| == cfg.ladder
    && forall i :: 0 <= i < |q| ==> QueueOk(side, cfg, i, q[i], slots)
  }

  // ---------- Replacing one level ----------

  lemma {:induction false} FlatTail(side: Side, q: seq<seq<nat>>, i: nat, x: seq<nat>, r: nat)
    requires i < |q| && Ranked(side, |q|, i) < r <= |q|
    ensures FlatFrom(side, q[i := x], r) == FlatFrom(side, q, r)
    decreases |q| - r
  {
    if r < |q| {
      FlatTail(side, q, i, x, r + 1);
    }
  }

  /** All better levels empty: the list starts with level `i`. */
  lemma {:induction false} FlatHead(side: Side, q: seq<seq<nat>>, i: nat, r: nat)
    requires i < |q| && r <= Ranked(side, |q|, i)
    requires forall j :: 0 <= j < |q| && Better(side, j, i) ==> q[j] == []
    ensures FlatFrom(side, q, r) == q[i] + FlatFrom(side, q, Ranked(side, |q|, i) + 1)
    decreases |q| - r
  {
    if r < Ranked(side, |q|, i) {
      assert Better(side, Ranked(side, |q|, r), i);
      FlatHead(side, q, i, r + 1);
      assert q[Ranked(side, |q|, r)] == [];
    }
  }

  /** Taking the first order of the best level takes the first order of the list. */
  lemma FlatPop(side: Side, q: seq<seq<nat>>, i: nat)
    requires i < |q| && q[i] != [] && forall j :: 0 <= j < |q| && Better(side, j, i) ==> q[j] == []
    ensures Flat(side, q) != [] && Flat(side, q)[0] == q[i][0]
    ensures Flat(side, q[i := q[i][1..]]) == Flat(side, q)[1..]
  {
    hide FlatFrom;
    var tail := FlatFrom(side, q, Ranked(side, |q|, i) + 1);
    FlatHead(side, q, i, 0);
    FlatHead(side, q[i := q[i][1..]], i, 0);
    FlatTail(side, q, i, q[i][1..], Ranked(side, |q|, i) + 1);
    assert (q[i] + tail)[1..] == q[i][1..] + tail;
  }

  lemma {:induction false} FlatEmpty(side: Side, q: seq<seq<nat>>, r: nat)
    requires r <= |q| && forall j :: 0 <= j < |q| ==> q[j] == []
    ensures FlatFrom(side, q, r) == []
    decreases |q| - r
  {
    if r < |q| {
      FlatEmpty(side, q, r + 1);
    }
  }

  lemma {:induction false} InFlatFrom(side: Side, q: seq<seq<nat>>, i: nat, k: nat, r: nat)
    requires i < |q| && k < |q[i]| && r <= Ranked(side, |q|, i)
    ensures q[i][k] in FlatFrom(side, q, r)
    decreases |q| - r
  {
    if r < Ranked(side, |q|, i) {
      InFlatFrom(side, q, i, k, r + 1);
    }
  }

  lemma InFlat(side: Side, q: seq<seq<nat>>, i: nat, k: nat)
    requires i < |q| && k < |q[i]|
    ensures q[i][k] in Flat(side, q)
  {
    InFlatFrom(side, q, i, k, 0);
  }

  lemma {:induction false} FlatOrigin(side: Side, q: seq<seq<nat>>, r: nat, m: nat) returns (i: nat, k: nat)
    requires r <= |q| && m < |FlatFrom(side, q, r)|
    ensures i < |q| && k < |q[i]| && q[i][k] == FlatFrom(side, q, r)[m] && r <= Ranked(side, |q|, i)
    decreases |q| - r
  {
    var j := Ranked(side, |q|, r);
    if m < |q[j]| {
      return j, m;
    } else {
      i, k := FlatOrigin(side, q, r + 1, m - |q[j]|);
    }
  }

  // ---------- Agreement with the reference list ----------

  lemma {:induction false} InsertPast(side: Side, a: seq<Resting>, b: seq<Resting>, v: Resting)
    requires forall k :: 0 <= k < |a| ==> !Better(side, v.idx, a[k].idx)
    ensures Insert(side, a + b, v) == a + Insert(side, b, v)
  {
    if a == [] {
      assert a + b == b;
    } else {
      InsertPast(side, a[1..], b, v);
      assert (a + b)[1..] == a[1..] + b;
    }
  }

  lemma ViewBelongs(side: Side, cfg: Config, i: nat, q: seq<nat>, slots: seq<Order>, sess: seq<u32>)
    requires cfg.Valid() && i < cfg.ladder && |sess| == |slots| && QueueOk(side, cfg, i, q, slots)
    ensures forall k :: 0 <= k < |q| ==> ViewOf(cfg, slots, sess, q[k]).idx == i
  {
  }

  /** Every order of rank `r` and worse is on a level of rank `r` or worse. */
  lemma FlatLevels(side: Side, cfg: Config, q: seq<seq<nat>>, slots: seq<Order>, sess: seq<u32>, r: nat)
    requires cfg.Valid() && |sess| == |slots| && QueuesOk(side, cfg, q, slots) && r <= |q|
    ensures forall m :: 0 <= m < |FlatFrom(side, q, r)| ==>
              var j := ViewOf(cfg, slots, sess, FlatFrom(side, q, r)[m]).idx;
              j < |q| && r <= Ranked(side, |q|, j)
  {
    forall m | 0 <= m < |FlatFrom(side, q, r)|
      ensures var j := ViewOf(cfg, slots, sess, FlatFrom(side, q, r)[m]).idx;
              j < |q| && r <= Ranked(side, |q|, j)
    {
      var i, k := FlatOrigin(side, q, r, m);
      ViewBelongs(side, cfg, i, q[i], slots, sess);
    }
  }

  /** Appending a slot to its level is inserting its order in the list. */
  lemma {:induction false} FlatPush(side: Side, cfg: Config, q: seq<seq<nat>>, slots: seq<Order>, sess: seq<u32>,
                                    i: nat, s: nat, r: nat)
    requires cfg.Valid() && |sess| == |slots| && QueuesOk(side, cfg, q, slots)
    requires i < |q| && r <= Ranked(side, |q|, i) && ViewOf(cfg, slots, sess, s).idx == i
    ensures Views(cfg, slots, sess, FlatFrom(side, q[i := q[i] + [s]], r))
         == Insert(side, Views(cfg, slots, sess, FlatFrom(side, q, r)), ViewOf(cfg, slots, sess, s))
    decreases |q| - r
  {
    hide ViewOf, Views, Insert, QueueOk;
    var j := Ranked(side, |q|, r);
    var v := ViewOf(cfg, slots, sess, s);
    var rest := FlatFrom(side, q, r + 1);
    var q' := q[i := q[i] + [s]];
    assert QueueOk(side, cfg, j, q[j], slots);
    ViewBelongs(side, cfg, j, q[j], slots, sess);
    ViewsConcat(cfg, slots, sess, q[j], rest);
    InsertPast(side, Views(cfg, slots, sess, q[j]), Views(cfg, slots, sess, rest), v);
    if j == i {
      FlatTail(side, q, i, q[i] + [s], r + 1);
      FlatLevels(side, cfg, q, slots, sess, r + 1);
      InsertFront(side, Views(cfg, slots, sess, rest), v);
      ViewsConcat(cfg, slots, sess, q[i] + [s], rest);
      ViewsConcat(cfg, slots, sess, q[i], [s]);
      assert Views(cfg, slots, sess, [s]) == [v];
    } else {
      FlatPush(side, cfg, q, slots, sess, i, s, r + 1);
      ViewsConcat(cfg, slots, sess, q[j], FlatFrom(side, q', r + 1));
    }
  }

  lemma InsertFront(side: Side, b: seq<Resting>, v: Resting)
    requires forall k :: 0 <= k < |b| ==> Better(side, v.idx, b[k].idx)
    ensures Insert(side, b, v) == [v] + b
  {
  }

  lemma {:induction false} DeletePast(a: seq<Resting>, b: seq<Resting>, name: nat)
    requires forall k :: 0 <= k < |a| ==> a[k].name != name
    ensures Delete(a + b, name) == a + Delete(b, name)
  {
    if a == [] {
      assert a + b == b;
    } else {
      DeletePast(a[1..], b, name);
      assert (a + b)[1..] == a[1..] + b;
    }
  }

  lemma DeleteFound(a: seq<Resting>, v: Resting, b: seq<Resting>)
    requires forall k :: 0 <= k < |a| ==> a[k].name != v.name
    ensures Delete(a + [v] + b, v.name) == a + b
  {
    assert a + [v] + b == a + ([v] + b);
    DeletePast(a, [v] + b, v.name);
  }

  lemma {:induction false} FlatCutAt(side: Side, q: seq<seq<nat>>, i: nat, k: nat, r: nat) returns (m: nat)
    requires i < |q| && k < |q[i]| && r <= Ranked(side, |q|, i)
    ensures m < |FlatFrom(side, q, r)| && FlatFrom(side, q, r)[m] == q[i][k]
    ensures FlatFrom(side, q[i := Without(q[i], k)], r) == Without(FlatFrom(side, q, r), m)
    decreases |q| - r
  {
    var j := Ranked(side, |q|, r);
    var rest := FlatFrom(side, q, r + 1);
    if j == i {
      FlatTail(side, q, i, Without(q[i], k), r + 1);
      WithoutLeft(q[i], rest, k);
      m := k;
    } else {
      var m' := FlatCutAt(side, q, i, k, r + 1);
      WithoutRight(q[j], rest, m');
      m := |q[j]| + m';
    }
    hide Without;
  }

  lemma WithoutLeft(a: seq<nat>, b: seq<nat>, k: nat)
    requires k < |a|
    ensures Without(a, k) + b == Without(a + b, k) && (a + b)[k] == a[k]
  {
  }

  lemma WithoutRight(a: seq<nat>, b: seq<nat>, k: nat)
    requires k < |b|
    ensures a + Without(b, k) == Without(a + b, |a| + k) && (a + b)[|a| + k] == b[k]
  {
  }

  lemma ViewsCut(cfg: Config, slots: seq<Order>, sess: seq<u32>, f: seq<nat>, m: nat)
    requires cfg.Valid() && NoDup(f) && m < |f|
    ensures Views(cfg, slots, sess, Without(f, m)) == Delete(Views(cfg, slots, sess, f), f[m])
  {
    hide ViewOf;
    var a, b := f[..m], f[m + 1..];
    var va, vb := Views(cfg, slots, sess, a), Views(cfg, slots, sess, b);
    var v := ViewOf(cfg, slots, sess, f[m]);
    assert Views(cfg, slots, sess, f) == va + [v] + vb;
    DeleteFound(va, v, vb);
    ViewsConcat(cfg, slots, sess, a, b);
  }

  /** Cutting a slot out of its level is deleting its order from the list. */
  lemma FlatCut(side: Side, cfg: Config, q: seq<seq<nat>>, slots: seq<Order>, sess: seq<u32>, i: nat, k: nat)
    requires cfg.Valid() && i < |q| && k < |q[i]| && NoDup(Flat(side, q))
    ensures Views(cfg, slots, sess, Flat(side, q[i := Without(q[i], k)]))
         == Delete(Views(cfg, slots, sess, Flat(side, q)), q[i][k])
  {
    var m := FlatCutAt(side, q, i, k, 0);
    ViewsCut(cfg, slots, sess, Flat(side, q), m);
  }

  /** The list depends only on the slots it holds. */
  lemma ViewsSame(cfg: Config, was: seq<Order>, now: seq<Order>, sessWas: seq<u32>, sessNow: seq<u32>, f: seq<nat>)
    requires cfg.Valid() && |was| == |now| == |sessWas| == |sessNow|
    requires forall k :: 0 <= k < |f| && f[k] < |was| ==>
               SameOrder(was[f[k]], now[f[k]]) && sessWas[f[k]] == sessNow[f[k]]
    ensures Views(cfg, was, sessWas, f) == Views(cfg, now, sessNow, f)
  {
    assert forall k :: 0 <= k < |f| ==> ViewOf(cfg, was, sessWas, f[k]) == ViewOf(cfg, now, sessNow, f[k]);
  }
}
