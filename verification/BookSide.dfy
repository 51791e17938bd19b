/** One side of a book: its ladder of levels, occupancy bitmap and cached best level. */
module BookSides {
  import opened Types
  import opened PriceTime
  import opened ArenaPool
  import opened Levels
  import opened Ladders
  import opened Bitmap

  ghost predicate LevelsOk(levels: seq<PriceLevel>, q: seq<seq<nat>>, slots: seq<Order>) {
    && |levels| == |q|
    && forall i :: 0 <= i < |q| ==> LevelOk(levels[i], q[i], slots)
  }

  /** The ladder's links and fields stand for the queues `q`, each order on the level of its price. */
  ghost predicate LadderOk(side: Side, cfg: Config, levels: seq<PriceLevel>, q: seq<seq<nat>>, slots: seq<Order>)
    requires cfg.Valid()
  {
    QueuesOk(side, cfg, q, slots) && LevelsOk(levels, q, slots)
  }

  ghost predicate Cleared(side: Side, q: seq<seq<nat>>, i: nat) {
    forall j :: 0 <= j < |q| && Better(side, j, i) ==> q[j] == []
  }

  /** The cached best level is the best non-empty one, or NULL_IDX when the side is empty. */
  ghost predicate BestIs(side: Side, best: nat, q: seq<seq<nat>>) {
    if best == NULL_IDX then forall j :: 0 <= j < |q| ==> q[j] == []
    else best < |q| && q[best] != [] && Cleared(side, q, best)
  }

  /** An occupancy bit is set exactly for the non-empty levels. */
  ghost predicate Occupied(occ: set<nat>, q: seq<seq<nat>>) {
    forall j: nat :: j in occ <==> j < |q| && q[j] != []
  }

  /** The same, except that level `i` may have emptied with its bit still set. */
  ghost predicate OccupiedBut(occ: set<nat>, q: seq<seq<nat>>, i: nat) {
    forall j: nat :: j in occ <==> j < |q| && (j == i || q[j] != [])
  }

  // ---------- Frames ----------

  lemma LevelsDisjoint(side: Side, cfg: Config, q: seq<seq<nat>>, slots: seq<Order>, i: nat, j: nat)
    requires cfg.Valid() && QueuesOk(side, cfg, q, slots) && i < |q| && j < |q| && i != j
    ensures forall a :: 0 <= a < |q[i]| ==> q[i][a] !in q[j]
  {
    assert QueueOk(side, cfg, i, q[i], slots) && QueueOk(side, cfg, j, q[j], slots);
  }

  /** A side none of whose slots changed is left as it was. */
  lemma UntouchedLadder(side: Side, cfg: Config, levels: seq<PriceLevel>, q: seq<seq<nat>>,
                        was: seq<Order>, now: seq<Order>)
    requires cfg.Valid() && LadderOk(side, cfg, levels, q, was) && |was| == |now|
    requires forall s :: s in Flat(side, q) && s < |was| ==> was[s] == now[s]
    ensures LadderOk(side, cfg, levels, q, now)
  {
    forall i | 0 <= i < |q|
      ensures LevelOk(levels[i], q[i], now) && QueueOk(side, cfg, i, q[i], now)
    {
      assert LevelOk(levels[i], q[i], was) && QueueOk(side, cfg, i, q[i], was);
      forall k | 0 <= k < |q[i]| ensures was[q[i][k]] == now[q[i][k]] {
        InFlat(side, q, i, k);
      }
      UntouchedLevel(levels[i], q[i], was, now);
    }
  }

  /** Slots that no level other than `i` uses. */
  ghost predicate Apart(side: Side, q: seq<seq<nat>>, i: nat, touched: seq<nat>)
    requires i < |q|
  {
    forall s :: s in touched ==> s in q[i] || s !in Flat(side, q)
  }

  /** Level `i` replaced by a well-formed one while only slots of no other level changed. */
  lemma ReplaceLevel(side: Side, cfg: Config, levels: seq<PriceLevel>, q: seq<seq<nat>>, was: seq<Order>,
                     now: seq<Order>, i: nat, lv: PriceLevel, x: seq<nat>, touched: seq<nat>)
    requires cfg.Valid() && LadderOk(side, cfg, levels, q, was) && i < |q| && |was| == |now|
    requires forall s :: 0 <= s < |was| && s !in touched ==> was[s] == now[s]
    requires Apart(side, q, i, touched)
    requires LevelOk(lv, x, now) && QueueOk(side, cfg, i, x, now)
    ensures LadderOk(side, cfg, levels[i := lv], q[i := x], now)
  {
    forall j | 0 <= j < |q| && j != i
      ensures LevelOk(levels[j], q[j], now) && QueueOk(side, cfg, j, q[j], now)
    {
      LevelsDisjoint(side, cfg, q, was, j, i);
      assert LevelOk(levels[j], q[j], was) && QueueOk(side, cfg, j, q[j], was);
      forall k | 0 <= k < |q[j]| ensures was[q[j][k]] == now[q[j][k]] {
        InFlat(side, q, j, k);
      }
      UntouchedLevel(levels[j], q[j], was, now);
    }
  }

  lemma RelinkedQueue(side: Side, cfg: Config, i: nat, q: seq<nat>, was: seq<Order>, now: seq<Order>, touched: seq<nat>)
    requires cfg.Valid() && QueueOk(side, cfg, i, q, was) && Relinked(was, now, touched)
    ensures QueueOk(side, cfg, i, q, now)
  {
    forall k | 0 <= k < |q| ensures BelongsAt(side, cfg, i, now[q[k]]) {
      assert SameOrder(was[q[k]], now[q[k]]);
    }
  }

  // ---------- One trade ----------

  /** Both orders of a trade lose the traded quantity. */
  function AfterTrade(slots: seq<Order>, a: nat, r: nat, qty: u32): (now: seq<Order>)
    requires a < |slots| && r < |slots| && a != r && qty <= slots[a].qty && qty <= slots[r].qty
    ensures |now| == |slots|
  {
    slots[a := slots[a].(qty := slots[a].qty - qty)][r := slots[r].(qty := slots[r].qty - qty)]
  }

  lemma {:induction false} SumTraded(q: seq<nat>, slots: seq<Order>, a: nat, qty: u32)
    requires Linked(q, slots) && q != [] && a < |slots| && a !in q && qty <= slots[a].qty && qty <= slots[q[0]].qty
    ensures SumQty(q, AfterTrade(slots, a, q[0], qty)) == SumQty(q, slots) - qty
  {
    var now := AfterTrade(slots, a, q[0], qty);
    forall k | 0 <= k < |q| - 1 ensures QtyAt(slots, q[1..][k]) == QtyAt(now, q[1..][k]) {
      assert q[0] != q[k + 1];
    }
    SumSame(q[1..], slots, now);
  }

  lemma TradedLevel(lv: PriceLevel, q: seq<nat>, slots: seq<Order>, a: nat, qty: u32)
    requires LevelOk(lv, q, slots) && q != [] && a < |slots| && a !in q && qty <= slots[a].qty && qty <= slots[q[0]].qty
    ensures LevelOk(lv.(total := (lv.total - qty) % TWO32), q, AfterTrade(slots, a, q[0], qty))
  {
    var now := AfterTrade(slots, a, q[0], qty);
    SumTraded(q, slots, a, qty);
    hide SumQty;
    forall k | 0 <= k < |q| ensures LinkedAt(q, now, k) {
      assert LinkedAt(q, slots, k);
    }
  }

  // ---------- Index maintenance ----------

  lemma BestAfterPush(side: Side, best: nat, q: seq<seq<nat>>, i: nat, s: nat)
    requires BestIs(side, best, q) && i < |q| < TWO32
    ensures BestIs(side, if best == NULL_IDX || Better(side, i, best) then i else best, q[i := q[i] + [s]])
  {
  }

  /** The scan result that follows once level `i`, all better ones being empty, has emptied. */
  ghost predicate NextBest(side: Side, occ: set<nat>, i: nat, r: nat) {
    if r == NULL_IDX then forall j :: j in occ ==> !Better(side, i, j)
    else r in occ && Better(side, i, r) && forall j :: j in occ && Better(side, i, j) ==> !Better(side, j, r)
  }

  lemma BestAfterScan(side: Side, occ: set<nat>, q: seq<seq<nat>>, i: nat, r: nat)
    requires Occupied(occ, q) && i < |q| < TWO32 && q[i] == [] && Cleared(side, q, i) && NextBest(side, occ, i, r)
    ensures BestIs(side, r, q)
  {
    forall j: nat | j < |q| && q[j] != [] ensures j in occ && Better(side, i, j) {
    }
  }

  class BookSide {
    const side: Side
    const cfg: Config
    const levels: array<PriceLevel>
    const occ: LevelBitmap
    var best: nat
    /** The slots queued on each level. */
    ghost var q: seq<seq<nat>>

    ghost const Repr: set<object> := {this, levels, occ, occ.words}

    ghost predicate Shape()
      reads Repr
    {
      && cfg.Valid()
      && levels.Length == |q| == occ.n == cfg.ladder
      && occ.Valid()
      && levels as object != occ.words
    }

    ghost predicate Ok(slots: seq<Order>)
      reads Repr
      ensures Ok(slots) ==> Shape()
    {
      && Shape() && |slots| < TWO32
      && LadderOk(side, cfg, levels[..], q, slots)
      && Occupied(occ.Contents(), q)
      && BestIs(side, best, q)
    }

    /** The side as the reference book sees it. */
    ghost function List(slots: seq<Order>, sess: seq<u32>): seq<Resting>
      reads Repr
      requires Shape()
    {
      Views(cfg, slots, sess, Flat(side, q))
    }

    constructor (side: Side, cfg: Config)
      requires cfg.Valid()
      ensures Shape() && fresh(Repr) && this.side == side && this.cfg == cfg
      ensures best == NULL_IDX && q == seq(cfg.ladder, _ => []) && occ.Contents() == {}
      ensures levels[..] == seq(cfg.ladder, _ => EMPTY_LEVEL)
    {
      this.side := side;
      this.cfg := cfg;
      levels := new PriceLevel[cfg.ladder](_ => EMPTY_LEVEL);
      occ := new LevelBitmap(cfg.ladder);
      best := NULL_IDX;
      q := seq(cfg.ladder, _ => []);
    }

    /** The best occupied level from `from` outward. */
    method FindBest(from: nat) returns (r: nat)
      requires Shape()
      ensures side == Sell ==>
                if r == NULL_IDX then forall i :: i in occ.Contents() ==> i < from
                else r in occ.Contents() && from <= r && forall i :: i in occ.Contents() && from <= i ==> r <= i
      ensures side == Buy && from < cfg.ladder ==>
                if r == NULL_IDX then forall i :: i in occ.Contents() ==> i > from
                else r in occ.Contents() && r <= from && forall i :: i in occ.Contents() && i <= from ==> i <= r
      ensures side == Buy && from >= cfg.ladder ==> r == NULL_IDX
    {
      if side == Buy {
        r := occ.NextDown(from);
      } else {
        r := occ.NextUp(from);
      }
    }

    /** Level `i` has emptied: clear its bit and, if it was the best, look outward for the next. */
    method Vacate(i: nat)
      requires Shape() && i < cfg.ladder && q[i] == []
      requires OccupiedBut(occ.Contents(), q, i)
      requires if best == i then Cleared(side, q, i) else BestIs(side, best, q)
      modifies occ.words, `best
      ensures Shape() && Occupied(occ.Contents(), q) && BestIs(side, best, q)
    {
      occ.Clear(i);
      if best == i {
        if side == Buy {
          best := FindBest(if i > 0 then i - 1 else NULL_IDX);
        } else {
          best := FindBest(i + 1);
        }
        assert NextBest(side, occ.Contents(), i, best);
        BestAfterScan(side, occ.Contents(), q, i, best);
      }
    }

    /** Rests slot `s` at the back of level `i`. */
    method Rest(s: nat, i: nat, base: array<Order>, ghost sess: seq<u32>)
      requires Ok(base[..]) && s < base.Length == |sess| && i < cfg.ladder && s !in Flat(side, q)
      requires BelongsAt(side, cfg, i, base[s]) && base !in Repr
      modifies levels, occ.words, `best, `q, base
      ensures Ok(base[..])
      ensures Relinked(old(base[..]), base[..], old(Flat(side, q)) + [s])
      ensures List(base[..], sess) == Insert(side, old(List(base[..], sess)), ViewOf(cfg, old(base[..]), sess, s))
    {
      hide LevelOk, Relinked, Occupied, BestIs, QueueOk, LevelsOk;
      ghost var was, q0, l0 := base[..], q, levels[..];
      LevelReady(levels[..], q, was, i);
      NotInLevel(side, q, i, s);
      PushBack(levels, i, s, base, q[i]);
      OccupiedAfterPush(occ.Contents(), q, i, s);
      occ.Set(i);
      BestAfterPush(side, best, q, i, s);
      if best == NULL_IDX || Better(side, i, best) {
        best := i;
      }
      q := q[i := q[i] + [s]];
      PushedLadder(side, cfg, l0, q0, was, base[..], i, s, levels[i], sess);
    }

    /** Takes slot `s`, the order at position `k` of level `i`, out of the side. */
    method Take(s: nat, i: nat, base: array<Order>, ghost k: nat, ghost sess: seq<u32>)
      requires Ok(base[..]) && base !in Repr && i < cfg.ladder && |sess| == base.Length
      requires k < |q[i]| && q[i][k] == s && NoDup(Flat(side, q))
      modifies levels, occ.words, `best, `q, base
      ensures Ok(base[..])
      ensures Relinked(old(base[..]), base[..], old(Flat(side, q)))
      ensures List(base[..], sess) == Delete(old(List(base[..], sess)), s)
    {
      hide LevelOk, Relinked, Occupied, BestIs, QueueOk, LevelsOk, Without, OccupiedBut, Cleared;
      ghost var was, q0, l0 := base[..], q, levels[..];
      LevelReady(levels[..], q, was, i);
      Remove(levels, i, s, base, q[i], k);
      q := q[i := Without(q[i], k)];
      CutLadder(side, cfg, l0, q0, was, base[..], i, k, levels[i], sess);
      LinksInRange(levels[i], q[i], base[..]);
      IndexAfterCut(side, occ.Contents(), best, q0, i, q[i]);
      if levels[i].head == NULL_IDX {
        Vacate(i);
      }
    }

    /** Inside the matching loop: as `Ok`, but the best level may have emptied. */
    ghost predicate Working(slots: seq<Order>)
      reads Repr
    {
      && Shape() && |slots| < TWO32 && best < cfg.ladder
      && LadderOk(side, cfg, levels[..], q, slots)
      && OccupiedBut(occ.Contents(), q, best)
      && Cleared(side, q, best)
    }

    /** Reports a trade of the order in slot `a` with the first order of the best level; both lose its quantity. */
    method Trade(a: nat, base: array<Order>, orderSession: array<u32>) returns (r: nat, f: Fill)
      requires Working(base[..]) && q[best] != [] && a < base.Length == orderSession.Length && a !in Flat(side, q)
      modifies levels, base
      ensures r == q[best][0] < base.Length && r != a && best < |q|
      ensures var o, p := old(base[a]), old(base[r]);
              && f == Fill(o.id, p.id, p.price, Min(o.qty, p.qty), old(orderSession[r]))
              && base[..] == AfterTrade(old(base[..]), a, r, f.qty)
      ensures levels[..] == old(levels[..])[best := levels[best]] && LevelOk(levels[best], q[best], base[..])
    {
      hide LevelOk, Occupied, BestIs, QueueOk, LevelsOk, OccupiedBut, Cleared, Flat, Views, ViewOf;
      var b := best;
      LevelReady(levels[..], q, base[..], b);
      LinksInRange(levels[b], q[b], base[..]);
      NotInLevel(side, q, b, a);
      r := levels[b].head;
      var qty := Min(base[a].qty, base[r].qty);
      f := Fill(base[a].id, base[r].id, base[r].price, qty, orderSession[r]);
      TradedLevel(levels[b], q[b], base[..], a, qty);
      levels[b] := levels[b].(total := (levels[b].total - qty) % TWO32);
      base[a] := base[a].(qty := base[a].qty - qty);
      base[r] := base[r].(qty := base[r].qty - qty);
    }

    /** Trades the order in slot `a` with the first order of the best level, which leaves when it is exhausted. */
    method FillHead(a: nat, pool: Pool, orderSession: array<u32>) returns (f: Fill)
      requires pool.Valid() && pool.Repr !! Repr && orderSession !in pool.Repr + Repr && orderSession.Length == pool.n
      requires Working(pool.slots[..]) && q[best] != []
      requires a < pool.n && a !in Flat(side, q) && pool.slots[a].qty > 0 && NoDup(pool.Free() + Flat(side, q))
      modifies levels, `q, pool.slots, pool.freeList, pool.gen, pool`freeTop
      ensures pool.Valid() && Working(pool.slots[..])
      ensures HeadFilled(best, old(pool.slots[a]), f, old(List(pool.slots[..], orderSession[..])),
                         List(pool.slots[..], orderSession[..]), old(pool.View()), pool.View())
      ensures 0 < f.qty <= old(pool.slots[a].qty)
      ensures Elsewhere(old(pool.slots[..]), pool.slots[..], old(Flat(side, q)), a, f.qty)
    {
      hide LevelOk, Occupied, BestIs, QueueOk, LevelsOk, OccupiedBut, Cleared, Flat, Views, ViewOf, PriceTime.Release,
           Elsewhere;
      ghost var s0, q0, l0, sess := pool.slots[..], q, levels[..], orderSession[..];
      HeadFacts(side, cfg, l0, q0, s0, sess, best);
      NoDupParts(pool.Free(), Flat(side, q0));
      var r;
      r, f := Trade(a, pool.slots, orderSession);
      if pool.slots[r].qty == 0 {
        var x := PopFront(levels, best, pool.slots, q0[best]);
        q := q[best := q0[best][1..]];
        PoppedLadder(side, cfg, l0, q0, s0, pool.slots[..], best, a, f.qty, levels[best], sess);
        pool.Release(r);
      } else {
        TradedLadder(side, cfg, l0, q0, s0, best, a, f.qty, levels[best], sess);
        assert q == q0[best := q[best]];
      }
      assert levels[..] == l0[best := levels[best]];
      IndexAfterFill(side, occ.Contents(), q0, best, q[best]);
    }

    /** Where matching of the order in slot `a` against this side ends. */
    ghost function Ending(a: nat, limit: nat, cap: nat, fills: seq<Fill>, slots: seq<Order>, sess: seq<u32>,
                          arena: Arena): Outcome
      reads Repr
      requires Shape() && a < |slots| && |fills| <= cap
    {
      Finish(Opposite(side), limit, slots[a].id, cap, slots[a].qty, List(slots, sess), fills, arena)
    }

    /** One more fill: where matching ends does not change, and the front of the list may leave for the free stack. */
    method FillStep(a: nat, limit: nat, pool: Pool, orderSession: array<u32>, cap: nat, start: seq<Fill>)
      returns (fills: seq<Fill>)
      requires pool.Valid() && pool.Repr !! Repr && orderSession !in pool.Repr + Repr && orderSession.Length == pool.n
      requires Working(pool.slots[..]) && q[best] != []
      requires a < pool.n && a !in Flat(side, q) && pool.slots[a].qty > 0 && NoDup(pool.Free() + Flat(side, q))
      requires |start| < cap && Crosses(Opposite(side), limit, best)
      modifies levels, `q, pool.slots, pool.freeList, pool.gen, pool`freeTop
      ensures pool.Valid() && Working(pool.slots[..]) && |fills| == |start| + 1
      ensures Ending(a, limit, cap, fills, pool.slots[..], orderSession[..], pool.View())
           == old(Ending(a, limit, cap, start, pool.slots[..], orderSession[..], pool.View()))
      ensures pool.slots[a].qty < old(pool.slots[a].qty)
      ensures Consumed(a, old(pool.slots[..]), old(Flat(side, q)), old(pool.Free()),
                       pool.slots[..], Flat(side, q), pool.Free())
    {
      hide LevelOk, Occupied, BestIs, QueueOk, LevelsOk, OccupiedBut, Cleared, Flat, Views, ViewOf, Finish, LadderOk;
      ghost var o, was, arena, f0 := pool.slots[a], List(pool.slots[..], orderSession[..]), pool.View(), Flat(side, q);
      ghost var s0, sess := pool.slots[..], orderSession[..];
      ViewNames(cfg, s0, sess, f0);
      var f := FillHead(a, pool, orderSession);
      fills := start + [f];
      ViewNames(cfg, pool.slots[..], sess, Flat(side, q));
      if o.qty < was[0].qty {
        FinishPartial(Opposite(side), limit, o.id, cap, o.qty, was, start, arena);
      } else {
        FinishFull(Opposite(side), limit, o.id, cap, o.qty, was, start, arena);
      }
    }

    /** Trades the order in slot `a` down the best level, until it, the level or the fill cap is exhausted. */
    method MatchLevel(a: nat, limit: nat, pool: Pool, orderSession: array<u32>, cap: nat, start: seq<Fill>)
      returns (fills: seq<Fill>, capped: bool)
      requires pool.Valid() && pool.Repr !! Repr && orderSession !in pool.Repr + Repr && orderSession.Length == pool.n
      requires Working(pool.slots[..]) && q[best] != []
      requires a < pool.n && a !in Flat(side, q) && NoDup(pool.Free() + Flat(side, q))
      requires |start| <= cap && Crosses(Opposite(side), limit, best)
      modifies levels, `q, pool.slots, pool.freeList, pool.gen, pool`freeTop
      ensures pool.Valid() && Working(pool.slots[..]) && |fills| <= cap
      ensures Ending(a, limit, cap, fills, pool.slots[..], orderSession[..], pool.View())
           == old(Ending(a, limit, cap, start, pool.slots[..], orderSession[..], pool.View()))
      ensures capped ==> |fills| == cap && q[best] != []
      ensures !capped ==> pool.slots[a].qty == 0 || q[best] == []
      ensures old(pool.slots[a].qty) > 0 && !capped ==> pool.slots[a].qty < old(pool.slots[a].qty)
      ensures Consumed(a, old(pool.slots[..]), old(Flat(side, q)), old(pool.Free()),
                       pool.slots[..], Flat(side, q), pool.Free())
    {
      hide LevelOk, Occupied, BestIs, QueueOk, LevelsOk, OccupiedBut, Cleared, Flat, Views, ViewOf, PriceTime.Release,
           Finish, LadderOk, Consumed, NoDup;
      fills, capped := start, false;
      ghost var sess, f0, s0, free0 := orderSession[..], Flat(side, q), pool.slots[..], pool.Free();
      ConsumedNone(a, s0, f0, free0);
      while pool.slots[a].qty > 0 && levels[best].head != NULL_IDX
        invariant pool.Valid() && Working(pool.slots[..]) && |fills| <= cap && best == old(best)
        invariant orderSession[..] == sess
        invariant Ending(a, limit, cap, fills, pool.slots[..], sess, pool.View())
               == old(Ending(a, limit, cap, start, pool.slots[..], orderSession[..], pool.View()))
        invariant Consumed(a, s0, f0, free0, pool.slots[..], Flat(side, q), pool.Free())
        invariant q[best] != [] || pool.slots[a].qty < s0[a].qty
        decreases pool.slots[a].qty
      {
        EmptyHead(side, cfg, levels[..], q, pool.slots[..], best);
        if |fills| >= cap {
          capped := true;
          return;
        }
        ghost var s1, f1, free1 := pool.slots[..], Flat(side, q), pool.Free();
        ConsumedKeeps(a, s0, f0, free0, s1, f1, free1);
        fills := FillStep(a, limit, pool, orderSession, cap, fills);
        ConsumedTwice(a, s0, f0, free0, s1, f1, free1, pool.slots[..], Flat(side, q), pool.Free());
      }
      EmptyHead(side, cfg, levels[..], q, pool.slots[..], best);
    }

    /**
     * Matches the order in slot `a`, of the opposite side and limited to level `limit`, against this side:
     * the list, the open quantity, the fills and the arena are those of the reference matcher.
     */
    method Match(a: nat, limit: nat, pool: Pool, orderSession: array<u32>, cap: nat)
      returns (fills: seq<Fill>)
      requires pool.Valid() && pool.Repr !! Repr && orderSession !in pool.Repr + Repr && orderSession.Length == pool.n
      requires Ok(pool.slots[..])
      requires a < pool.n && a !in Flat(side, q) && NoDup(pool.Free() + Flat(side, q))
      modifies levels, occ.words, `best, `q, pool.slots, pool.freeList, pool.gen, pool`freeTop
      ensures pool.Valid() && Ok(pool.slots[..])
      ensures Outcome(List(pool.slots[..], orderSession[..]), pool.slots[a].qty, fills, pool.View())
           == old(Ending(a, limit, cap, [], pool.slots[..], orderSession[..], pool.View()))
      ensures Consumed(a, old(pool.slots[..]), old(Flat(side, q)), old(pool.Free()),
                       pool.slots[..], Flat(side, q), pool.Free())
    {
      hide LevelOk, Occupied, BestIs, QueueOk, LevelsOk, OccupiedBut, Cleared, Flat, Views, ViewOf, PriceTime.Release,
           Finish, LadderOk, Consumed, NoDup;
      fills := [];
      ghost var sess, f0, s0, free0 := orderSession[..], Flat(side, q), pool.slots[..], pool.Free();
      ConsumedNone(a, s0, f0, free0);
      while pool.slots[a].qty > 0 && best != NULL_IDX
        invariant pool.Valid() && Ok(pool.slots[..]) && |fills| <= cap && orderSession[..] == sess
        invariant Ending(a, limit, cap, fills, pool.slots[..], sess, pool.View())
               == old(Ending(a, limit, cap, [], pool.slots[..], orderSession[..], pool.View()))
        invariant Consumed(a, s0, f0, free0, pool.slots[..], Flat(side, q), pool.Free())
        decreases pool.slots[a].qty
      {
        BestInUse(side, cfg, levels[..], q, pool.slots[..], occ.Contents(), best, sess);
        if !Crosses(Opposite(side), limit, best) {
          break;
        }
        ghost var s1, f1, free1 := pool.slots[..], Flat(side, q), pool.Free();
        ConsumedKeeps(a, s0, f0, free0, s1, f1, free1);
        var capped;
        fills, capped := MatchLevel(a, limit, pool, orderSession, cap, fills);
        ConsumedTwice(a, s0, f0, free0, s1, f1, free1, pool.slots[..], Flat(side, q), pool.Free());
        EmptyHead(side, cfg, levels[..], q, pool.slots[..], best);
        if capped {
          BestStillUsed(side, occ.Contents(), best, q);
          break;
        }
        if levels[best].head == NULL_IDX {
          Vacate(best);
        } else {
          BestStillUsed(side, occ.Contents(), best, q);
        }
      }
      ConsumedKeeps(a, s0, f0, free0, pool.slots[..], Flat(side, q), pool.Free());
      StopsHere(side, cfg, levels[..], q, pool.slots[..], occ.Contents(), best, sess);
      FinishStopped(Opposite(side), limit, s0[a].id, cap, pool.slots[a].qty, List(pool.slots[..], sess), fills,
                    pool.View());
    }
  }

  /**
   * The front of the side's slots `f0` went to the free stack, slot `a` lost quantity, and no slot outside
   * `f0` and `a` changed.
   */
  ghost predicate Consumed(a: nat, s0: seq<Order>, f0: seq<nat>, free0: seq<nat>,
                           s: seq<Order>, f: seq<nat>, free: seq<nat>)
  {
    && a < |s0| == |s| && s[a].qty <= s0[a].qty
    && Elsewhere(s0, s, f0, a, s0[a].qty - s[a].qty)
    && |f| <= |f0| && f == f0[|f0| - |f|..] && free == free0 + f0[..|f0| - |f|]
  }

  lemma ConsumedNone(a: nat, s0: seq<Order>, f0: seq<nat>, free0: seq<nat>)
    requires a < |s0|
    ensures Consumed(a, s0, f0, free0, s0, f0, free0)
  {
  }

  lemma ConsumedTwice(a: nat, s0: seq<Order>, f0: seq<nat>, free0: seq<nat>,
                      s1: seq<Order>, f1: seq<nat>, free1: seq<nat>, s2: seq<Order>, f2: seq<nat>, free2: seq<nat>)
    requires Consumed(a, s0, f0, free0, s1, f1, free1) && Consumed(a, s1, f1, free1, s2, f2, free2)
    ensures Consumed(a, s0, f0, free0, s2, f2, free2)
  {
    var d, e := |f0| - |f1|, |f0| - |f2|;
    assert f0[..e] == f0[..d] + f1[..|f1| - |f2|];
    assert forall s :: s in f1 ==> s in f0;
  }

  lemma ConsumedKeeps(a: nat, s0: seq<Order>, f0: seq<nat>, free0: seq<nat>, s: seq<Order>, f: seq<nat>, free: seq<nat>)
    requires Consumed(a, s0, f0, free0, s, f, free) && a !in f0 && NoDup(free0 + f0)
    ensures a < |s| == |s0| && s[a] == s0[a].(qty := s[a].qty) && s[a].qty <= s0[a].qty
    ensures a !in f && NoDup(free + f)
  {
    assert free + f == free0 + f0;
  }

  lemma BestInUse(side: Side, cfg: Config, levels: seq<PriceLevel>, q: seq<seq<nat>>, slots: seq<Order>, occ: set<nat>,
                  best: nat, sess: seq<u32>)
    requires cfg.Valid() && LadderOk(side, cfg, levels, q, slots) && |slots| == |sess| && |slots| < TWO32
    requires Occupied(occ, q) && BestIs(side, best, q) && best != NULL_IDX
    ensures best < |q| && q[best] != [] && OccupiedBut(occ, q, best) && Cleared(side, q, best)
    ensures Views(cfg, slots, sess, Flat(side, q)) != [] && Views(cfg, slots, sess, Flat(side, q))[0].idx == best
  {
    HeadFacts(side, cfg, levels, q, slots, sess, best);
  }

  lemma BestStillUsed(side: Side, occ: set<nat>, best: nat, q: seq<seq<nat>>)
    requires best < |q| < TWO32 && q[best] != [] && OccupiedBut(occ, q, best) && Cleared(side, q, best)
    ensures Occupied(occ, q) && BestIs(side, best, q)
  {
  }

  /** The cached best level is NULL_IDX exactly when the list is empty, and otherwise the level of its head. */
  lemma StopsHere(side: Side, cfg: Config, levels: seq<PriceLevel>, q: seq<seq<nat>>, slots: seq<Order>, occ: set<nat>,
                  best: nat, sess: seq<u32>)
    requires cfg.Valid() && LadderOk(side, cfg, levels, q, slots) && |slots| == |sess| && |slots| < TWO32
    requires Occupied(occ, q) && BestIs(side, best, q)
    ensures best == NULL_IDX <==> Views(cfg, slots, sess, Flat(side, q)) == []
    ensures best != NULL_IDX ==> Views(cfg, slots, sess, Flat(side, q))[0].idx == best
  {
    if best == NULL_IDX {
      FlatEmpty(side, q, 0);
    } else {
      BestInUse(side, cfg, levels, q, slots, occ, best, sess);
    }
  }

  /** One trade of order `o` with the head of `was`: the report, the list after it, and the arena after it. */
  ghost predicate HeadFilled(best: nat, o: Order, f: Fill, was: seq<Resting>, now: seq<Resting>, a: Arena, a': Arena) {
    && was != [] && was[0].idx == best
    && f == Report(o.id, was[0], Min(o.qty, was[0].qty))
    && if o.qty < was[0].qty then
         now == [was[0].(qty := was[0].qty - o.qty)] + was[1..] && a' == a
       else
         now == was[1..] && a' == Release(a, was[0].name)
  }

  lemma NoDupParts(a: seq<nat>, b: seq<nat>)
    requires NoDup(a + b)
    ensures NoDup(a) && NoDup(b) && forall x :: x in b ==> x !in a
  {
    assert forall k :: 0 <= k < |a| ==> (a + b)[k] == a[k];
    assert forall k :: 0 <= k < |b| ==> (a + b)[|a| + k] == b[k];
  }

  lemma EmptyHead(side: Side, cfg: Config, levels: seq<PriceLevel>, q: seq<seq<nat>>, slots: seq<Order>, i: nat)
    requires cfg.Valid() && LadderOk(side, cfg, levels, q, slots) && i < |q| && |slots| < TWO32
    ensures levels[i].head == NULL_IDX <==> q[i] == []
  {
    assert LevelOk(levels[i], q[i], slots);
    LinksInRange(levels[i], q[i], slots);
  }

  lemma HeadFacts(side: Side, cfg: Config, levels: seq<PriceLevel>, q: seq<seq<nat>>, slots: seq<Order>,
                  sess: seq<u32>, b: nat)
    requires cfg.Valid() && LadderOk(side, cfg, levels, q, slots) && b < |q| && q[b] != [] && Cleared(side, q, b)
    requires |slots| == |sess| && |slots| < TWO32
    ensures Flat(side, q) != [] && Flat(side, q)[0] == q[b][0] == levels[b].head < |slots|
    ensures var o := slots[q[b][0]];
            && o.qty > 0
            && Views(cfg, slots, sess, Flat(side, q))[0]
               == Resting(q[b][0], o.id, o.price, b, o.qty, o.symbol, sess[q[b][0]])
  {
    FlatPop(side, q, b);
    assert QueueOk(side, cfg, b, q[b], slots) && LevelOk(levels[b], q[b], slots);
  }

  lemma IndexAfterFill(side: Side, occ: set<nat>, q: seq<seq<nat>>, b: nat, x: seq<nat>)
    requires b < |q| && OccupiedBut(occ, q, b) && Cleared(side, q, b)
    ensures OccupiedBut(occ, q[b := x], b) && Cleared(side, q[b := x], b)
  {
  }

  lemma TradedViews(cfg: Config, was: seq<Order>, sess: seq<u32>, f: seq<nat>, a: nat, qty: u32)
    requires cfg.Valid() && NoDup(f) && f != [] && f[0] < |was| == |sess| && a < |was| && a !in f
    requires qty <= was[a].qty && qty <= was[f[0]].qty
    ensures var now := AfterTrade(was, a, f[0], qty);
            && Views(cfg, now, sess, f)
               == [ViewOf(cfg, was, sess, f[0]).(qty := was[f[0]].qty - qty)] + Views(cfg, was, sess, f)[1..]
            && Views(cfg, now, sess, f[1..]) == Views(cfg, was, sess, f)[1..]
  {
    var now := AfterTrade(was, a, f[0], qty);
    forall k | 1 <= k < |f| ensures ViewOf(cfg, now, sess, f[k]) == ViewOf(cfg, was, sess, f[k]) {
      assert f[k] != f[0] && f[k] != a;
    }
  }

  /** Slot `a` lost the traded quantity, and nothing changed outside it and `touched`. */
  ghost predicate Elsewhere(was: seq<Order>, now: seq<Order>, touched: seq<nat>, a: nat, qty: u32)
    requires a < |was| && qty <= was[a].qty
  {
    && |was| == |now| && Symbols(now) == Symbols(was)
    && now[a] == was[a].(qty := was[a].qty - qty)
    && forall s :: 0 <= s < |was| && s !in touched && s != a ==> now[s] == was[s]
  }

  /** A partial fill: the first order stays, with what is left of it. */
  lemma TradedLadder(side: Side, cfg: Config, levels: seq<PriceLevel>, q: seq<seq<nat>>, was: seq<Order>,
                     b: nat, a: nat, qty: u32, lv: PriceLevel, sess: seq<u32>)
    requires cfg.Valid() && LadderOk(side, cfg, levels, q, was) && b < |q| && q[b] != [] && Cleared(side, q, b)
    requires |was| == |sess| && a < |was| && a !in Flat(side, q) && NoDup(Flat(side, q))
    requires q[b][0] < |was| && a != q[b][0] && qty <= was[a].qty && qty < was[q[b][0]].qty
    requires LevelOk(lv, q[b], AfterTrade(was, a, q[b][0], qty))
    ensures var now := AfterTrade(was, a, q[b][0], qty);
            var old' := Views(cfg, was, sess, Flat(side, q));
            && LadderOk(side, cfg, levels[b := lv], q, now)
            && Elsewhere(was, now, Flat(side, q), a, qty)
            && old' != []
            && Views(cfg, now, sess, Flat(side, q)) == [old'[0].(qty := was[q[b][0]].qty - qty)] + old'[1..]
  {
    hide LevelOk;
    var now := AfterTrade(was, a, q[b][0], qty);
    FlatPop(side, q, b);
    TradedViews(cfg, was, sess, Flat(side, q), a, qty);
    NotInLevel(side, q, b, a);
    assert QueueOk(side, cfg, b, q[b], was);
    forall k | 0 <= k < |q[b]| ensures BelongsAt(side, cfg, b, now[q[b][k]]) {
      assert q[b][k] != a;
    }
    ReplaceLevel(side, cfg, levels, q, was, now, b, lv, q[b], q[b] + [a]);
    assert q[b := q[b]] == q;
  }

  /** A full fill: the first order is gone. */
  lemma PoppedLadder(side: Side, cfg: Config, levels: seq<PriceLevel>, q: seq<seq<nat>>, was: seq<Order>,
                     now: seq<Order>, b: nat, a: nat, qty: u32, lv: PriceLevel, sess: seq<u32>)
    requires cfg.Valid() && LadderOk(side, cfg, levels, q, was) && b < |q| && q[b] != [] && Cleared(side, q, b)
    requires |was| == |sess| && a < |was| && a !in Flat(side, q) && NoDup(Flat(side, q))
    requires q[b][0] < |was| && a != q[b][0] && qty <= was[a].qty && qty <= was[q[b][0]].qty
    requires Relinked(AfterTrade(was, a, q[b][0], qty), now, q[b]) && LevelOk(lv, q[b][1..], now)
    ensures LadderOk(side, cfg, levels[b := lv], q[b := q[b][1..]], now)
    ensures Elsewhere(was, now, Flat(side, q), a, qty)
    ensures Flat(side, q) != [] && Flat(side, q[b := q[b][1..]]) == Flat(side, q)[1..]
    ensures Views(cfg, now, sess, Flat(side, q)[1..]) == Views(cfg, was, sess, Flat(side, q))[1..]
  {
    hide LevelOk;
    var mid := AfterTrade(was, a, q[b][0], qty);
    FlatPop(side, q, b);
    TradedViews(cfg, was, sess, Flat(side, q), a, qty);
    ViewsSame(cfg, mid, now, sess, sess, Flat(side, q)[1..]);
    NotInLevel(side, q, b, a);
    assert NoDup(q[b]) by { LevelNoDup(levels[b], q[b], was); }
    QueueTail(side, cfg, b, q[b], was, mid, now, a, qty);
    CutRelinkedFlat(side, q, b, mid, now);
    ReplaceLevel(side, cfg, levels, q, was, now, b, lv, q[b][1..], q[b] + [a]);
  }

  lemma LevelNoDup(lv: PriceLevel, q: seq<nat>, slots: seq<Order>)
    requires LevelOk(lv, q, slots)
    ensures NoDup(q)
  {
  }

  lemma QueueTail(side: Side, cfg: Config, b: nat, q: seq<nat>, was: seq<Order>, mid: seq<Order>, now: seq<Order>,
                  a: nat, qty: u32)
    requires cfg.Valid() && QueueOk(side, cfg, b, q, was) && q != [] && NoDup(q) && a < |was| && a !in q
    requires qty <= was[a].qty && qty <= was[q[0]].qty
    requires mid == AfterTrade(was, a, q[0], qty) && Relinked(mid, now, q)
    ensures QueueOk(side, cfg, b, q[1..], now)
  {
    forall k | 1 <= k < |q| ensures BelongsAt(side, cfg, b, now[q[k]]) {
      assert q[k] != q[0] && mid[q[k]] == was[q[k]] && SameOrder(mid[q[k]], now[q[k]]);
    }
  }

  lemma LevelReady(levels: seq<PriceLevel>, q: seq<seq<nat>>, slots: seq<Order>, i: nat)
    requires LevelsOk(levels, q, slots) && i < |q|
    ensures LevelOk(levels[i], q[i], slots)
  {
  }

  lemma OccupiedAfterPush(occ: set<nat>, q: seq<seq<nat>>, i: nat, s: nat)
    requires Occupied(occ, q) && i < |q|
    ensures Occupied(occ + {i}, q[i := q[i] + [s]])
  {
  }

  lemma PushedLadder(side: Side, cfg: Config, levels: seq<PriceLevel>, q: seq<seq<nat>>, was: seq<Order>,
                     now: seq<Order>, i: nat, s: nat, lv: PriceLevel, sess: seq<u32>)
    requires cfg.Valid() && LadderOk(side, cfg, levels, q, was) && i < |q| && |was| == |sess|
    requires s < |was| && s !in Flat(side, q) && BelongsAt(side, cfg, i, was[s])
    requires LevelOk(lv, q[i] + [s], now) && Relinked(was, now, q[i] + [s])
    ensures LadderOk(side, cfg, levels[i := lv], q[i := q[i] + [s]], now)
    ensures Relinked(was, now, Flat(side, q) + [s])
    ensures Views(cfg, now, sess, Flat(side, q[i := q[i] + [s]]))
         == Insert(side, Views(cfg, was, sess, Flat(side, q)), ViewOf(cfg, was, sess, s))
  {
    hide LevelOk, Insert;
    RelinkedQueue(side, cfg, i, q[i] + [s], was, now, q[i] + [s]);
    ReplaceLevel(side, cfg, levels, q, was, now, i, lv, q[i] + [s], q[i] + [s]);
    PushRelinkedFlat(side, q, i, s, was, now);
    FlatPush(side, cfg, q, was, sess, i, s, 0);
    ViewsSame(cfg, was, now, sess, sess, Flat(side, q[i := q[i] + [s]]));
  }

  lemma NotInLevel(side: Side, q: seq<seq<nat>>, i: nat, s: nat)
    requires i < |q| && s !in Flat(side, q)
    ensures s !in q[i]
  {
    if s in q[i] {
      var k :| 0 <= k < |q[i]| && q[i][k] == s;
      InFlat(side, q, i, k);
    }
  }

  lemma PushRelinkedFlat(side: Side, q: seq<seq<nat>>, i: nat, s: nat, was: seq<Order>, now: seq<Order>)
    requires i < |q| && Relinked(was, now, q[i] + [s])
    ensures Relinked(was, now, Flat(side, q) + [s])
  {
    forall x | x in q[i] ensures x in Flat(side, q) {
      if x !in Flat(side, q) {
        NotInLevel(side, q, i, x);
      }
    }
  }

  lemma CutRelinkedFlat(side: Side, q: seq<seq<nat>>, i: nat, was: seq<Order>, now: seq<Order>)
    requires i < |q| && Relinked(was, now, q[i])
    ensures Relinked(was, now, Flat(side, q))
  {
    forall x | x in q[i] ensures x in Flat(side, q) {
      if x !in Flat(side, q) {
        NotInLevel(side, q, i, x);
      }
    }
  }

  lemma CutLadder(side: Side, cfg: Config, levels: seq<PriceLevel>, q: seq<seq<nat>>, was: seq<Order>,
                  now: seq<Order>, i: nat, k: nat, lv: PriceLevel, sess: seq<u32>)
    requires cfg.Valid() && LadderOk(side, cfg, levels, q, was) && i < |q| && |was| == |sess|
    requires k < |q[i]| && NoDup(Flat(side, q))
    requires LevelOk(lv, Without(q[i], k), now) && Relinked(was, now, q[i])
    ensures LadderOk(side, cfg, levels[i := lv], q[i := Without(q[i], k)], now)
    ensures Relinked(was, now, Flat(side, q))
    ensures Views(cfg, now, sess, Flat(side, q[i := Without(q[i], k)]))
         == Delete(Views(cfg, was, sess, Flat(side, q)), q[i][k])
  {
    hide LevelOk, Delete, Without;
    RelinkedQueue(side, cfg, i, q[i], was, now, q[i]);
    QueueWithout(side, cfg, i, q[i], k, now);
    ReplaceLevel(side, cfg, levels, q, was, now, i, lv, Without(q[i], k), q[i]);
    CutRelinkedFlat(side, q, i, was, now);
    FlatCut(side, cfg, q, was, sess, i, k);
    ViewsSame(cfg, was, now, sess, sess, Flat(side, q[i := Without(q[i], k)]));
  }

  lemma QueueWithout(side: Side, cfg: Config, i: nat, q: seq<nat>, k: nat, slots: seq<Order>)
    requires cfg.Valid() && QueueOk(side, cfg, i, q, slots) && k < |q|
    ensures QueueOk(side, cfg, i, Without(q, k), slots)
  {
    WithoutAt(q, k);
    hide Without;
  }

  lemma IndexAfterCut(side: Side, occ: set<nat>, best: nat, q: seq<seq<nat>>, i: nat, x: seq<nat>)
    requires Occupied(occ, q) && BestIs(side, best, q) && i < |q| < TWO32 && q[i] != []
    ensures x != [] ==> Occupied(occ, q[i := x]) && BestIs(side, best, q[i := x])
    ensures x == [] ==> OccupiedBut(occ, q[i := x], i)
    ensures x == [] && best == i ==> Cleared(side, q[i := x], i)
    ensures x == [] && best != i ==> BestIs(side, best, q[i := x])
  {
  }
}
