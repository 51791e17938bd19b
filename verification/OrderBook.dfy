/** A symbol's book over a borrowed arena. */
module Books {
  import opened Types
  import opened PriceTime
  import opened ArenaPool
  import opened Levels
  import opened Ladders
  import opened BookSides
  import opened Holdings
  import Bitmap
  import Matching

  /** Free stack without the slot taken, the slot, and the slots queued on either side: all different. */
  lemma SlotsApart(free: seq<nat>, slot: nat, f: seq<nat>, g: seq<nat>)
    requires Unique(multiset(free + [slot]) + (multiset(f) + multiset(g)))
    ensures slot !in free && slot !in f && slot !in g
    ensures NoDup(free + f) && NoDup(free + g)
    ensures forall x :: x in f ==> x !in g
  {
    var m, n := multiset(f), multiset(g);
    assert multiset(free + [slot]) == multiset(free) + multiset{slot};
    forall x ensures multiset(free)[x] + multiset{slot}[x] + m[x] + n[x] <= 1 {
      assert (multiset(free + [slot]) + (m + n))[x] <= 1;
    }
    assert multiset(free + f) == multiset(free) + m;
    assert multiset(free + g) == multiset(free) + n;
    UniqueNoDup(free + f);
    UniqueNoDup(free + g);
    assert multiset{slot}[slot] == 1;
    forall x | x in f ensures x !in g {
      assert x in m;
    }
  }

  /** A side none of whose slots changed, seen over the changed arena. */
  lemma Undisturbed(b: BookSide, was: seq<Order>, now: seq<Order>, sessWas: seq<u32>, sessNow: seq<u32>)
    requires b.Ok(was) && |was| == |now| == |sessWas| == |sessNow|
    requires forall x :: x in Flat(b.side, b.q) && x < |was| ==> was[x] == now[x] && sessWas[x] == sessNow[x]
    ensures b.Ok(now) && b.List(now, sessNow) == b.List(was, sessWas)
  {
    UntouchedLadder(b.side, b.cfg, b.levels[..], b.q, was, now);
    ViewsSame(b.cfg, was, now, sessWas, sessNow, Flat(b.side, b.q));
  }

  /** Two arenas, with their owners, agree outside the `touched` slots. */
  ghost predicate SameOutside(was: seq<Order>, now: seq<Order>, sessWas: seq<u32>, sessNow: seq<u32>,
                              touched: seq<nat>)
  {
    && |was| == |now| == |sessWas| == |sessNow|
    && forall x :: 0 <= x < |was| && x !in touched ==> was[x] == now[x] && sessWas[x] == sessNow[x]
  }

  lemma SameAlways(slots: seq<Order>, sess: seq<u32>, touched: seq<nat>)
    requires |slots| == |sess|
    ensures SameOutside(slots, slots, sess, sess, touched)
  {
  }

  lemma SameTaken(s0: seq<Order>, s1: seq<Order>, s2: seq<Order>, t0: seq<u32>, t1: seq<u32>, t2: seq<u32>,
                  s: nat, queued: seq<nat>, free: seq<nat>)
    requires SameOutside(s0, s1, t0, t1, [s]) && SameOutside(s1, s2, t1, t2, queued + [s])
    requires free != [] && free[|free| - 1] == s
    ensures SameOutside(s0, s2, t0, t2, queued + free)
  {
    forall x | 0 <= x < |s0| && x !in queued + free ensures s0[x] == s2[x] && t0[x] == t2[x] {
      assert x !in [s] && x !in queued + [s];
    }
  }

  /** An order `o` in slot `s` met the list `opp0` and possibly joined `own0`. */
  ghost predicate Entered(side: Side, o: Order, s: nat, idx: nat, session: u32, ioc: bool, cap: nat,
                          own0: seq<Resting>, opp0: seq<Resting>, a0: Arena,
                          own: seq<Resting>, opp: seq<Resting>, a: Arena, fills: seq<Fill>, rests: bool)
  {
    var m := PriceTime.Match(side, idx, o.id, o.qty, opp0, cap);
    && fills == m.fills && opp == m.rest && a == ReleaseAll(a0, m.freed)
    && rests == (m.left > 0 && !ioc)
    && own == if rests then Insert(side, own0, Resting(s, o.id, o.price, idx, m.left, o.symbol, session)) else own0
  }

  class OrderBook {
    const cfg: Config
    const bids: BookSide
    const asks: BookSide
    const pool: Pool
    const orderSession: array<u32>

    ghost const Repr: set<object> := bids.Repr + asks.Repr

    /** How the book is wired; none of it changes. */
    ghost predicate Wired() {
      && cfg.Valid() && cfg.slots == pool.n == orderSession.Length
      && bids.side == Buy && asks.side == Sell && bids.cfg == asks.cfg == cfg
      && bids.Repr !! asks.Repr && Repr !! pool.Repr && orderSession !in Repr + pool.Repr
    }

    /** Both sides, over the given arena contents, agree with their queues and indices. */
    ghost predicate OkOver(slots: seq<Order>)
      reads Repr
    {
      bids.Ok(slots) && asks.Ok(slots)
    }

    ghost predicate SidesOk()
      reads Repr, pool.slots
    {
      OkOver(pool.slots[..])
    }

    ghost predicate Valid()
      reads Repr, pool.Repr, orderSession
    {
      && Wired() && pool.Valid() && SidesOk()
      && Unique(Holding(pool.View(), View()))
    }

    /** The book as the reference sees it, each order named by its slot. */
    ghost function ListOver(slots: seq<Order>, sess: seq<u32>): Book
      reads Repr
      requires OkOver(slots)
    {
      Book(bids.List(slots, sess), asks.List(slots, sess))
    }

    ghost function View(): Book
      reads Repr, pool.slots, orderSession
      requires SidesOk()
    {
      ListOver(pool.slots[..], orderSession[..])
    }

    /** Slots queued in this book. */
    ghost predicate Uses(s: nat)
      reads Repr
    {
      s in Flat(bids.side, bids.q) || s in Flat(asks.side, asks.q)
    }

    ghost function Queued(): (r: seq<nat>)
      reads Repr
      ensures forall x: nat :: x in r <==> Uses(x)
    {
      Flat(bids.side, bids.q) + Flat(asks.side, asks.q)
    }

    /** A slot in hand, neither free nor queued, while the queued and free slots are all different. */
    ghost predicate InHand(s: nat)
      reads Repr, pool, pool.freeList
      requires pool.freeTop <= pool.freeList.Length
    {
      && s < pool.n && s !in pool.Free() && !Uses(s)
      && NoDup(pool.Free() + Flat(bids.side, bids.q)) && NoDup(pool.Free() + Flat(asks.side, asks.q))
      && forall x :: x in Flat(bids.side, bids.q) ==> x !in Flat(asks.side, asks.q)
    }

    constructor (cfg: Config, pool: Pool, orderSession: array<u32>)
      requires cfg.Valid() && pool.Valid() && cfg.slots == pool.n == orderSession.Length && orderSession !in pool.Repr
      ensures Valid() && fresh(Repr) && this.cfg == cfg && this.pool == pool && this.orderSession == orderSession
      ensures Wired() && SidesOk() && View() == EMPTY_BOOK
    {
      hide BookSide.Ok, BookSide.List, Unique, Holding, NoDup, Bitmap.Members;
      this.cfg := cfg;
      this.pool := pool;
      this.orderSession := orderSession;
      var b := new BookSide(Buy, cfg);
      var a := new BookSide(Sell, cfg);
      bids, asks := b, a;
      new;
      BlankSide(bids, pool.slots[..], orderSession[..]);
      BlankSide(asks, pool.slots[..], orderSession[..]);
      BlankUnique(pool.View());
    }

    /** Matches slot `s` against `opp`, then rests what is left of it on `own` unless it is immediate-or-cancel. */
    method Enter(own: BookSide, opp: BookSide, s: nat, idx: nat, ioc: bool, cap: nat)
      returns (rests: bool, fills: seq<Fill>)
      requires Wired() && pool.Valid() && SidesOk() && ((own == bids && opp == asks) || (own == asks && opp == bids))
      requires s < pool.n && idx < cfg.ladder && SideOf(pool.slots[s].side) == own.side
      requires PriceToIdx(cfg, pool.slots[s].price) == idx
      requires s !in Flat(own.side, own.q) && s !in Flat(opp.side, opp.q) && NoDup(pool.Free() + Flat(opp.side, opp.q))
      requires forall x :: x in Flat(own.side, own.q) ==> x !in Flat(opp.side, opp.q)
      modifies Repr, pool.Repr
      ensures pool.Valid() && SidesOk()
      ensures Entered(own.side, old(pool.slots[s]), s, idx, orderSession[s], ioc, cap,
                      old(own.List(pool.slots[..], orderSession[..])), old(opp.List(pool.slots[..], orderSession[..])),
                      old(pool.View()), own.List(pool.slots[..], orderSession[..]),
                      opp.List(pool.slots[..], orderSession[..]), pool.View(), fills, rests)
      ensures forall x :: 0 <= x < pool.n && x != s && !old(Uses(x)) ==> pool.slots[x] == old(pool.slots[x])
      ensures Symbols(pool.slots[..]) == old(Symbols(pool.slots[..]))
      ensures old(s !in pool.Free()) ==> s !in pool.Free()
    {
      hide Flat, Views, ViewOf, Finish, NoDup, Insert, BookSide.Ok, BookSide.List, Entered, Symbols;
      ghost var s0, sess, o := pool.slots[..], orderSession[..], pool.slots[s];
      ghost var own0, opp0, a0 := own.List(s0, sess), opp.List(s0, sess), pool.View();
      fills := Cross(own, opp, s, idx, cap);
      ghost var s1 := pool.slots[..];
      rests := pool.slots[s].qty > 0 && !ioc;
      if rests {
        RestOn(own, opp, s, idx);
      }
      EnteredBy(own.side, cfg, o, s, idx, ioc, cap, own0, opp0, a0, own.List(pool.slots[..], sess),
                opp.List(pool.slots[..], sess), pool.View(), fills, s1, sess);
    }

    /** Rests slot `s` on `own`; `opp` and the free stack are not touched. */
    method RestOn(own: BookSide, opp: BookSide, s: nat, idx: nat)
      requires Wired() && pool.Valid() && SidesOk() && ((own == bids && opp == asks) || (own == asks && opp == bids))
      requires s < pool.n && idx < cfg.ladder && BelongsAt(own.side, cfg, idx, pool.slots[s])
      requires s !in Flat(own.side, own.q) && s !in Flat(opp.side, opp.q)
      requires forall x :: x in Flat(own.side, own.q) ==> x !in Flat(opp.side, opp.q)
      modifies own.Repr, pool.slots
      ensures pool.Valid() && SidesOk() && pool.View() == old(pool.View())
      ensures opp.List(pool.slots[..], orderSession[..]) == old(opp.List(pool.slots[..], orderSession[..]))
      ensures own.List(pool.slots[..], orderSession[..])
           == Insert(own.side, old(own.List(pool.slots[..], orderSession[..])),
                     ViewOf(cfg, old(pool.slots[..]), orderSession[..], s))
      ensures forall x ::
                0 <= x < pool.n && x != s && x !in old(Flat(own.side, own.q)) ==> pool.slots[x] == old(pool.slots[x])
      ensures Symbols(pool.slots[..]) == old(Symbols(pool.slots[..]))
    {
      hide Flat, Views, ViewOf, NoDup, Insert, BookSide.Ok, Symbols;
      ghost var s1, sess, fw := pool.slots[..], orderSession[..], Flat(own.side, own.q);
      own.Rest(s, idx, pool.slots, sess);
      RelinkedOutside(s1, pool.slots[..], fw + [s]);
      Undisturbed(opp, s1, pool.slots[..], sess, sess);
    }

    /** Matches slot `s` against `opp`; `own` is not touched. */
    method Cross(own: BookSide, opp: BookSide, s: nat, idx: nat, cap: nat) returns (fills: seq<Fill>)
      requires Wired() && pool.Valid() && SidesOk() && ((own == bids && opp == asks) || (own == asks && opp == bids))
      requires s < pool.n && s !in Flat(own.side, own.q) && s !in Flat(opp.side, opp.q)
      requires NoDup(pool.Free() + Flat(opp.side, opp.q))
      requires forall x :: x in Flat(own.side, own.q) ==> x !in Flat(opp.side, opp.q)
      modifies opp.Repr, pool.Repr
      ensures pool.Valid() && SidesOk()
      ensures own.List(pool.slots[..], orderSession[..]) == old(own.List(pool.slots[..], orderSession[..]))
      ensures Outcome(opp.List(pool.slots[..], orderSession[..]), pool.slots[s].qty, fills, pool.View())
           == Finish(own.side, idx, old(pool.slots[s].id), cap, old(pool.slots[s].qty),
                     old(opp.List(pool.slots[..], orderSession[..])), [], old(pool.View()))
      ensures pool.slots[s] == old(pool.slots[s]).(qty := pool.slots[s].qty)
      ensures forall x :: x in Flat(opp.side, opp.q) ==> x in old(Flat(opp.side, opp.q))
      ensures forall x ::
                0 <= x < pool.n && x != s && x !in old(Flat(opp.side, opp.q)) ==> pool.slots[x] == old(pool.slots[x])
      ensures Symbols(pool.slots[..]) == old(Symbols(pool.slots[..]))
      ensures old(s !in pool.Free()) ==> s !in pool.Free()
    {
      hide Flat, Views, ViewOf, Finish, Consumed, NoDup, BookSide.Ok, Symbols;
      ghost var s0, sess, fo, free0 := pool.slots[..], orderSession[..], Flat(opp.side, opp.q), pool.Free();
      fills := opp.Match(s, idx, pool, orderSession, cap);
      ghost var s1 := pool.slots[..];
      ConsumedKeeps(s, s0, fo, free0, s1, Flat(opp.side, opp.q), pool.Free());
      ConsumedOutside(s, s0, fo, free0, s1, Flat(opp.side, opp.q), pool.Free());
      Undisturbed(own, s0, s1, sess, sess);
    }

    /** Submits the order in slot `s` to the side it crosses. */
    method MatchAndRest(o: NewOrder, s: nat, idx: nat, cap: nat) returns (rests: bool, fills: seq<Fill>)
      requires Wired() && pool.Valid() && SidesOk() && s < pool.n && idx < cfg.ladder && PriceToIdx(cfg, o.price) == idx
      requires pool.slots[s] == Order(o.id, o.price, o.qty, o.symbol, o.side, o.tif, NULL_IDX, NULL_IDX)
      requires orderSession[s] == o.session && InHand(s)
      modifies Repr, pool.Repr
      ensures pool.Valid() && SidesOk() && s !in pool.Free()
      ensures var r := Submit(old(View()), s, o, idx, cap);
              && View() == r.book && fills == r.fills && rests == r.rests
              && pool.View() == ReleaseAll(old(pool.View()), r.freed)
      ensures SameOutside(old(pool.slots[..]), pool.slots[..], orderSession[..], orderSession[..], old(Queued()) + [s])
      ensures Symbols(pool.slots[..]) == old(Symbols(pool.slots[..]))
    {
      hide Flat, LadderOk, Occupied, BestIs, Views, ViewOf, NoDup, PriceTime.Match, Insert, ReleaseAll, Symbols;
      if SideOf(o.side) == Buy {
        rests, fills := Enter(bids, asks, s, idx, o.tif == TIF_IOC, cap);
      } else {
        rests, fills := Enter(asks, bids, s, idx, o.tif == TIF_IOC, cap);
      }
    }

    /** Takes a slot for the order and fills it in. */
    method Place(o: NewOrder) returns (s: nat)
      requires Valid()
      modifies pool`freeTop, pool.slots, orderSession
      ensures pool.Valid() && SidesOk() && View() == old(View())
      ensures old(pool.Free()) == [] ==>
                && s == NULL_IDX && pool.View() == old(pool.View())
                && pool.slots[..] == old(pool.slots[..]) && orderSession[..] == old(orderSession[..])
      ensures old(pool.Free()) != [] ==>
                && s < pool.n && InHand(s)
                && pool.View() == old(pool.View()).(free := old(pool.Free())[..|old(pool.Free())| - 1])
                && s == old(pool.Free())[|old(pool.Free())| - 1]
                && pool.slots[s] == Order(o.id, o.price, o.qty, o.symbol, o.side, o.tif, NULL_IDX, NULL_IDX)
                && orderSession[s] == o.session
      ensures SameOutside(old(pool.slots[..]), pool.slots[..], old(orderSession[..]), orderSession[..], [s])
      ensures Symbols(pool.slots[..])
           == var was := old(Symbols(pool.slots[..])); if old(pool.Free()) == [] then was else was[s := o.symbol]
    {
      hide OrderBook.OkOver, OrderBook.ListOver, OrderBook.Uses, OrderBook.InHand, Unique, NoDup, Holding;
      ghost var s0, sess0 := pool.slots[..], orderSession[..];
      ghost var free0 := pool.Free();
      s := pool.Alloc();
      if s != NULL_IDX {
        assert free0 == pool.Free() + [s];
        SlotTaken(this, pool.Free(), s, pool.View().gen);
        pool.slots[s] := Order(o.id, o.price, o.qty, o.symbol, o.side, o.tif, NULL_IDX, NULL_IDX);
        orderSession[s] := o.session;
        UndisturbedBook(this, s0, pool.slots[..], sess0, orderSession[..]);
      }
    }

    /**
     * Adds an order: fills, resulting queues, free stack, generations and handle are those of the reference.
     * No slot outside this book and the free stack changes.
     */
    method AddOrder(o: NewOrder, cap: nat) returns (h: Option<Handle>, fills: seq<Fill>)
      requires Valid()
      modifies Repr, pool.Repr, orderSession
      ensures Valid()
      ensures Added(pool.View(), View(), fills, h) == PriceTime.AddOrder(cfg, old(pool.View()), old(View()), o, cap)
      ensures SameOutside(old(pool.slots[..]), pool.slots[..], old(orderSession[..]), orderSession[..],
                          old(Queued() + pool.Free()))
      ensures Symbols(pool.slots[..]) == Stamped(cfg, old(pool.View()), old(Symbols(pool.slots[..])), o)
    {
      hide OrderBook.SidesOk, OrderBook.Queued, OrderBook.View, Pool.View, Unique, SameOutside, Symbols;
      var idx := PriceToIdx(cfg, o.price);
      if !(0 <= idx < cfg.ladder) {
        SameAlways(pool.slots[..], orderSession[..], Queued() + pool.Free());
        return None, [];
      }
      h, fills := AddOnLadder(o, idx, cap);
    }

    /** The same for an order whose price is on the ladder. */
    method AddOnLadder(o: NewOrder, idx: nat, cap: nat) returns (h: Option<Handle>, fills: seq<Fill>)
      requires Valid() && idx == PriceToIdx(cfg, o.price) && InLadder(cfg, o.price)
      modifies Repr, pool.Repr, orderSession
      ensures Valid()
      ensures Added(pool.View(), View(), fills, h) == PriceTime.AddOrder(cfg, old(pool.View()), old(View()), o, cap)
      ensures SameOutside(old(pool.slots[..]), pool.slots[..], old(orderSession[..]), orderSession[..],
                          old(Queued() + pool.Free()))
      ensures Symbols(pool.slots[..]) == Stamped(cfg, old(pool.View()), old(Symbols(pool.slots[..])), o)
    {
      hide OrderBook.OkOver, OrderBook.ListOver, OrderBook.Uses, OrderBook.InHand, OrderBook.Queued, SameOutside, NoDup,
           Unique, Submit, ReleaseAll, Holding, PriceToIdx, Pool.Valid, Symbols;
      AddOrderHolding(cfg, pool.View(), View(), o, cap);
      h, fills := None, [];
      ghost var s0, sess0, free0, queued0 := pool.slots[..], orderSession[..], pool.Free(), Queued();
      var s := Place(o);
      if s == NULL_IDX {
        SameAlways(s0, sess0, queued0 + free0);
      } else {
        ghost var s1, sess1 := pool.slots[..], orderSession[..];
        var rests;
        rests, fills := MatchAndRest(o, s, idx, cap);
        h := Settle(s, rests);
        SameTaken(s0, s1, pool.slots[..], sess0, sess1, orderSession[..], s, queued0, free0);
      }
    }

    /** Hands out the handle of a resting order, or gives its slot back. */
    method Settle(s: nat, rests: bool) returns (h: Option<Handle>)
      requires Wired() && pool.Valid() && SidesOk() && s < pool.n && s !in pool.Free()
      modifies pool.freeList, pool.gen, pool`freeTop
      ensures pool.Valid() && SidesOk() && View() == old(View())
      ensures if rests then h == Some(Handle(s, GenOf(pool.View(), s))) && pool.View() == old(pool.View())
              else h == None && pool.View() == Release(old(pool.View()), s)
    {
      hide OrderBook.OkOver, OrderBook.ListOver, NoDup, PriceTime.Release;
      if rests {
        h := Some(Handle(s, pool.gen[s]));
      } else {
        pool.Release(s);
        h := None;
      }
    }

    /** Takes slot `s` out of the side that queues it. */
    method Drop(own: BookSide, opp: BookSide, s: nat, idx: nat)
      requires Valid() && ((own == bids && opp == asks) || (own == asks && opp == bids))
      requires s < pool.n && s in Flat(own.side, own.q)
      requires PriceToIdx(cfg, pool.slots[s].price) == idx
      modifies own.Repr, pool.slots
      ensures SidesOk() && View() == Withdraw(old(View()), s)
      ensures SameOutside(old(pool.slots[..]), pool.slots[..], orderSession[..], orderSession[..], old(Queued()))
      ensures Symbols(pool.slots[..]) == old(Symbols(pool.slots[..]))
    {
      hide Flat, LadderOk, Occupied, BestIs, Views, ViewOf, NoDup, Unique, Delete, Holding, Symbols;
      ghost var s0, sess, fw, fo := pool.slots[..], orderSession[..], Flat(own.side, own.q), Flat(opp.side, opp.q);
      ghost var own0, opp0 := own.List(s0, sess), opp.List(s0, sess);
      ghost var k := Located(own, s0, s);
      SidesApart(this, own, opp);
      ViewNames(cfg, s0, sess, fo);
      Matching.DeleteAbsent(opp0, s);
      own.Take(s, idx, pool.slots, k, sess);
      RelinkedOutside(s0, pool.slots[..], fw);
      Undisturbed(opp, s0, pool.slots[..], sess, sess);
    }

    /**
     * Cancels by handle. The generation is the only test made, so a handle that passes it must name a queued slot.
     */
    method CancelOrder(h: Handle) returns (ok: bool)
      requires Valid() && (Current(pool.View(), h) ==> Uses(h.slot))
      modifies Repr, pool.Repr
      ensures Valid()
      ensures Cancelled(pool.View(), View(), ok) == PriceTime.CancelOrder(old(pool.View()), old(View()), h)
      ensures SameOutside(old(pool.slots[..]), pool.slots[..], orderSession[..], orderSession[..], old(Queued()))
      ensures Symbols(pool.slots[..]) == old(Symbols(pool.slots[..]))
    {
      hide OrderBook.OkOver, OrderBook.ListOver, OrderBook.Uses, OrderBook.Queued, SameOutside, NoDup, Unique, Withdraw,
           Holding, PriceToIdx, Symbols;
      SameAlways(pool.slots[..], orderSession[..], Queued());
      UsesHolds(this, h.slot);
      CancelOrderHolding(pool.View(), View(), h);
      if h.slot >= pool.n || pool.gen[h.slot] != h.gen {
        return false;
      }
      var o := pool.slots[h.slot];
      SideFound(this, h.slot);
      if SideOf(o.side) == Buy {
        Drop(bids, asks, h.slot, PriceToIdx(cfg, o.price));
      } else {
        Drop(asks, bids, h.slot, PriceToIdx(cfg, o.price));
      }
      pool.Release(h.slot);
      ok := true;
    }

    /** Price of the best bid: the level of the head of the reference list, or INT64_MIN when there is none. */
    method BestBidPrice() returns (p: int)
      requires Valid()
      ensures p == if View().bids == [] then -0x8000_0000_0000_0000 else cfg.base + View().bids[0].idx * cfg.tick
    {
      StopsHere(bids.side, cfg, bids.levels[..], bids.q, pool.slots[..], bids.occ.Contents(), bids.best,
                orderSession[..]);
      p := if bids.best == NULL_IDX then -0x8000_0000_0000_0000 else cfg.base + bids.best * cfg.tick;
    }

    method BestAskPrice() returns (p: int)
      requires Valid()
      ensures p == if View().asks == [] then 0x7FFF_FFFF_FFFF_FFFF else cfg.base + View().asks[0].idx * cfg.tick
    {
      StopsHere(asks.side, cfg, asks.levels[..], asks.q, pool.slots[..], asks.occ.Contents(), asks.best,
                orderSession[..]);
      p := if asks.best == NULL_IDX then 0x7FFF_FFFF_FFFF_FFFF else cfg.base + asks.best * cfg.tick;
    }
  }

  /** A queued slot is found on the side and level its order names. */
  lemma Located(b: BookSide, slots: seq<Order>, s: nat) returns (k: nat)
    requires b.Ok(slots) && s in Flat(b.side, b.q)
    ensures s < |slots| && SideOf(slots[s].side) == b.side
    ensures var i := PriceToIdx(b.cfg, slots[s].price); 0 <= i < b.cfg.ladder && k < |b.q[i]| && b.q[i][k] == s
  {
    var m :| 0 <= m < |Flat(b.side, b.q)| && Flat(b.side, b.q)[m] == s;
    var i;
    i, k := FlatOrigin(b.side, b.q, 0, m);
    assert QueueOk(b.side, b.cfg, i, b.q[i], slots);
    assert BelongsAt(b.side, b.cfg, i, slots[b.q[i][k]]);
  }

  lemma SideFound(b: OrderBook, s: nat)
    requires b.Wired() && b.SidesOk() && b.Uses(s)
    ensures s < b.pool.slots.Length && InLadder(b.cfg, b.pool.slots[s].price)
    ensures SideOf(b.pool.slots[s].side) == Buy ==> s in Flat(b.bids.side, b.bids.q)
    ensures SideOf(b.pool.slots[s].side) == Sell ==> s in Flat(b.asks.side, b.asks.q)
  {
    if s in Flat(b.bids.side, b.bids.q) {
      var k := Located(b.bids, b.pool.slots[..], s);
    } else {
      var k := Located(b.asks, b.pool.slots[..], s);
    }
  }

  lemma UsesHolds(b: OrderBook, s: nat)
    requires b.Valid()
    ensures b.Uses(s) <==> Holds(b.View(), s)
    ensures b.Uses(s) ==> s !in b.pool.Free()
  {
    ViewNames(b.cfg, b.pool.slots[..], b.orderSession[..], Flat(b.bids.side, b.bids.q));
    ViewNames(b.cfg, b.pool.slots[..], b.orderSession[..], Flat(b.asks.side, b.asks.q));
    HoldsSlots(b.View(), s);
    UniqueParts(multiset(b.pool.Free()), BookSlots(b.View()));
  }

  lemma SidesApart(b: OrderBook, own: BookSide, opp: BookSide)
    requires b.Valid() && ((own == b.bids && opp == b.asks) || (own == b.asks && opp == b.bids))
    ensures NoDup(Flat(own.side, own.q)) && forall x :: x in Flat(own.side, own.q) ==> x !in Flat(opp.side, opp.q)
  {
    var m, n := multiset(Flat(b.bids.side, b.bids.q)), multiset(Flat(b.asks.side, b.asks.q));
    ViewNames(b.cfg, b.pool.slots[..], b.orderSession[..], Flat(b.bids.side, b.bids.q));
    ViewNames(b.cfg, b.pool.slots[..], b.orderSession[..], Flat(b.asks.side, b.asks.q));
    UniqueParts(multiset(b.pool.Free()), m + n);
    UniqueParts(m, n);
    UniqueNoDup(Flat(b.bids.side, b.bids.q));
    UniqueNoDup(Flat(b.asks.side, b.asks.q));
    assert forall x :: x in Flat(b.bids.side, b.bids.q) ==> x in m;
    assert forall x :: x in Flat(b.asks.side, b.asks.q) ==> x in n;
  }

  lemma ConsumedOutside(a: nat, s0: seq<Order>, f0: seq<nat>, free0: seq<nat>, s: seq<Order>, f: seq<nat>,
                        free: seq<nat>)
    requires Consumed(a, s0, f0, free0, s, f, free)
    ensures |s| == |s0| && forall x :: 0 <= x < |s0| && x !in f0 && x != a ==> s[x] == s0[x]
    ensures forall x :: x in f ==> x in f0
    ensures forall x :: x in free ==> x in free0 || x in f0
    ensures Symbols(s) == Symbols(s0)
  {
  }

  lemma RelinkedOutside(was: seq<Order>, now: seq<Order>, touched: seq<nat>)
    requires Relinked(was, now, touched)
    ensures |was| == |now| && forall x :: 0 <= x < |was| && x !in touched ==> now[x] == was[x]
    ensures Symbols(now) == Symbols(was)
  {
    forall x | 0 <= x < |was| ensures now[x].symbol == was[x].symbol {
      assert SameOrder(was[x], now[x]);
    }
  }

  lemma EnteredBy(side: Side, cfg: Config, o: Order, s: nat, idx: nat, ioc: bool, cap: nat,
                  own0: seq<Resting>, opp0: seq<Resting>, a0: Arena, own: seq<Resting>, opp: seq<Resting>, a: Arena,
                  fills: seq<Fill>, slots: seq<Order>, sess: seq<u32>)
    requires cfg.Valid() && s < |slots| == |sess| && idx < cfg.ladder && PriceToIdx(cfg, o.price) == idx
    requires slots[s] == o.(qty := slots[s].qty)
    requires Outcome(opp, slots[s].qty, fills, a) == Finish(side, idx, o.id, cap, o.qty, opp0, [], a0)
    requires own == if slots[s].qty > 0 && !ioc then Insert(side, own0, ViewOf(cfg, slots, sess, s)) else own0
    ensures Entered(side, o, s, idx, sess[s], ioc, cap, own0, opp0, a0, own, opp, a, fills, slots[s].qty > 0 && !ioc)
  {
    var m := PriceTime.Match(side, idx, o.id, o.qty, opp0, cap);
    assert [] + m.fills == m.fills;
    hide PriceTime.Match, Insert, ReleaseAll;
  }

  lemma NamesUse(k: OrderBook, slots: seq<Order>, sess: seq<u32>, s: nat)
    requires k.Wired() && k.OkOver(slots)
    ensures k.Uses(s) <==> Holds(k.ListOver(slots, sess), s)
  {
    ViewNames(k.cfg, slots, sess, Flat(k.bids.side, k.bids.q));
    ViewNames(k.cfg, slots, sess, Flat(k.asks.side, k.asks.q));
  }

  /** A book none of whose slots changed, seen over the changed arena. */
  lemma UndisturbedBook(k: OrderBook, was: seq<Order>, now: seq<Order>, sessWas: seq<u32>, sessNow: seq<u32>)
    requires k.Wired() && k.OkOver(was) && |was| == |now| == |sessWas| == |sessNow|
    requires forall x: nat :: k.Uses(x) && x < |was| ==> was[x] == now[x] && sessWas[x] == sessNow[x]
    ensures k.OkOver(now) && k.ListOver(now, sessNow) == k.ListOver(was, sessWas)
  {
    Undisturbed(k.bids, was, now, sessWas, sessNow);
    Undisturbed(k.asks, was, now, sessWas, sessNow);
  }

  /** A slot taken off the free stack is in hand. */
  lemma SlotTaken(k: OrderBook, free: seq<nat>, s: nat, gen: seq<u32>)
    requires k.Wired() && k.pool.Valid() && k.SidesOk() && k.pool.Free() == free && s < k.pool.n
    requires Unique(Holding(Arena(free + [s], gen), k.View()))
    ensures k.InHand(s) && !k.Uses(s)
  {
    ViewNames(k.cfg, k.pool.slots[..], k.orderSession[..], Flat(k.bids.side, k.bids.q));
    ViewNames(k.cfg, k.pool.slots[..], k.orderSession[..], Flat(k.asks.side, k.asks.q));
    SlotsApart(free, s, Flat(k.bids.side, k.bids.q), Flat(k.asks.side, k.asks.q));
  }

  lemma BlankSide(b: BookSide, slots: seq<Order>, sess: seq<u32>)
    requires b.Shape() && b.best == NULL_IDX && b.occ.Contents() == {} && |slots| < TWO32
    requires b.q == seq(b.cfg.ladder, _ => []) && b.levels[..] == seq(b.cfg.ladder, _ => EMPTY_LEVEL)
    ensures b.Ok(slots) && b.List(slots, sess) == []
  {
    FlatEmpty(b.side, b.q, 0);
  }

  lemma BlankUnique(a: Arena)
    requires NoDup(a.free)
    ensures Unique(Holding(a, EMPTY_BOOK))
  {
    assert Slots([]) == multiset{};
    FreeUnique(a.free);
  }

  lemma FreeUnique(s: seq<nat>)
    requires NoDup(s)
    ensures Unique(multiset(s))
  {
    if s != [] {
      var t := s[..|s| - 1];
      FreeUnique(t);
      assert s == t + [s[|s| - 1]];
      assert s[|s| - 1] !in t;
    }
  }
}
