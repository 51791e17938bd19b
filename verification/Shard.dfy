/** One matching shard: several books over one arena, fed one message per tick. */
module Shards {
  import opened Types
  import opened PriceTime
  import opened ArenaPool
  import opened Ladders
  import opened BookSides
  import opened Books
  import opened Holdings
  import opened Tokens
  import opened Engine

  /** Book `c` of the state, seen over an arena that changed only where book `b` or the free stack had slots. */
  lemma OtherBookKeeps(k: OrderBook, su: Setup, st: State, b: nat, c: nat, was: seq<Order>, now: seq<Order>,
                       sessWas: seq<u32>, sessNow: seq<u32>, touched: seq<nat>)
    requires k.Wired() && k.OkOver(was) && SameOutside(was, now, sessWas, sessNow, touched)
    requires Ok(su, st) && b < |st.books| && c < |st.books| && b != c && k.ListOver(was, sessWas) == st.books[c]
    requires forall x: nat :: x in touched ==> Holds(st.books[b], x) || x in st.arena.free
    ensures k.OkOver(now) && k.ListOver(now, sessNow) == st.books[c]
  {
    hide OrderBook.OkOver, OrderBook.ListOver, OrderBook.Uses, Holds, Ok;
    forall x: nat | k.Uses(x) && x < |was| ensures was[x] == now[x] && sessWas[x] == sessNow[x] {
      NamesUse(k, was, sessWas, x);
      BooksApart(su, st, b, c, x);
    }
    UndisturbedBook(k, was, now, sessWas, sessNow);
  }

  class Shard {
    ghost const su: Setup
    const cfg: Config
    const pool: Pool
    const orderSession: array<u32>
    const books: seq<OrderBook>
    const localOf: array<u16>
    const shardId: u8
    const queueDepth: nat
    /** Messages waiting on the inbound ring. */
    var inbound: seq<InMsg>
    /** Messages handed to the outbound ring. */
    var outbound: seq<OutMsg>
    /** The shard as the state machine sees it. */
    ghost var state: State

    /** Everything the shard owns besides itself. */
    ghost const Storage: set<object>

    ghost predicate Wired()
      reads localOf
    {
      && su.cfg == cfg && su.localOf == localOf[..] && su.books == |books| && su.id == shardId && su.Valid()
      && orderSession !in pool.Repr && localOf !in pool.Repr && localOf as object != orderSession
      && this !in Storage && localOf in Storage && orderSession in Storage && pool.Repr <= Storage
      && (forall b :: 0 <= b < |books| ==>
            && books[b].Wired() && books[b].pool == pool && books[b].orderSession == orderSession && books[b].cfg == cfg
            && localOf !in books[b].Repr && books[b].Repr <= Storage)
      && (forall b, c :: 0 <= b < c < |books| ==> books[b].Repr !! books[c].Repr)
    }

    ghost predicate Valid()
      reads `state, Storage, localOf
    {
      && Wired() && pool.Valid() && Ok(su, state)
      && state.arena == pool.View() && state.symbols == Symbols(pool.slots[..])
      && forall b :: 0 <= b < |books| ==> BookIs(b)
    }

    /** Book `b` is the `b`-th book of the state. */
    ghost predicate BookIs(b: nat)
      reads `state, Storage
      requires Wired() && b < |books|
    {
      books[b].SidesOk() && b < |state.books| && books[b].View() == state.books[b]
    }

    /**
     * Builds `maxSymbols` empty books over one arena. With no symbol list the shard hosts symbols [0, maxSymbols);
     * otherwise it hosts the listed ones.
     */
    constructor (cfg: Config, maxSymbols: u16, space: u16, queueDepth: nat, id: u8, symbols: seq<u16>)
      requires cfg.Valid()
      requires |symbols| <= maxSymbols && forall k :: 0 <= k < |symbols| ==> symbols[k] < space
      ensures Valid() && state == Init(su) && inbound == [] && outbound == []
      ensures su.cfg == cfg && su.books == maxSymbols && su.id == id && |su.localOf| == space
      ensures forall s: u16 :: Finds(su, maxSymbols, symbols, s)
    {
      hide LadderOk, Occupied, BestIs, Flat, Views, Unique, Holding, NoDup, Hosts, Ok, FreshArena, OrderBook.SidesOk,
           OrderBook.View, Symbols;
      var p := new Pool(cfg.slots);
      var sess := new u32[cfg.slots](_ => 0);
      var bs;
      ghost var all;
      bs, all := MakeBooks(cfg, maxSymbols, p, sess);
      var t := BuildTable(maxSymbols, space, symbols);
      this.su := Setup(cfg, t[..], maxSymbols, id);
      this.cfg, pool, orderSession, books, localOf, shardId := cfg, p, sess, bs, t, id;
      Storage := {t as object, sess} + p.Repr + all;
      this.queueDepth := queueDepth;
      inbound, outbound := [], [];
      state := Init(Setup(cfg, t[..], maxSymbols, id));
      new;
      assert Wired() by { TableValid(su.localOf, maxSymbols, symbols); }
      TableValid(su.localOf, maxSymbols, symbols);
      InitOk(su);
      HostsFound(su, maxSymbols, symbols);
      assert forall b :: 0 <= b < |books| ==> BookIs(b);
    }

    /** Which slots each book uses, in terms of the state. */
    lemma UsedSlots(b: nat)
      requires Valid() && b < |books|
      ensures forall x: nat :: books[b].Uses(x) <==> Holds(state.books[b], x)
    {
      assert BookIs(b);
      forall x: nat ensures books[b].Uses(x) <==> Holds(state.books[b], x) {
        NamesUse(books[b], pool.slots[..], orderSession[..], x);
      }
    }

    lemma BooksSeen()
      requires Valid()
      ensures |state.books| == |books| && state.arena.free == pool.Free()
      ensures forall c :: 0 <= c < |books| ==>
                books[c].OkOver(pool.slots[..]) && books[c].ListOver(pool.slots[..], orderSession[..]) == state.books[c]
    {
      hide OrderBook.OkOver, OrderBook.ListOver;
      forall c | 0 <= c < |books|
        ensures books[c].OkOver(pool.slots[..]) && books[c].ListOver(pool.slots[..], orderSession[..]) == state.books[c]
      {
        assert BookIs(c);
      }
    }

    lemma BookValid(b: nat)
      requires Valid() && b < |books|
      ensures books[b].Valid() && books[b].View() == state.books[b]
    {
      assert BookIs(b);
      OneBookUnique(su, state, b);
    }

    /** The dense book slot of a symbol, or NO_BOOK. */
    method LocalBook(symbol: u16) returns (b: u16)
      requires Wired()
      ensures b == su.LocalBook(symbol)
    {
      b := if symbol < localOf.Length then localOf[symbol] else NO_BOOK;
    }

    method EmitFill(f: Fill, session: u32)
      modifies `outbound
      ensures outbound == old(outbound) + Copies(f, session)
    {
      outbound := outbound + [FillMsg(f)];
      if session != f.session {
        outbound := outbound + [FillMsg(f.(session := session))];
      }
    }

    method EmitFills(fills: seq<Fill>, session: u32)
      modifies `outbound
      ensures outbound == old(outbound) + Reports(fills, session)
    {
      for i := 0 to |fills|
        invariant outbound + Reports(fills[i..], session) == old(outbound) + Reports(fills, session)
      {
        assert fills[i..][1..] == fills[i + 1..];
        EmitFill(fills[i], session);
      }
    }

    /** Adds the order to book `b`; no other book changes. */
    method AddTo(b: nat, o: NewOrder) returns (h: Option<Handle>, fills: seq<Fill>)
      requires Valid() && b == su.LocalBook(o.symbol) && b < |books|
      modifies books[b].Repr, pool.Repr, orderSession, `state
      ensures Valid()
      ensures var r := PriceTime.AddOrder(cfg, old(state.arena), old(state.books[b]), o, MAX_FILLS);
              && state == State(r.arena, old(state.books)[b := r.book],
                                Stamped(cfg, old(state.arena), old(state.symbols), o))
              && fills == r.fills && h == r.handle
    {
      hide Symbols, Stamped, LadderOk, Occupied, BestIs, Flat, Views, Unique, Holding, NoDup, Ok, PriceTime.AddOrder,
           OrderBook.OkOver, OrderBook.Uses, OrderBook.ListOver, OrderBook.Queued, SameOutside, Holds,
           Reports, AckFor, Pool.View;
      BookValid(b);
      UsedSlots(b);
      NewStepOk(su, state, o);
      StateShape(su, state);
      ghost var was, sess := pool.slots[..], orderSession[..];
      BooksSeen();
      ghost var touched := books[b].Queued() + pool.Free();
      h, fills := books[b].AddOrder(o, MAX_FILLS);
      forall c | 0 <= c < |books| && c != b ensures books[c].SidesOk() && books[c].View() == state.books[c] {
        OtherBookKeeps(books[c], su, state, b, c, was, pool.slots[..], sess, orderSession[..], touched);
      }
      state := State(pool.View(), state.books[b := books[b].View()], Symbols(pool.slots[..]));
    }

    method HandleNew(o: NewOrder)
      requires Valid()
      modifies Storage, `state, `inbound, `outbound
      ensures Valid() && inbound == old(inbound)
      ensures Stepped(state, outbound) == var r := NewStep(su, old(state), o); r.(out := old(outbound) + r.out)
    {
      hide Ok, PriceTime.AddOrder, Shard.BookIs, Reports;
      StateShape(su, state);
      var b := LocalBook(o.symbol);
      if b == NO_BOOK {
        outbound := outbound + [RejectMsg(o.id, UnknownSymbol, o.session)];
        return;
      }
      assert b < |books| by { TableBound(su, o.symbol); }
      var h, fills := AddTo(b, o);
      EmitFills(fills, o.session);
      match h
      case None =>
      case Some(x) =>
        outbound := outbound + [AckMsg(o.id, ToToken(x, shardId), o.session)];
    }

    /** Cancels in book `b`; no other book changes. */
    method CancelIn(b: nat, h: Handle) returns (ok: bool)
      requires Valid() && b < |books| == |state.books| && Holds(state.books[b], h.slot) && Current(state.arena, h)
      modifies books[b].Repr, pool.Repr, `state
      ensures Valid() && ok
      ensures var r := PriceTime.CancelOrder(old(state.arena), old(state.books[b]), h);
              state == State(r.arena, old(state.books)[b := r.book], old(state.symbols))
    {
      hide LadderOk, Occupied, BestIs, Flat, Views, Unique, Holding, NoDup, Ok, OrderBook.OkOver, Symbols,
           OrderBook.Uses, OrderBook.ListOver, OrderBook.Queued, SameOutside, Holds, Pool.View, Withdraw,
           PriceTime.Release;
      BookValid(b);
      UsedSlots(b);
      StateShape(su, state);
      HeldCancelOk(su, state, b, h);
      ghost var was, sess := pool.slots[..], orderSession[..];
      BooksSeen();
      ghost var touched := books[b].Queued();
      ok := books[b].CancelOrder(h);
      forall c | 0 <= c < |books| && c != b ensures books[c].SidesOk() && books[c].View() == state.books[c] {
        OtherBookKeeps(books[c], su, state, b, c, was, pool.slots[..], sess, orderSession[..], touched);
      }
      state := State(pool.View(), state.books[b := books[b].View()], Symbols(pool.slots[..]));
    }

    /**
     * Cancels by token. Slot range, generation and the slot's symbol are all that is tested before the slot is
     * unlinked, so a token that passes must name a queued order.
     */
    method HandleCancel(token: u64, session: u32)
      requires Valid() && TokenOk(su, state, token)
      modifies Storage, `state, `inbound, `outbound
      ensures Valid() && inbound == old(inbound)
      ensures Stepped(state, outbound)
           == var r := CancelStep(su, old(state), token, session); r.(out := old(outbound) + r.out)
    {
      hide Ok, Shard.BookIs, PriceTime.Release, Withdraw, FromToken, Holds;
      StateShape(su, state);
      var h := FromToken(token);
      if h.slot >= pool.n || pool.gen[h.slot] != h.gen {
        outbound := outbound + [RejectMsg(0, UnknownOrder, session)];
        return;
      }
      var b := LocalBook(pool.slots[h.slot].symbol);
      assert b == BookOf(su, state, h.slot);
      if b == NO_BOOK {
        outbound := outbound + [RejectMsg(0, UnknownOrder, session)];
        return;
      }
      TableBound(su, pool.slots[h.slot].symbol);
      var ok := CancelIn(b, h);
      outbound := outbound + [AckMsg(0, token, session)];
    }

    /** Handles one inbound message, if there is one, as the state machine does. */
    method Tick()
      requires Valid() && (inbound != [] ==> MsgOk(su, state, inbound[0]))
      modifies Storage, `state, `inbound, `outbound
      ensures Valid()
      ensures old(inbound) == [] ==> inbound == [] && state == old(state) && outbound == old(outbound)
      ensures old(inbound) != [] ==>
                && inbound == old(inbound)[1..]
                && Stepped(state, outbound)
                   == var r := Step(su, old(state), old(inbound)[0]); r.(out := old(outbound) + r.out)
    {
      hide Ok, Shard.BookIs, NewStep, CancelStep;
      if inbound == [] {
        return;
      }
      var m := inbound[0];
      inbound := inbound[1..];
      match m
      case NewMsg(o) => HandleNew(o);
      case CancelMsg(token, session) => HandleCancel(token, session);
      case OtherMsg =>
    }

    /** Ticks until the inbound ring is empty: the shard goes through the states of the message sequence. */
    method Drain()
      requires Valid() && Safe(su, state, inbound)
      modifies Storage, `state, `inbound, `outbound
      ensures Valid() && inbound == []
      ensures Stepped(state, outbound) == var r := Feed(su, old(state), old(inbound)); r.(out := old(outbound) + r.out)
    {
      hide Ok, Shard.BookIs, Step, MsgOk;
      ghost var all, s0, out0, done := inbound, state, outbound, 0;
      while inbound != []
        invariant Valid() && done <= |all| && inbound == all[done..]
        invariant state == Feed(su, s0, all[..done]).state && outbound == out0 + Feed(su, s0, all[..done]).out
        decreases |inbound|
      {
        assert inbound[0] == all[done];
        assert all[..done + 1][..done] == all[..done];
        Tick();
        done := done + 1;
      }
      assert all[..done] == all;
    }

    /** Best bid of a symbol: INT64_MIN when the shard does not host it or its bid side is empty. */
    method BestBid(symbol: u16) returns (p: int)
      requires Valid()
      ensures var b := su.LocalBook(symbol);
              p == if b == NO_BOOK || b >= |state.books| || state.books[b].bids == [] then -0x8000_0000_0000_0000
                   else cfg.base + state.books[b].bids[0].idx * cfg.tick
    {
      hide Ok;
      StateShape(su, state);
      TableBound(su, symbol);
      var b := LocalBook(symbol);
      if b == NO_BOOK {
        return -0x8000_0000_0000_0000;
      }
      BookValid(b);
      p := books[b].BestBidPrice();
    }

    /** Best ask of a symbol: INT64_MAX when the shard does not host it or its ask side is empty. */
    method BestAsk(symbol: u16) returns (p: int)
      requires Valid()
      ensures var b := su.LocalBook(symbol);
              p == if b == NO_BOOK || b >= |state.books| || state.books[b].asks == [] then 0x7FFF_FFFF_FFFF_FFFF
                   else cfg.base + state.books[b].asks[0].idx * cfg.tick
    {
      hide Ok;
      StateShape(su, state);
      TableBound(su, symbol);
      var b := LocalBook(symbol);
      if b == NO_BOOK {
        return 0x7FFF_FFFF_FFFF_FFFF;
      }
      BookValid(b);
      p := books[b].BestAskPrice();
    }
  }

  lemma TableBound(su: Setup, symbol: u16)
    requires su.Valid()
    ensures su.LocalBook(symbol) == NO_BOOK || su.LocalBook(symbol) < su.books
  {
  }

  /** The table maps each hosted symbol, and no other, to a book of its own. */
  ghost predicate Hosts(table: seq<u16>, maxSymbols: u16, symbols: seq<u16>) {
    forall s :: 0 <= s < |table| ==>
      if symbols == [] then
        table[s] == if s < maxSymbols then s else NO_BOOK
      else
        if s in symbols then table[s] < |symbols| && LastAt(symbols, s, table[s]) else table[s] == NO_BOOK
  }

  /** Position `k` is where `s` is listed last. */
  ghost predicate LastAt(symbols: seq<u16>, s: int, k: nat)
    requires k < |symbols|
  {
    symbols[k] == s && forall j :: k < j < |symbols| ==> symbols[j] != s
  }

  /**
   * Where the lookup leads for a symbol: without a list to the book of its own number, while there are that many books
   * and the symbol space has it; with a list to its last position in it; and for every other symbol to no book.
   */
  ghost predicate Finds(su: Setup, maxSymbols: u16, symbols: seq<u16>, s: u16) {
    var b := su.LocalBook(s);
    if symbols == [] then b == if s < maxSymbols && s < |su.localOf| then s else 0xFFFF
    else if s in symbols then b < |symbols| && symbols[b] == s && forall j :: b < j < |symbols| ==> symbols[j] != s
    else b == 0xFFFF
  }

  /** A table that hosts the symbols leads each u16 where it should, those outside the symbol space included. */
  lemma HostsFound(su: Setup, maxSymbols: u16, symbols: seq<u16>)
    requires Hosts(su.localOf, maxSymbols, symbols)
    requires forall k :: 0 <= k < |symbols| ==> symbols[k] < |su.localOf|
    ensures forall s: u16 :: Finds(su, maxSymbols, symbols, s)
  {
    forall s: u16 ensures Finds(su, maxSymbols, symbols, s) {
      if s in symbols {
        var k :| 0 <= k < |symbols| && symbols[k] == s;
      }
    }
  }

  lemma TableValid(table: seq<u16>, maxSymbols: u16, symbols: seq<u16>)
    requires Hosts(table, maxSymbols, symbols) && |symbols| <= maxSymbols
    ensures forall s :: 0 <= s < |table| ==> table[s] == NO_BOOK || table[s] < maxSymbols
    ensures forall s, t :: 0 <= s < t < |table| && table[s] == table[t] ==> table[s] == NO_BOOK
  {
  }

  method BuildTable(maxSymbols: u16, space: u16, symbols: seq<u16>) returns (t: array<u16>)
    requires |symbols| <= maxSymbols && forall k :: 0 <= k < |symbols| ==> symbols[k] < space
    ensures fresh(t) && t.Length == space && Hosts(t[..], maxSymbols, symbols)
  {
    t := new u16[space](_ => NO_BOOK);
    if symbols == [] {
      var s := 0;
      while s < maxSymbols && s < space
        invariant 0 <= s <= space && s <= maxSymbols
        invariant forall k :: 0 <= k < space ==> t[k] == if k < s then k else NO_BOOK
      {
        t[s] := s;
        s := s + 1;
      }
      return;
    }
    for next := 0 to |symbols|
      invariant forall k :: 0 <= k < space ==>
        if k in symbols[..next] then t[k] < next && LastAt(symbols[..next], k, t[k]) else t[k] == NO_BOOK
    {
      assert symbols[..next + 1] == symbols[..next] + [symbols[next]];
      t[symbols[next]] := next;
    }
    assert symbols[..|symbols|] == symbols;
  }

  method MakeBooks(cfg: Config, n: u16, pool: Pool, sess: array<u32>)
    returns (bs: seq<OrderBook>, ghost all: set<object>)
    requires cfg.Valid() && pool.Valid() && cfg.slots == pool.n == sess.Length && sess !in pool.Repr
    ensures |bs| == n && fresh(all)
    ensures forall b :: 0 <= b < n ==> bs[b].Repr <= all && bs[b].Wired()
    ensures forall b :: 0 <= b < n ==> bs[b].SidesOk() && bs[b].View() == EMPTY_BOOK
    ensures forall b :: 0 <= b < n ==> bs[b].pool == pool && bs[b].orderSession == sess && bs[b].cfg == cfg
    ensures forall b, c :: 0 <= b < c < n ==> bs[b].Repr !! bs[c].Repr
  {
    hide LadderOk, Occupied, BestIs, Flat, Views, Unique, Holding, NoDup, OrderBook.SidesOk, OrderBook.View,
         OrderBook.Valid, Pool.Valid;
    bs, all := [], {};
    while |bs| < n
      invariant |bs| <= n && fresh(all)
      invariant forall b :: 0 <= b < |bs| ==> bs[b].Repr <= all && bs[b].Wired()
      invariant forall b :: 0 <= b < |bs| ==> bs[b].SidesOk() && bs[b].View() == EMPTY_BOOK
      invariant forall b :: 0 <= b < |bs| ==> bs[b].pool == pool && bs[b].orderSession == sess && bs[b].cfg == cfg
      invariant forall b, c :: 0 <= b < c < |bs| ==> bs[b].Repr !! bs[c].Repr
    {
      var k := new OrderBook(cfg, pool, sess);
      bs, all := bs + [k], all + k.Repr;
    }
  }
}
