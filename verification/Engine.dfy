/** A shard as a state machine: one arena, one reference book per hosted symbol, one message at a time. */
module Engine {
  import opened Types
  import opened PriceTime
  import opened ArenaPool
  import opened Holdings
  import opened Tokens
  import opened Matching

  const MAX_FILLS: nat := 64
  const NO_BOOK: u16 := 0xFFFF

  datatype Reason = UnknownSymbol | UnknownOrder

  datatype InMsg = NewMsg(order: NewOrder) | CancelMsg(token: u64, session: u32) | OtherMsg

  datatype OutMsg =
    | AckMsg(id: u64, token: u64, session: u32)
    | RejectMsg(id: u64, reason: Reason, session: u32)
    | FillMsg(fill: Fill)

  /** What a shard is built with: the books' configuration, the symbol table and the shard's id. */
  datatype Setup = Setup(cfg: Config, localOf: seq<u16>, books: u16, id: u8) {
    /** Hosted symbols have books of their own. */
    ghost predicate Valid() {
      && cfg.Valid()
      && (forall s :: 0 <= s < |localOf| ==> localOf[s] == NO_BOOK || localOf[s] < books)
      && (forall s, t :: 0 <= s < t < |localOf| && localOf[s] == localOf[t] ==> localOf[s] == NO_BOOK)
    }

    function LocalBook(symbol: u16): u16 {
      if symbol < |localOf| then localOf[symbol] else NO_BOOK
    }
  }

  /** The arena, the books, and the symbol that each slot holds or last held. */
  datatype State = State(arena: Arena, books: seq<Book>, symbols: seq<u16>)

  datatype Stepped = Stepped(state: State, out: seq<OutMsg>)

  /** A fill goes to the resting order's session, and a copy to the aggressor's when that is another. */
  function Copies(f: Fill, session: u32): seq<OutMsg> {
    if session != f.session then [FillMsg(f), FillMsg(f.(session := session))] else [FillMsg(f)]
  }

  function Reports(fills: seq<Fill>, session: u32): seq<OutMsg> {
    if fills == [] then [] else Copies(fills[0], session) + Reports(fills[1..], session)
  }

  function AckFor(su: Setup, o: NewOrder, h: Option<Handle>): seq<OutMsg> {
    match h
    case None => []
    case Some(x) => [AckMsg(o.id, ToToken(x, su.id), o.session)]
  }

  function NewStep(su: Setup, st: State, o: NewOrder): Stepped
    requires su.cfg.Valid()
  {
    var b := su.LocalBook(o.symbol);
    if b == NO_BOOK || b >= |st.books| then
      Stepped(st, [RejectMsg(o.id, UnknownSymbol, o.session)])
    else
      var r := AddOrder(su.cfg, st.arena, st.books[b], o, MAX_FILLS);
      Stepped(State(r.arena, st.books[b := r.book], Stamped(su.cfg, st.arena, st.symbols, o)),
              Reports(r.fills, o.session) + AckFor(su, o, r.handle))
  }

  /** The book a slot's record leads to. */
  function BookOf(su: Setup, st: State, s: nat): u16 {
    if s < |st.symbols| then su.LocalBook(st.symbols[s]) else NO_BOOK
  }

  /** The tests made of a cancel token: its generation is the slot's, and the slot's symbol is hosted. */
  predicate Accepts(su: Setup, st: State, token: u64) {
    Current(st.arena, FromToken(token)) && BookOf(su, st, FromToken(token).slot) < |st.books|
  }

  /** A token that passes the tests takes its slot out of that book and frees it, whether or not it was queued. */
  function CancelStep(su: Setup, st: State, token: u64, session: u32): Stepped {
    if !Accepts(su, st, token) then
      Stepped(st, [RejectMsg(0, UnknownOrder, session)])
    else
      var h := FromToken(token);
      var b := BookOf(su, st, h.slot);
      var r := CancelOrder(st.arena, st.books[b], h);
      Stepped(State(r.arena, st.books[b := r.book], st.symbols), [AckMsg(0, token, session)])
  }

  function Step(su: Setup, st: State, m: InMsg): Stepped
    requires su.cfg.Valid()
  {
    match m
    case NewMsg(o) => NewStep(su, st, o)
    case CancelMsg(t, session) => CancelStep(su, st, t, session)
    case OtherMsg => Stepped(st, [])
  }

  /** The shard and its output after a sequence of messages. */
  function Feed(su: Setup, st: State, ms: seq<InMsg>): Stepped
    requires su.cfg.Valid()
  {
    if ms == [] then Stepped(st, [])
    else
      var r := Feed(su, st, ms[..|ms| - 1]);
      var t := Step(su, r.state, ms[|ms| - 1]);
      Stepped(t.state, r.out + t.out)
  }

  // ---------- The slot partition ----------

  function BooksSlots(books: seq<Book>): multiset<nat> {
    if books == [] then multiset{} else BookSlots(books[0]) + BooksSlots(books[1..])
  }

  /** Every slot, once for each place it is in: the free stack or a queue of some book. */
  function AllSlots(st: State): multiset<nat> {
    multiset(st.arena.free) + BooksSlots(st.books)
  }

  function Everything(n: nat): multiset<nat> {
    multiset(seq(n, i => i))
  }

  /** The order rests in the book of its symbol, on the level of its price, and its slot records its symbol. */
  ghost function Sits(su: Setup, symbols: seq<u16>, b: nat): Resting -> bool
    requires su.cfg.Valid()
  {
    (r: Resting) =>
      && su.LocalBook(r.symbol) == b && PriceToIdx(su.cfg, r.price) == r.idx
      && r.name < |symbols| && symbols[r.name] == r.symbol
  }

  ghost predicate BookOk(su: Setup, symbols: seq<u16>, b: nat, book: Book)
    requires su.cfg.Valid()
  {
    Proper(book) && All(book.bids, Sits(su, symbols, b)) && All(book.asks, Sits(su, symbols, b))
  }

  /** Every slot is in exactly one place; every order is open, in its symbol's book, on its level, in priority order. */
  ghost predicate Ok(su: Setup, st: State) {
    && su.Valid() && |st.books| == su.books && |st.arena.gen| == |st.symbols| == su.cfg.slots
    && AllSlots(st) == Everything(su.cfg.slots)
    && forall b :: 0 <= b < |st.books| ==> BookOk(su, st.symbols, b, st.books[b])
  }

  lemma StateShape(su: Setup, st: State)
    requires Ok(su, st)
    ensures su.Valid() && |st.books| == su.books && |st.arena.gen| == |st.symbols| == su.cfg.slots
  {
  }

  /** A token that passes the tests names a queued order. */
  ghost predicate TokenOk(su: Setup, st: State, token: u64) {
    Accepts(su, st, token) ==> Holds(st.books[BookOf(su, st, FromToken(token).slot)], FromToken(token).slot)
  }

  ghost predicate MsgOk(su: Setup, st: State, m: InMsg) {
    m.CancelMsg? ==> TokenOk(su, st, m.token)
  }

  /** Every cancel of the sequence that passes the tests names an order queued when its turn comes. */
  ghost predicate Safe(su: Setup, st: State, ms: seq<InMsg>)
    requires su.cfg.Valid()
  {
    forall k :: 0 <= k < |ms| ==> MsgOk(su, Feed(su, st, ms[..k]).state, ms[k])
  }

  lemma {:induction false} EverythingOnce(n: nat)
    ensures forall x: nat :: Everything(n)[x] == if x < n then 1 else 0
    ensures |Everything(n)| == n
  {
    if n == 0 {
      assert seq(0, i => i) == [];
    } else {
      EverythingOnce(n - 1);
      assert seq(n, i => i) == seq(n - 1, i => i) + [n - 1];
    }
  }

  lemma {:induction false} BooksSplit(books: seq<Book>, b: nat)
    requires b < |books|
    ensures BooksSlots(books) == BookSlots(books[b]) + BooksSlots(books[..b] + books[b + 1..])
  {
    hide BookSlots;
    var others := books[..b] + books[b + 1..];
    if b == 0 {
      assert others == books[1..];
    } else {
      BooksSplit(books[1..], b - 1);
      assert books[1..][..b - 1] + books[1..][b..] == others[1..];
      assert others[0] == books[0];
    }
  }

  /** What one book's operation keeps of its own slots and the free stack, the shard keeps of all of them. */
  lemma BookStepSlots(st: State, b: nat, a: Arena, x: Book, symbols: seq<u16>)
    requires b < |st.books| && Holding(a, x) == Holding(st.arena, st.books[b])
    ensures AllSlots(State(a, st.books[b := x], symbols)) == AllSlots(st)
  {
    BooksSplit(st.books, b);
    BooksSplit(st.books[b := x], b);
    var others := st.books[..b] + st.books[b + 1..];
    assert st.books[b := x][..b] + st.books[b := x][b + 1..] == others;
    hide BooksSlots, BookSlots;
    var f, g := multiset(st.arena.free), multiset(a.free);
    var m, n, o := BookSlots(st.books[b]), BookSlots(x), BooksSlots(others);
    forall s ensures (g + (n + o))[s] == (f + (m + o))[s] {
      assert (g + n)[s] == (f + m)[s];
    }
  }

  lemma OneBookUnique(su: Setup, st: State, b: nat)
    requires Ok(su, st) && b < |st.books|
    ensures Unique(Holding(st.arena, st.books[b]))
  {
    EverythingOnce(su.cfg.slots);
    BooksSplit(st.books, b);
    hide BooksSlots, BookSlots, Everything;
    var f, m, o := multiset(st.arena.free), BookSlots(st.books[b]), BooksSlots(st.books[..b] + st.books[b + 1..]);
    forall x ensures (f + m)[x] <= 1 {
      assert (f + (m + o))[x] <= 1;
    }
  }

  lemma CountIn(books: seq<Book>, d: nat, s: nat)
    requires d < |books|
    ensures BooksSlots(books)[s] >= BookSlots(books[d])[s]
  {
    BooksSplit(books, d);
  }

  lemma CountAll(su: Setup, st: State, c: nat, s: nat)
    requires Ok(su, st) && c < |st.books|
    ensures var others := st.books[..c] + st.books[c + 1..];
            multiset(st.arena.free)[s] + BookSlots(st.books[c])[s] + BooksSlots(others)[s] <= 1
  {
    EverythingOnce(su.cfg.slots);
    BooksSplit(st.books, c);
    hide BooksSlots, BookSlots, Everything;
    assert AllSlots(st)[s] <= 1;
  }

  /** No slot is in two books, or in a book and on the free stack. */
  lemma BooksApart(su: Setup, st: State, b: nat, c: nat, s: nat)
    requires Ok(su, st) && b < |st.books| && c < |st.books| && Holds(st.books[c], s)
    ensures s !in st.arena.free && (b != c ==> !Holds(st.books[b], s))
  {
    HoldsSlots(st.books[c], s);
    HoldsSlots(st.books[b], s);
    CountAll(su, st, c, s);
    hide BooksSlots, BookSlots, Holds, Ok;
    assert s in st.arena.free ==> s in multiset(st.arena.free);
    if b != c {
      OthersAt(st.books, b, c);
      CountIn(st.books[..c] + st.books[c + 1..], if b < c then b else b - 1, s);
    }
  }

  lemma OthersAt(books: seq<Book>, b: nat, c: nat)
    requires b < |books| && c < |books| && b != c
    ensures (books[..c] + books[c + 1..])[if b < c then b else b - 1] == books[b]
  {
  }

  // ---------- Every step keeps the invariant ----------

  lemma InitOk(su: Setup)
    requires su.Valid()
    ensures Ok(su, Init(su))
  {
    NoBooksSlots(su.books);
    assert Slots([]) == multiset{};
  }

  function Init(su: Setup): State {
    State(FreshArena(su.cfg.slots), seq(su.books, _ => EMPTY_BOOK), seq(su.cfg.slots, _ => 0))
  }

  lemma {:induction false} NoBooksSlots(n: nat)
    ensures BooksSlots(seq(n, _ => EMPTY_BOOK)) == multiset{}
  {
    if n > 0 {
      NoBooksSlots(n - 1);
      assert seq(n, _ => EMPTY_BOOK)[1..] == seq(n - 1, _ => EMPTY_BOOK);
      assert Slots([]) == multiset{};
    }
  }

  /** The record of a live slot leads to the book that queues it. */
  lemma SymbolLeads(su: Setup, st: State, b: nat, s: nat)
    requires Ok(su, st) && b < |st.books| && Holds(st.books[b], s)
    ensures s < |st.symbols| && BookOf(su, st, s) == b
  {
    assert BookOk(su, st.symbols, b, st.books[b]);
    var list := if s in Names(st.books[b].bids) then st.books[b].bids else st.books[b].asks;
    var k :| 0 <= k < |list| && Names(list)[k] == s;
    assert Sits(su, st.symbols, b)(list[k]);
  }

  lemma Restamped(su: Setup, symbols: seq<u16>, now: seq<u16>, b: nat, book: Book)
    requires su.cfg.Valid() && BookOk(su, symbols, b, book) && |now| == |symbols|
    requires forall x: nat :: Holds(book, x) && x < |symbols| ==> now[x] == symbols[x]
    ensures BookOk(su, now, b, book)
  {
    forall k | 0 <= k < |book.bids| ensures Sits(su, now, b)(book.bids[k]) {
      assert Names(book.bids)[k] == book.bids[k].name && Sits(su, symbols, b)(book.bids[k]);
    }
    forall k | 0 <= k < |book.asks| ensures Sits(su, now, b)(book.asks[k]) {
      assert Names(book.asks)[k] == book.asks[k].name && Sits(su, symbols, b)(book.asks[k]);
    }
  }

  /** The slot taken for a new order is in no book, so the orders that rest keep their records. */
  lemma StampedBook(su: Setup, st: State, o: NewOrder, b: nat)
    requires Ok(su, st) && b < |st.books|
    ensures BookOk(su, Stamped(su.cfg, st.arena, st.symbols, o), b, st.books[b])
  {
    StateShape(su, st);
    assert BookOk(su, st.symbols, b, st.books[b]);
    hide Ok, Holds, BookOk, InLadder;
    var now := Stamped(su.cfg, st.arena, st.symbols, o);
    forall x: nat | Holds(st.books[b], x) && x < |st.symbols| ensures now[x] == st.symbols[x] {
      BooksApart(su, st, b, b, x);
    }
    Restamped(su, st.symbols, now, b, st.books[b]);
  }

  lemma NewStepOk(su: Setup, st: State, o: NewOrder)
    requires Ok(su, st)
    ensures Ok(su, NewStep(su, st, o).state)
  {
    hide Ok, AddOrder, BookOk, AllSlots, Holding, Stamped, Everything, InLadder, Reports, AckFor;
    StateShape(su, st);
    var b := su.LocalBook(o.symbol);
    if b != NO_BOOK && b < |st.books| {
      var r := AddOrder(su.cfg, st.arena, st.books[b], o, MAX_FILLS);
      var now := Stamped(su.cfg, st.arena, st.symbols, o);
      AddOrderHolding(su.cfg, st.arena, st.books[b], o, MAX_FILLS);
      BookStepSlots(st, b, r.arena, r.book, now);
      forall c | 0 <= c < |st.books| ensures BookOk(su, now, c, st.books[c]) {
        StampedBook(su, st, o, c);
      }
      TopStamped(su, st, o);
      AddOrderBookOk(su, now, b, st.arena, st.books[b], o, MAX_FILLS);
      OneBookOk(su, st, b, r.arena, r.book, now);
    }
  }

  /** One book's operation keeps the invariant when it keeps its part of it. */
  lemma OneBookOk(su: Setup, st: State, b: nat, a: Arena, x: Book, now: seq<u16>)
    requires Ok(su, st) && b < |st.books| && |a.gen| == |st.arena.gen| && |now| == |st.symbols|
    requires AllSlots(State(a, st.books[b := x], now)) == AllSlots(st) && BookOk(su, now, b, x)
    requires forall c :: 0 <= c < |st.books| ==> BookOk(su, now, c, st.books[c])
    ensures Ok(su, State(a, st.books[b := x], now))
  {
    hide BookOk, AllSlots, Everything;
  }

  lemma TopStamped(su: Setup, st: State, o: NewOrder)
    requires Ok(su, st)
    ensures InLadder(su.cfg, o.price) && st.arena.free != [] ==>
              var x := st.arena.free[|st.arena.free| - 1];
              x < |st.symbols| && Stamped(su.cfg, st.arena, st.symbols, o)[x] == o.symbol
  {
    TopRange(su, st);
    hide InLadder, Ok;
  }

  lemma TopRange(su: Setup, st: State)
    requires Ok(su, st)
    ensures st.arena.free != [] ==> st.arena.free[|st.arena.free| - 1] < |st.symbols|
  {
    if st.arena.free != [] {
      var x := st.arena.free[|st.arena.free| - 1];
      EverythingOnce(su.cfg.slots);
      assert x in multiset(st.arena.free);
      assert AllSlots(st)[x] > 0;
    }
  }

  lemma AddOrderBookOk(su: Setup, symbols: seq<u16>, b: nat, a: Arena, book: Book, o: NewOrder, cap: nat)
    requires su.cfg.Valid() && BookOk(su, symbols, b, book) && su.LocalBook(o.symbol) == b
    requires InLadder(su.cfg, o.price) && a.free != [] ==>
               a.free[|a.free| - 1] < |symbols| && symbols[a.free[|a.free| - 1]] == o.symbol
    ensures var r := AddOrder(su.cfg, a, book, o, cap); BookOk(su, symbols, b, r.book) && |r.arena.gen| == |a.gen|
  {
    if InLadder(su.cfg, o.price) && a.free != [] {
      var slot, idx := a.free[|a.free| - 1], PriceToIdx(su.cfg, o.price);
      SubmitProper(book, slot, o, idx, cap);
      hide Submit;
      SubmitAll(book, slot, o, idx, cap, Sits(su, symbols, b), Sits(su, symbols, b));
    }
  }

  lemma CancelStepOk(su: Setup, st: State, token: u64, session: u32)
    requires Ok(su, st) && TokenOk(su, st, token)
    ensures Ok(su, CancelStep(su, st, token, session).state)
  {
    hide Ok;
    var h := FromToken(token);
    if Accepts(su, st, token) {
      HeldCancelOk(su, st, BookOf(su, st, h.slot), h);
    }
  }

  lemma HeldCancelOk(su: Setup, st: State, b: nat, h: Handle)
    requires Ok(su, st) && b < |st.books| && Holds(st.books[b], h.slot) && Current(st.arena, h)
    ensures var r := CancelOrder(st.arena, st.books[b], h);
            Ok(su, State(r.arena, st.books[b := r.book], st.symbols)) && r.ok
  {
    hide BookOk, AllSlots, Holding, Withdraw, Unique, Holds, Everything, Release;
    var r := CancelOrder(st.arena, st.books[b], h);
    OneBookUnique(su, st, b);
    CancelOrderHolding(st.arena, st.books[b], h);
    BookStepSlots(st, b, r.arena, r.book, st.symbols);
    WithdrawBookOk(su, st.symbols, b, st.books[b], h.slot);
  }

  lemma WithdrawBookOk(su: Setup, symbols: seq<u16>, b: nat, book: Book, name: nat)
    requires su.cfg.Valid() && BookOk(su, symbols, b, book)
    ensures BookOk(su, symbols, b, Withdraw(book, name))
  {
    WithdrawProper(book, name);
    DeleteAll(book.bids, name, Sits(su, symbols, b));
    DeleteAll(book.asks, name, Sits(su, symbols, b));
  }

  /** A message keeps the invariant exactly when it is no cancel by a token that passes the tests for a free slot. */
  lemma StepOk(su: Setup, st: State, m: InMsg)
    requires Ok(su, st)
    ensures Ok(su, Step(su, st, m).state) <==> MsgOk(su, st, m)
  {
    match m
    case NewMsg(o) => NewStepOk(su, st, o);
    case CancelMsg(t, session) =>
      if TokenOk(su, st, t) {
        CancelStepOk(su, st, t, session);
      } else {
        FreeCancelBreaks(su, st, t, session);
      }
    case OtherMsg =>
  }

  // ---------- Tokens of free slots ----------

  /** A token is safe exactly when it does not pass the tests for a slot on the free stack. */
  lemma TokenOkWhen(su: Setup, st: State, token: u64)
    requires Ok(su, st)
    ensures TokenOk(su, st, token) <==> !(Accepts(su, st, token) && FromToken(token).slot in st.arena.free)
  {
    StateShape(su, st);
    hide Ok, Holds, FromToken;
    var x := FromToken(token).slot;
    if Accepts(su, st, token) {
      var b := BookOf(su, st, x);
      if Holds(st.books[b], x) {
        BooksApart(su, st, b, b, x);
      } else {
        NowhereElse(su, st, x, b);
      }
    }
  }

  lemma NowhereElse(su: Setup, st: State, x: nat, b: nat)
    requires Ok(su, st) && x < su.cfg.slots && b == BookOf(su, st, x) < |st.books| && !Holds(st.books[b], x)
    ensures x in st.arena.free
  {
    EverythingOnce(su.cfg.slots);
    assert AllSlots(st)[x] == 1;
    if x in BooksSlots(st.books) {
      var c := InSomeBook(st.books, x);
      SymbolLeads(su, st, c, x);
    }
  }

  lemma {:induction false} InSomeBook(books: seq<Book>, x: nat) returns (b: nat)
    requires x in BooksSlots(books)
    ensures b < |books| && Holds(books[b], x)
  {
    HoldsSlots(books[0], x);
    if x in BookSlots(books[0]) {
      b := 0;
    } else {
      var c := InSomeBook(books[1..], x);
      b := c + 1;
    }
  }

  /** Releasing a slot that is already free breaks the slot partition, whatever the books become. */
  lemma DoubleReleaseBreaks(su: Setup, st: State, x: nat, books: seq<Book>, symbols: seq<u16>)
    requires Ok(su, st) && x in st.arena.free
    ensures AllSlots(State(Release(st.arena, x), books, symbols)) != Everything(su.cfg.slots)
  {
    EverythingOnce(su.cfg.slots);
    var free := st.arena.free + [x];
    assert multiset(free) == multiset(st.arena.free) + multiset{x};
    assert x in multiset(st.arena.free);
    assert AllSlots(State(Release(st.arena, x), books, symbols))[x] >= 2;
  }

  lemma FreeCancelBreaks(su: Setup, st: State, token: u64, session: u32)
    requires Ok(su, st) && !TokenOk(su, st, token)
    ensures !Ok(su, CancelStep(su, st, token, session).state)
  {
    TokenOkWhen(su, st, token);
    var r := CancelStep(su, st, token, session).state;
    DoubleReleaseBreaks(su, st, FromToken(token).slot, r.books, r.symbols);
    hide AllSlots, Everything, FromToken, Release, Withdraw;
  }

  /**
   * How a cancel is answered: rejected, with nothing changed, exactly when the generation is not the slot's or the
   * slot is free and its record names no hosted symbol. Every other token is acknowledged: any session's, any shard's,
   * issued or not, for a queued slot and for a free one.
   */
  lemma CancelAnswer(su: Setup, st: State, token: u64, session: u32)
    requires Ok(su, st)
    ensures var r, h := CancelStep(su, st, token, session), FromToken(token);
            if !Current(st.arena, h) || (h.slot in st.arena.free && BookOf(su, st, h.slot) == NO_BOOK) then
              r == Stepped(st, [RejectMsg(0, UnknownOrder, session)])
            else
              && r.out == [AckMsg(0, token, session)] && r.state.arena == Release(st.arena, h.slot)
              && forall b :: 0 <= b < |st.books| ==> !Holds(r.state.books[b], h.slot)
  {
    var h := FromToken(token);
    if Current(st.arena, h) {
      FreeOrLed(su, st, h.slot);
      LedBound(su, st, h.slot);
      if Accepts(su, st, token) {
        forall b | 0 <= b < |st.books| ensures !Holds(CancelStep(su, st, token, session).state.books[b], h.slot) {
          GoneFrom(su, st, token, session, b);
        }
      }
    }
    hide Ok, Holds, FromToken, Release, Withdraw;
  }

  lemma LedBound(su: Setup, st: State, s: nat)
    requires Ok(su, st)
    ensures BookOf(su, st, s) == NO_BOOK || BookOf(su, st, s) < |st.books|
  {
  }

  lemma GoneFrom(su: Setup, st: State, token: u64, session: u32, b: nat)
    requires Ok(su, st) && Accepts(su, st, token) && b < |st.books|
    ensures !Holds(CancelStep(su, st, token, session).state.books[b], FromToken(token).slot)
  {
    var x := FromToken(token).slot;
    if b == BookOf(su, st, x) {
      OneBookUnique(su, st, b);
      WithdrawGone(st.arena, st.books[b], x);
    } else if Holds(st.books[b], x) {
      SymbolLeads(su, st, b, x);
    }
    hide Ok, Holds, FromToken, Release, Withdraw;
  }

  lemma WithdrawGone(a: Arena, b: Book, x: nat)
    requires Unique(Holding(a, b))
    ensures !Holds(Withdraw(b, x), x)
  {
    DeleteSlots(b.bids, x);
    DeleteSlots(b.asks, x);
    HoldsSlots(Withdraw(b, x), x);
    assert Holding(a, b)[x] <= 1;
  }

  /** A slot is free, or its record leads to a book. */
  lemma FreeOrLed(su: Setup, st: State, x: nat)
    requires Ok(su, st) && x < su.cfg.slots
    ensures x in st.arena.free || BookOf(su, st, x) < |st.books|
  {
    EverythingOnce(su.cfg.slots);
    assert AllSlots(st)[x] == 1;
    if x in BooksSlots(st.books) {
      var b := InSomeBook(st.books, x);
      SymbolLeads(su, st, b, x);
    }
  }

  /**
   * The all-zero token, which no Ack carried yet, on a fresh shard that hosts symbol 0: it is acknowledged, and slot 0
   * is then on the free stack twice.
   */
  lemma ZeroTokenAccepted(su: Setup, session: u32)
    requires su.Valid() && su.cfg.slots > 0 && su.LocalBook(0) != NO_BOOK
    ensures var st := Init(su);
            var r := CancelStep(su, st, 0, session);
            && r.out == [AckMsg(0, 0, session)] && r.state.arena.free == st.arena.free + [0] && 0 in st.arena.free
            && !Ok(su, r.state)
  {
    InitOk(su);
    var st := Init(su);
    assert st.arena.free[0] == 0;
    assert st.symbols[0] == 0;
    TokenOkWhen(su, st, 0);
    FreeCancelBreaks(su, st, 0, session);
    CancelAnswer(su, st, 0, session);
    hide Ok, Accepts, CancelStep;
  }

  // ---------- Counting ----------

  function RestingCount(books: seq<Book>): nat {
    if books == [] then 0 else |books[0].bids| + |books[0].asks| + RestingCount(books[1..])
  }

  lemma {:induction false} BooksCount(books: seq<Book>)
    ensures |BooksSlots(books)| == RestingCount(books)
  {
    if books != [] {
      BooksCount(books[1..]);
    }
  }

  /** Resting orders and free slots make up the arena. */
  lemma SlotCount(su: Setup, st: State)
    requires Ok(su, st)
    ensures RestingCount(st.books) + |st.arena.free| == su.cfg.slots
  {
    BooksCount(st.books);
    EverythingOnce(su.cfg.slots);
  }

  // ---------- Output ----------

  lemma {:induction false} ReportsBound(fills: seq<Fill>, session: u32)
    ensures |fills| <= |Reports(fills, session)| <= 2 * |fills|
  {
    if fills != [] {
      ReportsBound(fills[1..], session);
    }
  }

  /** The fill reports addressed to a session, in order. */
  function Inbox(out: seq<OutMsg>, session: u32): seq<Fill> {
    if out == [] then []
    else (if out[0].FillMsg? && out[0].fill.session == session then [out[0].fill] else []) + Inbox(out[1..], session)
  }

  function Readdressed(fills: seq<Fill>, session: u32): seq<Fill> {
    if fills == [] then [] else [fills[0].(session := session)] + Readdressed(fills[1..], session)
  }

  /** The fills of resting orders that belong to a session. */
  function OwnedBy(fills: seq<Fill>, session: u32): seq<Fill> {
    if fills == [] then []
    else (if fills[0].session == session then [fills[0]] else []) + OwnedBy(fills[1..], session)
  }

  lemma {:induction false} InboxConcat(a: seq<OutMsg>, b: seq<OutMsg>, session: u32)
    ensures Inbox(a + b, session) == Inbox(a, session) + Inbox(b, session)
  {
    if a == [] {
      assert a + b == b;
    } else {
      assert (a + b)[1..] == a[1..] + b;
      InboxConcat(a[1..], b, session);
    }
  }

  /** The aggressor's session is told of every fill once; any other session of exactly the fills of its own orders. */
  lemma {:induction false} ReportsReach(fills: seq<Fill>, aggressor: u32, session: u32)
    ensures Inbox(Reports(fills, aggressor), session)
         == if session == aggressor then Readdressed(fills, session) else OwnedBy(fills, session)
  {
    if fills != [] {
      ReportsReach(fills[1..], aggressor, session);
      InboxConcat(Copies(fills[0], aggressor), Reports(fills[1..], aggressor), session);
      CopiesReach(fills[0], aggressor, session);
    }
  }

  /** How many messages go out before those of the k-th fill. */
  function Ahead(fills: seq<Fill>, session: u32, k: nat): nat
    requires k <= |fills|
  {
    if k == 0 then 0 else (if fills[0].session == session then 1 else 2) + Ahead(fills[1..], session, k - 1)
  }

  /** Fills are reported in order, each to the resting order's session first and right after it to the aggressor's. */
  lemma {:induction false} ReportsAt(fills: seq<Fill>, session: u32, k: nat)
    requires k < |fills|
    ensures var out, i := Reports(fills, session), Ahead(fills, session, k);
            && |out| == Ahead(fills, session, |fills|)
            && i < |out| && out[i] == FillMsg(fills[k])
            && (fills[k].session != session ==> i + 1 < |out| && out[i + 1] == FillMsg(fills[k].(session := session)))
  {
    var tail := Reports(fills[1..], session);
    assert |tail| == Ahead(fills[1..], session, |fills| - 1) by {
      if |fills| > 1 {
        ReportsAt(fills[1..], session, 0);
      }
    }
    if k > 0 {
      ReportsAt(fills[1..], session, k - 1);
      hide Ahead;
      assert fills[1..][k - 1] == fills[k];
    }
  }

  lemma CopiesReach(f: Fill, aggressor: u32, session: u32)
    ensures Inbox(Copies(f, aggressor), session)
         == if session == aggressor then [f.(session := session)] else if session == f.session then [f] else []
  {
    InboxOne(FillMsg(f), session);
    if aggressor != f.session {
      var g := f.(session := aggressor);
      InboxOne(FillMsg(g), session);
      InboxConcat([FillMsg(f)], [FillMsg(g)], session);
      assert Copies(f, aggressor) == [FillMsg(f)] + [FillMsg(g)];
    }
  }

  lemma InboxOne(m: OutMsg, session: u32)
    ensures Inbox([m], session) == if m.FillMsg? && m.fill.session == session then [m.fill] else []
  {
    assert [m][1..] == [];
  }

  /** An order for a symbol without a book is answered by one Reject, and nothing changes. */
  lemma UnhostedRejected(su: Setup, st: State, o: NewOrder)
    requires su.cfg.Valid() && su.LocalBook(o.symbol) == 0xFFFF
    ensures Step(su, st, NewMsg(o)) == Stepped(st, [RejectMsg(o.id, UnknownSymbol, o.session)])
  {
  }

  /** An order off the ladder or without a free slot changes nothing and is answered by nothing. */
  lemma UnplacedDropped(su: Setup, st: State, o: NewOrder)
    requires Ok(su, st) && su.LocalBook(o.symbol) != 0xFFFF && (!InLadder(su.cfg, o.price) || st.arena.free == [])
    ensures Step(su, st, NewMsg(o)) == Stepped(st, [])
  {
    var b := su.LocalBook(o.symbol);
    assert st.books[b := st.books[b]] == st.books;
    hide Ok, InLadder;
  }

  /** In particular one priced a tick or more below the base, or at or above the ladder's top. */
  lemma OffLadderDropped(su: Setup, st: State, o: NewOrder)
    requires Ok(su, st) && su.LocalBook(o.symbol) != 0xFFFF && su.cfg.tick > 0 && su.cfg.ladder <= 0x8000_0000
    requires var z: int, t: int, p: int := su.cfg.base, su.cfg.tick, o.price;
             && z - 0x8000_0001 * t < p < z + 0x8000_0000 * t
             && (p <= z - t || z + su.cfg.ladder * t <= p)
    ensures Step(su, st, NewMsg(o)) == Stepped(st, [])
  {
    StateShape(su, st);
    LadderPrices(su.cfg, o.price);
    hide Step, Ok, InLadder, PriceToIdx;
    UnplacedDropped(su, st, o);
  }

  /** A message of any other type changes nothing and is answered by nothing. */
  lemma OtherDropped(su: Setup, st: State)
    requires su.cfg.Valid()
    ensures Step(su, st, OtherMsg) == Stepped(st, [])
  {
  }

  lemma FillsBound(b: Book, name: nat, o: NewOrder, idx: nat, cap: nat)
    ensures |Submit(b, name, o, idx, cap).fills| <= cap
  {
    MatchExecutes(SideOf(o.side), idx, o.id, o.qty, b.On(Opposite(SideOf(o.side))), cap);
  }

  /** One message is answered by at most 129 messages: two for each of 64 fills, and an Ack. */
  lemma StepOutputBound(su: Setup, st: State, m: InMsg)
    requires su.cfg.Valid()
    ensures |Step(su, st, m).out| <= 129
  {
    if m.NewMsg? {
      var o := m.order;
      var b := su.LocalBook(o.symbol);
      if b != NO_BOOK && b < |st.books| && InLadder(su.cfg, o.price) && st.arena.free != [] {
        var slot := st.arena.free[|st.arena.free| - 1];
        FillsBound(st.books[b], slot, o, PriceToIdx(su.cfg, o.price), MAX_FILLS);
        hide Submit, PriceToIdx;
        ReportsBound(AddOrder(su.cfg, st.arena, st.books[b], o, MAX_FILLS).fills, o.session);
      }
    }
  }
}
