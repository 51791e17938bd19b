/** What one message does to slots, generations and queues. */
module Effects {
  import opened Types
  import opened PriceTime
  import opened Holdings
  import opened Tokens
  import opened Matching
  import opened Engine

  ghost predicate Held(st: State, x: nat) {
    exists b :: 0 <= b < |st.books| && Holds(st.books[b], x)
  }

  /** The new order's submission, when it reaches a book. */
  predicate Reaches(su: Setup, st: State, o: NewOrder)
    requires su.cfg.Valid()
  {
    && su.LocalBook(o.symbol) < |st.books| && su.LocalBook(o.symbol) != NO_BOOK
    && InLadder(su.cfg, o.price) && st.arena.free != []
  }

  function Top(st: State): nat
    requires st.arena.free != []
  {
    st.arena.free[|st.arena.free| - 1]
  }

  function Submission(su: Setup, st: State, o: NewOrder): Submitted
    requires su.cfg.Valid() && Reaches(su, st, o)
  {
    Submit(st.books[su.LocalBook(o.symbol)], Top(st), o, PriceToIdx(su.cfg, o.price), MAX_FILLS)
  }

  /** The slots a message sends back to the free stack, in order. */
  function Released(su: Setup, st: State, m: InMsg): seq<nat>
    requires su.cfg.Valid()
  {
    match m
    case NewMsg(o) =>
      if Reaches(su, st, o) then
        var r := Submission(su, st, o);
        r.freed + if r.rests then [] else [Top(st)]
      else []
    case CancelMsg(t, _) =>
      if Accepts(su, st, t) then [FromToken(t).slot] else []
    case OtherMsg => []
  }

  /** The slot a message leaves an order resting in. */
  function Placed(su: Setup, st: State, m: InMsg): Option<nat>
    requires su.cfg.Valid()
  {
    if m.NewMsg? && Reaches(su, st, m.order) && Submission(su, st, m.order).rests then Some(Top(st)) else None
  }

  /** The arena, told by what was released: the free stack grows by it and each release retires a generation. */
  ghost predicate ArenaMoves(a: Arena, a': Arena, rel: seq<nat>) {
    && |a'.gen| == |a.gen|
    && (forall x :: x in a'.free ==> x in a.free || x in rel)
    && (forall x :: x in rel ==> x in a'.free)
    && (forall x :: 0 <= x < |a.gen| ==> a'.gen[x] == (a.gen[x] + multiset(rel)[x]) % TWO32)
  }

  lemma ModStep(g: nat, k: nat)
    ensures ((g + 1) % TWO32 + k) % TWO32 == (g + (1 + k)) % TWO32
  {
  }

  lemma {:induction false} ReleaseAllGen(a: Arena, names: seq<nat>, x: nat)
    requires x < |a.gen|
    ensures ReleaseAll(a, names).gen[x] == (a.gen[x] + multiset(names)[x]) % TWO32
    decreases |names|
  {
    if names != [] {
      ReleaseAllGen(Release(a, names[0]), names[1..], x);
      assert names == [names[0]] + names[1..];
      var k: nat := multiset(names[1..])[x];
      assert multiset(names)[x] == (if x == names[0] then 1 else 0) + k;
      ModStep(a.gen[x], k);
    }
  }

  lemma ReleaseAllMoves(a: Arena, names: seq<nat>)
    ensures ArenaMoves(a, ReleaseAll(a, names), names)
  {
    ReleaseAllFree(a, names);
    hide ReleaseAll;
    forall x | 0 <= x < |a.gen| ensures ReleaseAll(a, names).gen[x] == (a.gen[x] + multiset(names)[x]) % TWO32 {
      ReleaseAllGen(a, names, x);
    }
  }

  lemma ReleaseOneMore(a: Arena, names: seq<nat>, x: nat)
    ensures ReleaseAll(a, names + [x]) == Release(ReleaseAll(a, names), x)
    decreases |names|
  {
    if names == [] {
      assert [x][1..] == [];
    } else {
      assert (names + [x])[1..] == names[1..] + [x];
      ReleaseOneMore(Release(a, names[0]), names[1..], x);
    }
  }

  lemma NamesKept(b: Book, name: nat, o: NewOrder, idx: nat, cap: nat, x: nat)
    requires Holds(Submit(b, name, o, idx, cap).book, x)
    ensures Holds(b, x) || (x == name && Submit(b, name, o, idx, cap).rests)
  {
    SubmitSlots(b, name, o, idx, cap);
    var r := Submit(b, name, o, idx, cap);
    hide Submit;
    HoldsSlots(r.book, x);
    HoldsSlots(b, x);
    assert (BookSlots(r.book) + multiset(r.freed))[x]
        == (BookSlots(b) + (if r.rests then multiset{name} else multiset{}))[x];
  }

  lemma NameAdded(b: Book, name: nat, o: NewOrder, idx: nat, cap: nat)
    requires Submit(b, name, o, idx, cap).rests
    ensures Holds(Submit(b, name, o, idx, cap).book, name)
  {
    var side := SideOf(o.side);
    var m := Match(side, idx, o.id, o.qty, b.On(Opposite(side)), cap);
    InsertSlots(side, b.On(side), ToResting(name, o, idx, m.left));
    assert name in Slots(Submit(b, name, o, idx, cap).book.On(side));
  }

  /** The state after a message, told by what it released and placed. */
  ghost predicate Moves(st: State, st': State, rel: seq<nat>, placed: Option<nat>) {
    && |st'.books| == |st.books|
    && ArenaMoves(st.arena, st'.arena, rel)
    && (forall c, x: nat :: 0 <= c < |st.books| && Holds(st'.books[c], x) ==>
         Holds(st.books[c], x) || placed == Some(x))
    && (placed.Some? ==> placed.value in st.arena.free)
  }

  /** The state after a new order that reaches a book. */
  lemma NewState(su: Setup, st: State, o: NewOrder)
    requires su.cfg.Valid() && Reaches(su, st, o)
    ensures NewStep(su, st, o).state
         == State(ReleaseAll(st.arena.(free := st.arena.free[..|st.arena.free| - 1]), Released(su, st, NewMsg(o))),
                  st.books[su.LocalBook(o.symbol) := Submission(su, st, o).book],
                  Stamped(su.cfg, st.arena, st.symbols, o))
  {
    hide Submit, PriceToIdx, Reports, AckFor, ReleaseAll, Release;
    var r := Submission(su, st, o);
    ReleaseOneMore(st.arena.(free := st.arena.free[..|st.arena.free| - 1]), r.freed, Top(st));
    assert r.freed + [] == r.freed;
  }

  lemma NewNames(su: Setup, st: State, o: NewOrder, c: nat, y: nat)
    requires su.cfg.Valid() && Reaches(su, st, o) && c < |st.books|
    requires Holds(st.books[su.LocalBook(o.symbol) := Submission(su, st, o).book][c], y)
    ensures Holds(st.books[c], y) || (Submission(su, st, o).rests && y == Top(st))
  {
    hide Submit, PriceToIdx, Holds;
    var b := su.LocalBook(o.symbol);
    if c == b {
      NamesKept(st.books[b], Top(st), o, PriceToIdx(su.cfg, o.price), MAX_FILLS, y);
    }
  }

  lemma NewMoves(su: Setup, st: State, o: NewOrder)
    requires su.cfg.Valid()
    ensures Moves(st, NewStep(su, st, o).state, Released(su, st, NewMsg(o)), Placed(su, st, NewMsg(o)))
    ensures Placed(su, st, NewMsg(o)).Some? ==> Holds(NewStep(su, st, o).state.books[su.LocalBook(o.symbol)], Top(st))
  {
    hide Submit, PriceToIdx, Reports, AckFor, ReleaseAll, Release, ArenaMoves, Holds;
    if Reaches(su, st, o) {
      var a0 := st.arena.(free := st.arena.free[..|st.arena.free| - 1]);
      var r, rel := Submission(su, st, o), Released(su, st, NewMsg(o));
      NewState(su, st, o);
      ReleaseAllMoves(a0, rel);
      ArenaWider(a0, st.arena, ReleaseAll(a0, rel), rel);
      if r.rests {
        NameAdded(st.books[su.LocalBook(o.symbol)], Top(st), o, PriceToIdx(su.cfg, o.price), MAX_FILLS);
      }
      hide Released, Submission, NewStep;
      forall c, y: nat | 0 <= c < |st.books| && Holds(NewStep(su, st, o).state.books[c], y)
        ensures Holds(st.books[c], y) || Placed(su, st, NewMsg(o)) == Some(y)
      {
        NewNames(su, st, o, c, y);
      }
    } else {
      ReleaseAllMoves(st.arena, []);
      NoRelease(st.arena);
    }
  }

  lemma NoRelease(a: Arena)
    ensures ReleaseAll(a, []) == a
  {
  }

  lemma ArenaWider(a: Arena, b: Arena, a': Arena, rel: seq<nat>)
    requires ArenaMoves(a, a', rel) && a.gen == b.gen && a.free <= b.free
    ensures ArenaMoves(b, a', rel)
  {
  }

  lemma CancelMoves(su: Setup, st: State, t: u64, session: u32)
    requires su.cfg.Valid() && TokenOk(su, st, t)
    ensures Moves(st, CancelStep(su, st, t, session).state, Released(su, st, CancelMsg(t, session)), None)
  {
    var h := FromToken(t);
    if Accepts(su, st, t) {
      var b := BookOf(su, st, h.slot);
      ReleaseAllMoves(st.arena, [h.slot]);
      assert [h.slot][1..] == [];
      assert ReleaseAll(st.arena, [h.slot]) == Release(st.arena, h.slot);
      WithdrawKept(st.books[b], h.slot);
      hide FromToken, Release, ReleaseAll, Withdraw, Holds, ArenaMoves;
      forall c, y: nat | 0 <= c < |st.books| && Holds(st.books[b := Withdraw(st.books[b], h.slot)][c], y)
        ensures Holds(st.books[c], y)
      {
      }
    } else {
      ReleaseAllMoves(st.arena, []);
    }
  }

  lemma WithdrawKept(b: Book, name: nat)
    ensures forall y :: Holds(Withdraw(b, name), y) ==> Holds(b, y)
  {
    DeleteSlots(b.bids, name);
    DeleteSlots(b.asks, name);
    forall y | Holds(Withdraw(b, name), y) ensures Holds(b, y) {
      HoldsSlots(Withdraw(b, name), y);
      HoldsSlots(b, y);
    }
  }

  lemma StepMoves(su: Setup, st: State, m: InMsg)
    requires su.cfg.Valid() && MsgOk(su, st, m)
    ensures Moves(st, Step(su, st, m).state, Released(su, st, m), Placed(su, st, m))
  {
    match m
    case NewMsg(o) => NewMoves(su, st, o);
    case CancelMsg(t, s) => CancelMoves(su, st, t, s);
    case OtherMsg => ReleaseAllMoves(st.arena, []);
  }

  // ---------- Where slots are ----------

  /** Every slot is on the free stack or queued, never both. */
  lemma Somewhere(su: Setup, st: State, x: nat)
    requires Ok(su, st) && x < su.cfg.slots
    ensures x in st.arena.free <==> !Held(st, x)
  {
    EverythingOnce(su.cfg.slots);
    assert AllSlots(st)[x] == 1;
    if x in BooksSlots(st.books) {
      var b := InSomeBook(st.books, x);
    } else if Held(st, x) {
      var b :| 0 <= b < |st.books| && Holds(st.books[b], x);
      BooksSplit(st.books, b);
      HoldsSlots(st.books[b], x);
    }
  }

  lemma HeldInRange(su: Setup, st: State, b: nat, x: nat)
    requires Ok(su, st) && b < |st.books| && Holds(st.books[b], x)
    ensures x < su.cfg.slots
  {
    EverythingOnce(su.cfg.slots);
    BooksSplit(st.books, b);
    HoldsSlots(st.books[b], x);
    assert AllSlots(st)[x] > 0;
  }

  lemma PlacedHeld(su: Setup, st: State, m: InMsg)
    requires su.cfg.Valid() && Placed(su, st, m).Some?
    ensures m.NewMsg? && su.LocalBook(m.order.symbol) < |st.books| == |Step(su, st, m).state.books|
    ensures Holds(Step(su, st, m).state.books[su.LocalBook(m.order.symbol)], Placed(su, st, m).value)
  {
    NewMoves(su, st, m.order);
    hide Submission, Holds, NewStep;
  }

  /** What was released is not queued. */
  lemma HeldNotReleased(su: Setup, st: State, a: Arena, rel: seq<nat>)
    requires Ok(su, st) && ArenaMoves(a, st.arena, rel)
    ensures forall b, x: nat :: 0 <= b < |st.books| && Holds(st.books[b], x) ==> x < su.cfg.slots
    ensures forall b, x: nat :: 0 <= b < |st.books| && Holds(st.books[b], x) ==> x !in rel
  {
    hide Holds, Ok;
    forall b, x: nat | 0 <= b < |st.books| && Holds(st.books[b], x) ensures x < su.cfg.slots {
      HeldInRange(su, st, b, x);
    }
    forall b, x: nat | 0 <= b < |st.books| && Holds(st.books[b], x) ensures x !in rel {
      BooksApart(su, st, b, b, x);
    }
  }
}
