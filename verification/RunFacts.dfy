/** What holds over whole runs of a shard: slots and quantity are conserved, and when books stay uncrossed. */
module RunFacts {
  import opened Types
  import opened PriceTime
  import opened Holdings
  import opened Tokens
  import opened Matching
  import opened Engine
  import opened Effects
  import opened Renaming
  import opened Runs
  import opened Isolation

  // ---------- Slots ----------

  /** After every legal run, each slot is free or queued, never both, and free and queued slots make up the arena. */
  lemma SlotsConserved(su: Setup, es: seq<Event>)
    requires su.Valid() && LegalRun(su, es)
    ensures var st := Play(su, es).st;
            && AllSlots(st) == Everything(su.cfg.slots)
            && (forall x: nat :: x < su.cfg.slots ==> (x in st.arena.free <==> !Held(st, x)))
            && RestingCount(st.books) + |st.arena.free| == su.cfg.slots
  {
    RunInv(su, es);
    var st := Play(su, es).st;
    SlotCount(su, st);
    forall x: nat | x < su.cfg.slots ensures x in st.arena.free <==> !Held(st, x) {
      Somewhere(su, st, x);
    }
  }

  // ---------- Quantity ----------

  /**
   * Quantity of orders that got a slot, quantity traded once per fill, quantity cancelled, quantity of
   * immediate-or-cancel orders killed unfilled.
   */
  datatype Ledger = Ledger(accepted: nat, traded: nat, cancelled: nat, killed: nat)

  function OpenAll(books: seq<Book>): nat {
    if books == [] then 0 else OpenIn(books[0]) + OpenAll(books[1..])
  }

  /** Open quantity of the order called `name`. */
  function QtyNamed(list: seq<Resting>, name: nat): nat {
    if list == [] then 0 else if list[0].name == name then list[0].qty else QtyNamed(list[1..], name)
  }

  function Entry(su: Setup, st: State, m: InMsg, l: Ledger): Ledger
    requires su.cfg.Valid()
  {
    match m
    case NewMsg(o) =>
      if Reaches(su, st, o) then
        var r := Submission(su, st, o);
        Ledger(l.accepted + o.qty, l.traded + Traded(r.fills), l.cancelled, l.killed + if o.tif == 1 then r.left else 0)
      else l
    case CancelMsg(t, _) =>
      if Accepts(su, st, t) then
        var x := FromToken(t).slot;
        var b := BookOf(su, st, x);
        l.(cancelled := l.cancelled + QtyNamed(st.books[b].bids, x) + QtyNamed(st.books[b].asks, x))
      else l
    case OtherMsg => l
  }

  function Accounts(su: Setup, es: seq<Event>): Ledger
    requires su.cfg.Valid()
  {
    if es == [] then Ledger(0, 0, 0, 0)
    else
      var w := Play(su, es[..|es| - 1]);
      Entry(su, w.st, MessageOf(su, w, es[|es| - 1]), Accounts(su, es[..|es| - 1]))
  }

  ghost predicate Balanced(l: Ledger, st: State) {
    l.accepted == 2 * l.traded + OpenAll(st.books) + l.cancelled + l.killed
  }

  lemma {:induction false} OpenReplace(books: seq<Book>, b: nat, x: Book)
    requires b < |books|
    ensures OpenAll(books[b := x]) + OpenIn(books[b]) == OpenAll(books) + OpenIn(x)
  {
    if b > 0 {
      OpenReplace(books[1..], b - 1, x);
      assert books[b := x][1..] == books[1..][b - 1 := x];
    } else {
      assert books[b := x][1..] == books[1..];
    }
  }

  lemma {:induction false} DeleteOpen(list: seq<Resting>, name: nat)
    ensures Open(Delete(list, name)) + QtyNamed(list, name) == Open(list)
  {
    if list != [] && list[0].name != name {
      DeleteOpen(list[1..], name);
      assert ([list[0]] + Delete(list[1..], name))[1..] == Delete(list[1..], name);
    }
  }

  lemma EntryBalanced(su: Setup, st: State, m: InMsg, l: Ledger)
    requires su.cfg.Valid() && Balanced(l, st) && MsgOk(su, st, m)
    ensures Balanced(Entry(su, st, m, l), Step(su, st, m).state)
  {
    match m
    case NewMsg(o) =>
      if Reaches(su, st, o) {
        var b, x, idx := su.LocalBook(o.symbol), Top(st), PriceToIdx(su.cfg, o.price);
        NewState(su, st, o);
        SubmitConserves(st.books[b], x, o, idx, MAX_FILLS);
        OpenReplace(st.books, b, Submission(su, st, o).book);
      } else if su.LocalBook(o.symbol) < |st.books| {
        assert st.books[su.LocalBook(o.symbol) := st.books[su.LocalBook(o.symbol)]] == st.books;
      }
      hide Submit, PriceToIdx, ReleaseAll, Moves, OpenAll, OpenIn, Traded, Reports, AckFor;
    case CancelMsg(t, s) =>
      if Accepts(su, st, t) {
        var x := FromToken(t).slot;
        var b := BookOf(su, st, x);
        DeleteOpen(st.books[b].bids, x);
        DeleteOpen(st.books[b].asks, x);
        OpenReplace(st.books, b, Withdraw(st.books[b], x));
      }
      hide OpenAll, Delete, FromToken, Release;
    case OtherMsg =>
  }

  lemma {:induction false} NothingOpen(n: nat)
    ensures OpenAll(seq(n, _ => EMPTY_BOOK)) == 0
  {
    if n > 0 {
      NothingOpen(n - 1);
      assert seq(n, _ => EMPTY_BOOK)[1..] == seq(n - 1, _ => EMPTY_BOOK);
    }
  }

  /** Over every run: accepted quantity is twice the traded quantity plus what rests, was cancelled or was killed. */
  lemma {:induction false} QuantityConserved(su: Setup, es: seq<Event>)
    requires su.Valid() && LegalRun(su, es)
    ensures Balanced(Accounts(su, es), Play(su, es).st)
  {
    if es == [] {
      NothingOpen(su.books);
    } else {
      var es', e := es[..|es| - 1], es[|es| - 1];
      var w := Play(su, es');
      QuantityConserved(su, es');
      RunInv(su, es');
      LegalMsgOk(su, w, e);
      hide Entry, Balanced, Step, Inv, Legal, MessageOf, MsgOk;
      EntryBalanced(su, w.st, MessageOf(su, w, e), Accounts(su, es'));
      StepTaken(su, w, e);
    }
  }

  // ---------- Crossing ----------

  /** The event submits an order that may rest and that the cap of 64 fills stops short of its limit. */
  ghost predicate Capped(su: Setup, w: World, e: Event)
    requires su.cfg.Valid()
  {
    && e.Send? && Reaches(su, w.st, e.order)
    && LeavesCrossed(w.st.books[su.LocalBook(e.order.symbol)], e.order, PriceToIdx(su.cfg, e.order.price), 64)
  }

  ghost predicate NeverCapped(su: Setup, es: seq<Event>)
    requires su.cfg.Valid()
  {
    es == [] || (NeverCapped(su, es[..|es| - 1]) && !Capped(su, Play(su, es[..|es| - 1]), es[|es| - 1]))
  }

  ghost predicate AllUncrossed(books: seq<Book>) {
    forall b :: 0 <= b < |books| ==> Uncrossed(books[b])
  }

  /** No book is crossed at any point of the run. */
  ghost predicate AlwaysUncrossed(su: Setup, es: seq<Event>)
    requires su.cfg.Valid()
  {
    forall n :: 0 <= n <= |es| ==> AllUncrossed(Play(su, es[..n]).st.books)
  }

  /** A new order crosses uncrossed books exactly when it is stopped by the cap short of its limit. */
  lemma NewUncrossed(su: Setup, st: State, o: NewOrder)
    requires Ok(su, st) && AllUncrossed(st.books)
    ensures AllUncrossed(NewStep(su, st, o).state.books) <==>
            !(Reaches(su, st, o)
              && LeavesCrossed(st.books[su.LocalBook(o.symbol)], o, PriceToIdx(su.cfg, o.price), 64))
  {
    var b := su.LocalBook(o.symbol);
    if Reaches(su, st, o) {
      assert BookOk(su, st.symbols, b, st.books[b]);
      SubmitUncrossed(st.books[b], Top(st), o, PriceToIdx(su.cfg, o.price), MAX_FILLS);
      NewState(su, st, o);
      assert NewStep(su, st, o).state.books[b] == Submission(su, st, o).book;
    }
    hide Submit, PriceToIdx, LeavesCrossed, Uncrossed, ReleaseAll, Moves, Stamped;
  }

  lemma CancelUncrossed(su: Setup, st: State, t: u64, session: u32)
    requires Ok(su, st) && AllUncrossed(st.books) && TokenOk(su, st, t)
    ensures AllUncrossed(CancelStep(su, st, t, session).state.books)
  {
    if Accepts(su, st, t) {
      var b := BookOf(su, st, FromToken(t).slot);
      assert BookOk(su, st.symbols, b, st.books[b]);
      WithdrawUncrossed(st.books[b], FromToken(t).slot);
    }
    hide Withdraw, Uncrossed, FromToken, Release;
  }

  lemma EventUncrossed(su: Setup, w: World, e: Event)
    requires Inv(su, w) && Legal(w, e) && AllUncrossed(w.st.books)
    ensures AllUncrossed(Advance(su, w, e).st.books) <==> !Capped(su, w, e)
  {
    StepTaken(su, w, e);
    LegalMsgOk(su, w, e);
    hide AllUncrossed, NewStep, CancelStep, Legal, Seated, Kept, LeavesCrossed, Advance, TokenOk;
    match MessageOf(su, w, e)
    case NewMsg(o) => NewUncrossed(su, w.st, o);
    case CancelMsg(t, s) => CancelUncrossed(su, w.st, t, s);
    case OtherMsg =>
  }

  /**
   * Over every run: no book is crossed at any point exactly when the cap never stops a resting order short of its
   * limit.
   */
  lemma {:induction false} NeverCrossed(su: Setup, es: seq<Event>)
    requires su.Valid() && LegalRun(su, es)
    ensures AlwaysUncrossed(su, es) <==> NeverCapped(su, es)
  {
    if es == [] {
      assert es[..0] == [];
    } else {
      var es', e := es[..|es| - 1], es[|es| - 1];
      var w := Play(su, es');
      hide AllUncrossed, Legal, Inv, Capped, Advance, AlwaysUncrossed;
      NeverCrossed(su, es');
      RunInv(su, es');
      PrefixesSplit(su, es);
      if AllUncrossed(w.st.books) {
        EventUncrossed(su, w, e);
      }
    }
  }

  lemma PrefixesSplit(su: Setup, es: seq<Event>)
    requires su.cfg.Valid() && es != []
    ensures var es' := es[..|es| - 1];
            && (AlwaysUncrossed(su, es) <==> AlwaysUncrossed(su, es') && AllUncrossed(Play(su, es).st.books))
            && (AlwaysUncrossed(su, es') ==> AllUncrossed(Play(su, es').st.books))
  {
    hide AllUncrossed, Play;
    var es' := es[..|es| - 1];
    assert forall n :: 0 <= n <= |es'| ==> es'[..n] == es[..n];
    assert es[..|es|] == es && es'[..|es'|] == es';
  }
}
