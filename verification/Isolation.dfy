/**
 * A symbol hosted with others behaves as a symbol alone: its fills, its replies and its queues are those of the
 * reference book fed with its own orders and cancels, whatever the other symbols do to the shared arena.
 */
module Isolation {
  import opened Types
  import opened PriceTime
  import opened Holdings
  import opened Tokens
  import opened Matching
  import opened Engine
  import opened Effects
  import opened Renaming
  import opened Runs

  // ---------- A symbol alone ----------

  /** What a client learns: the fills and whether the order rests, or whether the cancel was accepted. */
  datatype Reply = Done(fills: seq<Fill>, rests: bool) | Answer(ok: bool)

  datatype Solo = Solo(book: Book, replies: seq<Reply>)

  function Deal(cfg: Config, b: Book, e: Event): (Book, Reply)
    requires cfg.Valid()
  {
    match e
    case Send(u, o) =>
      if InLadder(cfg, o.price) then
        var r := Submit(b, u, o, PriceToIdx(cfg, o.price), MAX_FILLS);
        (r.book, Done(r.fills, r.rests))
      else (b, Done([], false))
    case Cancel(u, _, _) =>
      if Holds(b, u) then (Withdraw(b, u), Answer(true)) else (b, Answer(false))
  }

  /** The reference book fed with events of one symbol, no arena and no other symbol in sight. */
  function Alone(cfg: Config, es: seq<Event>): Solo
    requires cfg.Valid()
  {
    if es == [] then Solo(EMPTY_BOOK, [])
    else
      var s := Alone(cfg, es[..|es| - 1]);
      var (b, r) := Deal(cfg, s.book, es[|es| - 1]);
      Solo(b, s.replies + [r])
  }

  // ---------- A symbol among others ----------

  function SymbolOf(e: Event): u16 {
    match e
    case Send(_, o) => o.symbol
    case Cancel(_, s, _) => s
  }

  /** The events of one symbol, in order. */
  function Mine(es: seq<Event>, symbol: u16): seq<Event> {
    if es == [] then []
    else Mine(es[..|es| - 1], symbol) + if SymbolOf(es[|es| - 1]) == symbol then [es[|es| - 1]] else []
  }

  /** What the shard replies to an event. */
  function ReplyOf(su: Setup, w: World, e: Event): Reply
    requires su.cfg.Valid()
  {
    var m := MessageOf(su, w, e);
    match e
    case Send(_, o) =>
      if Reaches(su, w.st, o) then Done(Submission(su, w.st, o).fills, Submission(su, w.st, o).rests)
      else Done([], false)
    case Cancel(_, _, _) => Answer(Released(su, w.st, m) != [])
  }

  /** The shard's replies to the events of one symbol. */
  function MyReplies(su: Setup, es: seq<Event>, symbol: u16): seq<Reply>
    requires su.cfg.Valid()
  {
    if es == [] then []
    else
      MyReplies(su, es[..|es| - 1], symbol)
      + if SymbolOf(es[|es| - 1]) == symbol then [ReplyOf(su, Play(su, es[..|es| - 1]), es[|es| - 1])] else []
  }

  /**
   * A reply on the wire: reports of the fills, an Ack with the token of a resting order, an Ack or Reject of a cancel.
   */
  function Wire(su: Setup, w': World, e: Event, r: Reply): seq<OutMsg>
    requires e.Send? ==> r.Done? && (r.rests ==> e.uid in w'.issued)
    requires e.Cancel? ==> r.Answer? && e.uid in w'.issued
  {
    match e
    case Send(u, o) =>
      Reports(r.fills, o.session)
      + if r.rests then [AckMsg(o.id, ToToken(HandleOf(w'.issued[u]), su.id), o.session)] else []
    case Cancel(u, _, session) =>
      if r.ok then [AckMsg(0, ToToken(HandleOf(w'.issued[u]), su.id), session)]
      else [RejectMsg(0, UnknownOrder, session)]
  }

  /** What the shard emits for an event of a hosted symbol is its reply on the wire. */
  lemma EmitsReply(su: Setup, w: World, e: Event)
    requires Inv(su, w) && Legal(w, e) && su.LocalBook(SymbolOf(e)) != NO_BOOK
    ensures var r, w' := ReplyOf(su, w, e), Advance(su, w, e);
            && (e.Send? ==> r.Done? && (r.rests ==> e.uid in w'.issued))
            && (e.Cancel? ==> r.Answer? && e.uid in w'.issued)
            && Step(su, w.st, MessageOf(su, w, e)).out == Wire(su, w', e, r)
  {
    match e
    case Send(u, o) => OrderEmits(su, w, u, o);
    case Cancel(u, s, session) => CancelEmits(su, w, e);
  }

  lemma OrderEmits(su: Setup, w: World, u: nat, o: NewOrder)
    requires Inv(su, w) && Legal(w, Send(u, o)) && su.LocalBook(o.symbol) != NO_BOOK
    ensures var e := Send(u, o);
            var r, w' := ReplyOf(su, w, e), Advance(su, w, e);
            && r.Done? && (r.rests ==> e.uid in w'.issued)
            && NewStep(su, w.st, o).out == Wire(su, w', e, r)
  {
    hide Ok, Submit, PriceToIdx, Inv, Legal, Reports, ReleaseAll, Release, ToToken;
    assert Ok(su, w.st) && |w.occupant| == |w.age| == su.cfg.slots by { InvShape(su, w); }
    StateShape(su, w.st);
    if Reaches(su, w.st, o) && Submission(su, w.st, o).rests {
      TopInRange(su, w.st);
      AckedHandle(su, w, u, o);
    }
  }

  lemma InvShape(su: Setup, w: World)
    requires Inv(su, w)
    ensures Ok(su, w.st) && |w.occupant| == |w.age| == su.cfg.slots
    ensures forall x :: 0 <= x < |w.age| ==> x < |w.st.arena.gen| && w.st.arena.gen[x] == w.age[x] % TWO32
  {
  }

  lemma PlacedTop(su: Setup, st: State, o: NewOrder)
    requires su.cfg.Valid() && Reaches(su, st, o) && Submission(su, st, o).rests
    ensures st.arena.free != [] && Placed(su, st, NewMsg(o)) == Some(Top(st))
  {
  }

  /** The generation in the Ack is the recycle count recorded for the order. */
  lemma AckedHandle(su: Setup, w: World, u: nat, o: NewOrder)
    requires Inv(su, w) && Legal(w, Send(u, o)) && Reaches(su, w.st, o) && Submission(su, w.st, o).rests
    ensures var w', x := Advance(su, w, Send(u, o)), Top(w.st);
            u in w'.issued && HandleOf(w'.issued[u]) == Handle(x, GenOf(NewStep(su, w.st, o).state.arena, x))
  {
    hide Ok, Submission, Reaches, Inv, Legal, NewStep, Released, Aged, Placed;
    InvShape(su, w);
    StateShape(su, w.st);
    PlacedTop(su, w.st, o);
    AdvanceInv(su, w, Send(u, o));
    InvShape(su, Advance(su, w, Send(u, o)));
    TopInRange(su, w.st);
  }

  lemma CancelEmits(su: Setup, w: World, e: Event)
    requires Inv(su, w) && Legal(w, e) && e.Cancel?
    ensures var r, w' := ReplyOf(su, w, e), Advance(su, w, e);
            && r.Answer? && e.uid in w'.issued
            && Step(su, w.st, MessageOf(su, w, e)).out == Wire(su, w', e, r)
  {
    InvShape(su, w);
    StateShape(su, w.st);
    CancelFinds(su, w, e.uid, e.symbol, e.session);
    hide Ok, Inv, ToToken, FromToken, Withdraw, Release;
  }

  // ---------- Cancels ----------

  /** The order labelled `u` is among those resting in book `b`. */
  ghost predicate Rests(w: World, b: nat, u: nat)
    requires b < |w.st.books|
  {
    Holds(RenamedBook(w.st.books[b], w.occupant), u)
  }

  lemma RestsWhen(su: Setup, w: World, u: nat, symbol: u16, session: u32)
    requires Inv(su, w) && Legal(w, Cancel(u, symbol, session)) && su.LocalBook(symbol) < |w.st.books|
    ensures Rests(w, su.LocalBook(symbol), u) <==> Current(w.st.arena, HandleOf(w.issued[u]))
  {
    var b, i := su.LocalBook(symbol), w.issued[u];
    CancelFinds(su, w, u, symbol, session);
    hide Ok;
    if Current(w.st.arena, HandleOf(i)) {
      RenamedHolds(w.st.books[b], i.slot, w.occupant);
    }
    if Rests(w, b, u) {
      var n := HoldsOrigin(w.st.books[b], u, w.occupant);
      hide Holds;
      assert Seated(su, w, b, n);
    }
  }

  /** Labels of resting orders are not shared. */
  lemma LabelsDiffer(su: Setup, w: World, b: nat, x: nat, n: nat)
    requires Inv(su, w) && b < |w.st.books| && Holds(w.st.books[b], x) && Holds(w.st.books[b], n)
    requires At(w.occupant, n) == At(w.occupant, x)
    ensures n == x
  {
    hide Holds, Ok;
    assert Seated(su, w, b, x) && Seated(su, w, b, n);
  }

  /**
   * A cancel by an issued token is accepted exactly when its own order still rests. It then takes that order out of
   * its book, touches no other book and frees the one slot; otherwise it is rejected and nothing changes.
   */
  lemma CancelExact(su: Setup, w: World, u: nat, symbol: u16, session: u32)
    requires Inv(su, w) && Legal(w, Cancel(u, symbol, session)) && su.LocalBook(symbol) < |w.st.books|
    ensures var b, x, t := su.LocalBook(symbol), w.issued[u].slot, ToToken(HandleOf(w.issued[u]), su.id);
            var r := CancelStep(su, w.st, t, session);
            if Rests(w, b, u) then
              && r.out == [AckMsg(0, t, session)]
              && r.state == State(Release(w.st.arena, x), w.st.books[b := Withdraw(w.st.books[b], x)], w.st.symbols)
              && RenamedBook(Withdraw(w.st.books[b], x), w.occupant)
                 == Withdraw(RenamedBook(w.st.books[b], w.occupant), u)
            else
              r.out == [RejectMsg(0, UnknownOrder, session)] && r.state == w.st
  {
    var b, x := su.LocalBook(symbol), w.issued[u].slot;
    RestsWhen(su, w, u, symbol, session);
    CancelFinds(su, w, u, symbol, session);
    if Rests(w, b, u) {
      forall n | Holds(w.st.books[b], n) && At(w.occupant, n) == At(w.occupant, x) ensures n == x {
        LabelsDiffer(su, w, b, x, n);
      }
      RenamedWithdraw(w.st.books[b], x, w.occupant);
    }
    hide Ok, Withdraw, Release, RenamedBook, FromToken;
  }

  // ---------- One event ----------

  /** An order bound for a ladder level of a hosted symbol finds a free slot. */
  ghost predicate Room(su: Setup, w: World, e: Event)
    requires su.cfg.Valid()
  {
    e.Send? && su.LocalBook(e.order.symbol) != NO_BOOK && InLadder(su.cfg, e.order.price) ==> w.st.arena.free != []
  }

  /** No order of the symbol meets an exhausted arena; orders of other symbols may. */
  ghost predicate RoomyRun(su: Setup, es: seq<Event>, symbol: u16)
    requires su.cfg.Valid()
  {
    es == [] ||
    var es', e := es[..|es| - 1], es[|es| - 1];
    RoomyRun(su, es', symbol) && (SymbolOf(e) == symbol ==> Room(su, Play(su, es'), e))
  }

  /** The queues of book `b`, by label. */
  function Labelled(w: World, b: nat): Book
    requires b < |w.st.books|
  {
    RenamedBook(w.st.books[b], w.occupant)
  }

  lemma FreshLabel(su: Setup, w: World, b: nat, book: Book, u: nat)
    requires Ok(su, w.st) && b < |w.st.books| && w.st.arena.free != [] && |w.occupant| == su.cfg.slots
    requires forall n: nat :: Holds(book, n) ==> n != Top(w.st)
    ensures Top(w.st) < |w.occupant| && RenamedBook(book, w.occupant[Top(w.st) := u]) == RenamedBook(book, w.occupant)
  {
    TopInRange(su, w.st);
    RenamedBookSame(book, w.occupant[Top(w.st) := u], w.occupant);
  }

  lemma TopNotHeld(su: Setup, st: State, b: nat)
    requires Ok(su, st) && b < |st.books| && st.arena.free != []
    ensures forall n: nat :: Holds(st.books[b], n) ==> n != Top(st)
  {
    hide Ok, Holds;
    forall n: nat | Holds(st.books[b], n) ensures n != Top(st) {
      BooksApart(su, st, b, b, n);
    }
  }

  lemma OtherOrder(su: Setup, w: World, u: nat, o: NewOrder, b: nat)
    requires Inv(su, w) && Legal(w, Send(u, o)) && b < |w.st.books| && su.LocalBook(o.symbol) != b
    ensures |Advance(su, w, Send(u, o)).st.books| == |w.st.books|
    ensures Labelled(Advance(su, w, Send(u, o)), b) == Labelled(w, b)
  {
    hide Ok, Submit, PriceToIdx, ReleaseAll, Release, Holds, RenamedBook, Inv, Legal, Stamped, Reports, AckFor,
         Released;
    assert Ok(su, w.st) && |w.occupant| == |w.age| == su.cfg.slots by { InvShape(su, w); }
    StateShape(su, w.st);
    if Reaches(su, w.st, o) {
      TopNotHeld(su, w.st, b);
      FreshLabel(su, w, b, w.st.books[b], u);
    }
  }

  lemma OtherCancel(su: Setup, w: World, e: Event, b: nat)
    requires Inv(su, w) && Legal(w, e) && e.Cancel? && b < |w.st.books| && su.LocalBook(e.symbol) != b
    ensures |Advance(su, w, e).st.books| == |w.st.books| && Labelled(Advance(su, w, e), b) == Labelled(w, b)
  {
    CancelFinds(su, w, e.uid, e.symbol, e.session);
    hide Ok, Withdraw, RenamedBook, Release, FromToken, ToToken;
  }

  lemma OwnOrder(su: Setup, w: World, u: nat, o: NewOrder)
    requires Inv(su, w) && Legal(w, Send(u, o)) && Room(su, w, Send(u, o))
    requires su.LocalBook(o.symbol) != NO_BOOK && su.LocalBook(o.symbol) < |w.st.books|
    ensures var b, w' := su.LocalBook(o.symbol), Advance(su, w, Send(u, o));
            && |w'.st.books| == |w.st.books|
            && Deal(su.cfg, Labelled(w, b), Send(u, o)) == (Labelled(w', b), ReplyOf(su, w, Send(u, o)))
  {
    hide Ok, Submit, PriceToIdx, ReleaseAll, Holds, RenamedBook, Seated, Kept, Moves, Reports, AckFor;
    StateShape(su, w.st);
    var b := su.LocalBook(o.symbol);
    if Reaches(su, w.st, o) {
      var x, idx := Top(w.st), PriceToIdx(su.cfg, o.price);
      var r := Submission(su, w.st, o);
      TopNotHeld(su, w.st, b);
      FreshLabel(su, w, b, w.st.books[b], u);
      RenamedSubmit(w.st.books[b], x, o, idx, MAX_FILLS, w.occupant[x := u]);
      NewState(su, w.st, o);
      if !r.rests {
        Unrested(su, w, u, o, b);
      }
    }
  }

  lemma Unrested(su: Setup, w: World, u: nat, o: NewOrder, b: nat)
    requires Inv(su, w) && Reaches(su, w.st, o) && b == su.LocalBook(o.symbol) && !Submission(su, w.st, o).rests
    ensures Top(w.st) < |w.occupant|
    ensures var book := Submission(su, w.st, o).book;
            RenamedBook(book, w.occupant[Top(w.st) := u]) == RenamedBook(book, w.occupant)
  {
    hide Ok, Submit, PriceToIdx, Holds, RenamedBook, Seated, Kept;
    StateShape(su, w.st);
    var x, idx := Top(w.st), PriceToIdx(su.cfg, o.price);
    var book := Submission(su, w.st, o).book;
    TopNotHeld(su, w.st, b);
    forall n: nat | Holds(book, n) ensures n != x {
      NamesKept(w.st.books[b], x, o, idx, MAX_FILLS, n);
    }
    FreshLabel(su, w, b, book, u);
  }

  lemma OwnCancel(su: Setup, w: World, e: Event)
    requires Inv(su, w) && Legal(w, e) && e.Cancel? && su.LocalBook(e.symbol) < |w.st.books|
    ensures var b, w' := su.LocalBook(e.symbol), Advance(su, w, e);
            |w'.st.books| == |w.st.books| && Deal(su.cfg, Labelled(w, b), e) == (Labelled(w', b), ReplyOf(su, w, e))
  {
    CancelExact(su, w, e.uid, e.symbol, e.session);
    RestsWhen(su, w, e.uid, e.symbol, e.session);
    CancelFinds(su, w, e.uid, e.symbol, e.session);
    hide Ok, Withdraw, RenamedBook, Release, FromToken, ToToken, Seated, Kept;
  }

  // ---------- Every run ----------

  /**
   * In every legal run in which no order of a hosted symbol meets an exhausted arena, its queues and replies are those
   * of the reference book fed with that symbol's events alone, whatever happens to the orders of other symbols.
   */
  lemma {:induction false} SymbolIsolated(su: Setup, es: seq<Event>, symbol: u16)
    requires su.Valid() && LegalRun(su, es) && RoomyRun(su, es, symbol) && su.LocalBook(symbol) != NO_BOOK
    ensures var w, b := Play(su, es), su.LocalBook(symbol);
            b < |w.st.books| && Solo(Labelled(w, b), MyReplies(su, es, symbol)) == Alone(su.cfg, Mine(es, symbol))
  {
    hide Advance, Inv, Deal, ReplyOf, Legal, Begin, SymbolOf, Labelled, Room, RenamedBook;
    var b := su.LocalBook(symbol);
    if es == [] {
      AloneBegin(su, b);
    } else {
      var es', e := es[..|es| - 1], es[|es| - 1];
      var w := Play(su, es');
      SymbolIsolated(su, es', symbol);
      RunInv(su, es');
      OneEvent(su, w, e, symbol);
      var mine := Mine(es', symbol);
      assert (mine + [e])[..|mine|] == mine;
      assert mine + [] == mine && MyReplies(su, es', symbol) + [] == MyReplies(su, es', symbol);
    }
  }

  lemma AloneBegin(su: Setup, b: nat)
    requires su.Valid() && b < su.books
    ensures b < |Begin(su).st.books| && Labelled(Begin(su), b) == EMPTY_BOOK
  {
    assert Renamed([], Begin(su).occupant) == [];
  }

  /** One event deals with its own symbol as alone, and leaves every other as it was. */
  lemma OneEvent(su: Setup, w: World, e: Event, symbol: u16)
    requires Inv(su, w) && Legal(w, e) && su.LocalBook(symbol) != NO_BOOK && (SymbolOf(e) == symbol ==> Room(su, w, e))
    ensures var b, w' := su.LocalBook(symbol), Advance(su, w, e);
            && b < |w.st.books| == |w'.st.books|
            && if SymbolOf(e) == symbol then Deal(su.cfg, Labelled(w, b), e) == (Labelled(w', b), ReplyOf(su, w, e))
               else Labelled(w', b) == Labelled(w, b)
  {
    StateShape(su, w.st);
    if SymbolOf(e) != symbol {
      OtherBook(su, SymbolOf(e), symbol);
    }
    hide Advance, Deal, ReplyOf, Legal, Inv, Ok, Labelled;
    match e
    case Send(u, o) =>
      if o.symbol == symbol {
        OwnOrder(su, w, u, o);
      } else {
        OtherOrder(su, w, u, o, su.LocalBook(symbol));
      }
    case Cancel(_, s, _) =>
      if s == symbol {
        OwnCancel(su, w, e);
      } else {
        OtherCancel(su, w, e, su.LocalBook(symbol));
      }
  }

  lemma OtherBook(su: Setup, s: u16, t: u16)
    requires su.Valid() && s != t && su.LocalBook(t) != NO_BOOK
    ensures su.LocalBook(s) != su.LocalBook(t)
  {
  }
}
