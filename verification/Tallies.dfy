/** What becomes of the quantity of one order, from its submission to the end of the run. */
module Tallies {
  import opened Types
  import opened PriceTime
  import opened Matching
  import opened Engine
  import opened Effects
  import opened Renaming
  import opened Runs
  import opened Isolation
  import opened RunFacts
  import opened Provenance

  /**
   * Quantity submitted under a label; taken when its order arrived; given while it rested, to orders that arrived
   * later; cancelled; and dropped, because the order was immediate-or-cancel, off the ladder or found no slot.
   */
  datatype Tally = Tally(sent: nat, taken: nat, given: nat, cancelled: nat, dropped: nat)

  /** Open quantity under a label. */
  function Left(list: seq<Resting>, u: nat): nat {
    if list == [] then 0 else (if list[0].name == u then list[0].qty else 0) + Left(list[1..], u)
  }

  function LeftIn(b: Book, u: nat): nat {
    Left(b.bids, u) + Left(b.asks, u)
  }

  /** What the fills take from the faced order under a label. */
  function Given(fills: seq<Fill>, met: seq<Resting>, u: nat): nat {
    if fills == [] || met == [] then 0
    else (if met[0].name == u then fills[0].qty else 0) + Given(fills[1..], met[1..], u)
  }

  function If(own: bool, n: nat): nat {
    if own then n else 0
  }

  ghost predicate Settled(t: Tally, b: Book, u: nat) {
    t.sent == t.taken + t.given + LeftIn(b, u) + t.cancelled + t.dropped
  }

  // ---------- One operation ----------

  lemma {:induction false} MatchLeft(side: Side, limit: nat, id: u64, qty: u32, opp: seq<Resting>, cap: nat, u: nat)
    ensures var m := Match(side, limit, id, qty, opp, cap); Left(m.rest, u) + Given(m.fills, opp, u) == Left(opp, u)
    decreases |opp|
  {
    if Stopped(side, limit, qty, opp, cap) {
    } else if qty < opp[0].qty {
      assert ([opp[0].(qty := opp[0].qty - qty)] + opp[1..])[1..] == opp[1..];
      assert [Report(id, opp[0], qty)][1..] == [];
    } else {
      MatchLeft(side, limit, id, qty - opp[0].qty, opp[1..], cap - 1, u);
      var m := Match(side, limit, id, qty - opp[0].qty, opp[1..], cap - 1);
      assert ([Report(id, opp[0], opp[0].qty)] + m.fills)[1..] == m.fills;
    }
  }

  lemma {:induction false} InsertLeft(side: Side, list: seq<Resting>, r: Resting, u: nat)
    ensures Left(Insert(side, list, r), u) == Left(list, u) + if r.name == u then r.qty else 0
  {
    if list == [] {
    } else if Better(side, r.idx, list[0].idx) {
      assert ([r] + list)[1..] == list;
    } else {
      InsertLeft(side, list[1..], r, u);
      assert ([list[0]] + Insert(side, list[1..], r))[1..] == Insert(side, list[1..], r);
    }
  }

  lemma {:induction false} DeleteLeft(list: seq<Resting>, name: nat, u: nat)
    ensures Left(Delete(list, name), u) + (if name == u then QtyNamed(list, u) else 0) == Left(list, u)
  {
    if list != [] && list[0].name != name {
      DeleteLeft(list[1..], name, u);
      assert ([list[0]] + Delete(list[1..], name))[1..] == Delete(list[1..], name);
    }
  }

  /** What a submission under `v` does to the open quantity under `u`. */
  lemma SubmitLeft(b: Book, v: nat, o: NewOrder, idx: nat, cap: nat, u: nat)
    ensures var r := Submit(b, v, o, idx, cap);
            && LeftIn(r.book, u) + Given(r.fills, b.On(Opposite(SideOf(o.side))), u)
               == LeftIn(b, u) + If(v == u && o.tif != 1, r.left)
            && Traded(r.fills) + r.left == o.qty
  {
    var side := SideOf(o.side);
    var opp := b.On(Opposite(side));
    MatchLeft(side, idx, o.id, o.qty, opp, cap, u);
    SubmitConserves(b, v, o, idx, cap);
    var m := Match(side, idx, o.id, o.qty, opp, cap);
    InsertLeft(side, b.On(side), ToResting(v, o, idx, m.left), u);
    hide Match, Insert, Left, Given;
  }

  // ---------- One event ----------

  /** The entry an event makes, given the replies and the queues of its symbol's book `b`. */
  function Tallied(su: Setup, w: World, e: Event, b: nat, u: nat, t: Tally): Tally
    requires su.cfg.Valid() && b < |w.st.books|
  {
    match e
    case Send(v, o) =>
      if Reaches(su, w.st, o) then
        var r := Submission(su, w.st, o);
        Tally(t.sent + If(v == u, o.qty), t.taken + If(v == u, Traded(r.fills)),
              t.given + Given(r.fills, Labelled(w, b).On(Opposite(SideOf(o.side))), u),
              t.cancelled, t.dropped + If(v == u && o.tif == 1, r.left))
      else t.(sent := t.sent + If(v == u, o.qty), dropped := t.dropped + If(v == u, o.qty))
    case Cancel(v, _, _) =>
      if v == u && ReplyOf(su, w, e) == Answer(true) then
        t.(cancelled := t.cancelled + QtyNamed(Labelled(w, b).bids, u) + QtyNamed(Labelled(w, b).asks, u))
      else t
  }

  /** The tally of a label over the events of one symbol. */
  function TallyOf(su: Setup, es: seq<Event>, symbol: u16, u: nat): Tally
    requires su.cfg.Valid()
  {
    if es == [] then Tally(0, 0, 0, 0, 0)
    else
      var w, e, t := Play(su, es[..|es| - 1]), es[|es| - 1], TallyOf(su, es[..|es| - 1], symbol, u);
      if SymbolOf(e) == symbol && su.LocalBook(symbol) < |w.st.books| then Tallied(su, w, e, su.LocalBook(symbol), u, t)
      else t
  }

  lemma OrderTallied(su: Setup, w: World, v: nat, o: NewOrder, u: nat, t: Tally)
    requires Inv(su, w) && Legal(w, Send(v, o))
    requires su.LocalBook(o.symbol) != NO_BOOK && su.LocalBook(o.symbol) < |w.st.books|
    requires Settled(t, Labelled(w, su.LocalBook(o.symbol)), u)
    ensures var b, e, w' := su.LocalBook(o.symbol), Send(v, o), Advance(su, w, Send(v, o));
            |w'.st.books| == |w.st.books| && Settled(Tallied(su, w, e, b, u, t), Labelled(w', b), u)
  {
    hide Submission, PriceToIdx, Inv, Legal, Ok, Labelled, LeftIn, Advance, Traded, Given, InLadder;
    assert Ok(su, w.st) by { InvShape(su, w); }
    StateShape(su, w.st);
    if Reaches(su, w.st, o) {
      AcceptedLeft(su, w, v, o, u);
    } else {
      NoRoom(su, w, v, o, su.LocalBook(o.symbol));
    }
  }

  /** An order that reaches its book moves the open quantity under `u` as its fills and its fate say. */
  lemma AcceptedLeft(su: Setup, w: World, v: nat, o: NewOrder, u: nat)
    requires Inv(su, w) && Legal(w, Send(v, o)) && Reaches(su, w.st, o)
    ensures var b, w', r := su.LocalBook(o.symbol), Advance(su, w, Send(v, o)), Submission(su, w.st, o);
            && |w'.st.books| == |w.st.books| && Traded(r.fills) + r.left == o.qty
            && LeftIn(Labelled(w', b), u) + Given(r.fills, Labelled(w, b).On(Opposite(SideOf(o.side))), u)
               == LeftIn(Labelled(w, b), u) + If(v == u && o.tif != 1, r.left)
  {
    var b := su.LocalBook(o.symbol);
    hide PriceToIdx, Inv, Legal, Ok, Labelled, LeftIn, Advance, Traded, Given, Submit;
    assert Ok(su, w.st) by { InvShape(su, w); }
    StateShape(su, w.st);
    OwnOrder(su, w, v, o);
    SubmitLeft(Labelled(w, b), v, o, PriceToIdx(su.cfg, o.price), MAX_FILLS, u);
    SubmitParts(su, w, v, o);
  }

  /** The submission by label leaves as much as the one by slot. */
  lemma SubmitParts(su: Setup, w: World, v: nat, o: NewOrder)
    requires Inv(su, w) && Reaches(su, w.st, o)
    ensures var r := Submit(Labelled(w, su.LocalBook(o.symbol)), v, o, PriceToIdx(su.cfg, o.price), MAX_FILLS);
            r.fills == Submission(su, w.st, o).fills && r.left == Submission(su, w.st, o).left
  {
    var b, idx := su.LocalBook(o.symbol), PriceToIdx(su.cfg, o.price);
    RenamedSubmit(w.st.books[b], Top(w.st), o, idx, MAX_FILLS, w.occupant);
    hide PriceToIdx, Match, Insert, RenamedBook, Inv;
  }

  lemma CancelTallied(su: Setup, w: World, e: Event, u: nat, t: Tally)
    requires Inv(su, w) && Legal(w, e) && e.Cancel? && su.LocalBook(e.symbol) < |w.st.books|
    requires Settled(t, Labelled(w, su.LocalBook(e.symbol)), u)
    ensures var b, w' := su.LocalBook(e.symbol), Advance(su, w, e);
            |w'.st.books| == |w.st.books| && Settled(Tallied(su, w, e, b, u, t), Labelled(w', b), u)
  {
    var b := su.LocalBook(e.symbol);
    StateShape(su, w.st);
    OwnCancel(su, w, e);
    DeleteLeft(Labelled(w, b).bids, e.uid, u);
    DeleteLeft(Labelled(w, b).asks, e.uid, u);
    hide Inv, Ok, Labelled, Advance, Delete, Left, Legal;
  }

  // ---------- Every run ----------

  lemma {:induction false} RunSettled(su: Setup, es: seq<Event>, symbol: u16, u: nat)
    requires su.Valid() && LegalRun(su, es) && su.LocalBook(symbol) != NO_BOOK
    ensures su.LocalBook(symbol) < |Play(su, es).st.books|
    ensures Settled(TallyOf(su, es, symbol, u), Labelled(Play(su, es), su.LocalBook(symbol)), u)
  {
    hide Settled, Tallied, Advance, Inv, Legal, Begin, Labelled, SymbolOf;
    var b := su.LocalBook(symbol);
    if es == [] {
      AloneBegin(su, b);
      assert Settled(Tally(0, 0, 0, 0, 0), EMPTY_BOOK, u) by { EmptySettled(u); }
    } else {
      var es', e := es[..|es| - 1], es[|es| - 1];
      var w := Play(su, es');
      RunSettled(su, es', symbol, u);
      RunInv(su, es');
      EventSettled(su, w, e, symbol, u, TallyOf(su, es', symbol, u));
    }
  }

  lemma EmptySettled(u: nat)
    ensures Settled(Tally(0, 0, 0, 0, 0), EMPTY_BOOK, u)
  {
  }

  lemma EventSettled(su: Setup, w: World, e: Event, symbol: u16, u: nat, t: Tally)
    requires Inv(su, w) && Legal(w, e) && su.LocalBook(symbol) != NO_BOOK && su.LocalBook(symbol) < |w.st.books|
    requires Settled(t, Labelled(w, su.LocalBook(symbol)), u)
    ensures var b, w' := su.LocalBook(symbol), Advance(su, w, e);
            && |w'.st.books| == |w.st.books|
            && Settled(if SymbolOf(e) == symbol then Tallied(su, w, e, b, u, t) else t, Labelled(w', b), u)
  {
    StateShape(su, w.st);
    if SymbolOf(e) != symbol {
      OtherBook(su, SymbolOf(e), symbol);
    }
    hide Settled, Tallied, Advance, Legal, Inv, Ok, Labelled;
    match e
    case Send(v, o) =>
      if o.symbol == symbol {
        OrderTallied(su, w, v, o, u, t);
      } else {
        OtherOrder(su, w, v, o, su.LocalBook(symbol));
      }
    case Cancel(_, s, _) =>
      if s == symbol {
        CancelTallied(su, w, e, u, t);
      } else {
        OtherCancel(su, w, e, su.LocalBook(symbol));
      }
  }

  /** The quantity a tally starts from is that of the one submission under its label. */
  lemma {:induction false} SentTallied(su: Setup, es: seq<Event>, symbol: u16, u: nat)
    requires su.Valid() && LegalRun(su, es) && su.LocalBook(symbol) != NO_BOOK
    ensures TallyOf(su, es, symbol, u).sent
         == if SentAt(es, u) >= 0 && SentBy(es, u).symbol == symbol then SentBy(es, u).qty else 0
  {
    hide Play, Inv, Ok, Legal, Tallied;
    if es != [] {
      var es', e := es[..|es| - 1], es[|es| - 1];
      var w := Play(su, es');
      SentTallied(su, es', symbol, u);
      LegalFresh(su, es', e);
      RunInv(su, es');
      assert Ok(su, w.st) by { InvShape(su, w); }
      StateShape(su, w.st);
      SentEntry(su, w, e, su.LocalBook(symbol), u, TallyOf(su, es', symbol, u));
    }
  }

  lemma SentEntry(su: Setup, w: World, e: Event, b: nat, u: nat, t: Tally)
    requires su.cfg.Valid() && b < |w.st.books|
    ensures Tallied(su, w, e, b, u, t).sent == t.sent + if e.Send? && e.uid == u then e.order.qty else 0
  {
    hide Submission, Labelled, Traded, Given, ReplyOf;
  }

  /** An event enters under a label only what it submits, and only to the orders that rest. */
  lemma FateEntry(su: Setup, w: World, e: Event, b: nat, u: nat, t: Tally)
    requires su.cfg.Valid() && b < |w.st.books|
    ensures var n := Tallied(su, w, e, b, u, t);
            if e.Send? && e.uid == u then
              n.taken == t.taken + TakenAt(su, w, e.order) && n.dropped == t.dropped + DroppedAt(su, w, e.order)
            else n.taken == t.taken && n.dropped == t.dropped
  {
    hide Submission, Labelled, Traded, Given, ReplyOf;
  }

  /** What an order trades when it arrives. */
  function TakenAt(su: Setup, w: World, o: NewOrder): nat
    requires su.cfg.Valid()
  {
    if Reaches(su, w.st, o) then Traded(Submission(su, w.st, o).fills) else 0
  }

  /** What of an order does not stay: all of one that reaches no book, what is left of an immediate-or-cancel one. */
  function DroppedAt(su: Setup, w: World, o: NewOrder): nat
    requires su.cfg.Valid()
  {
    if !Reaches(su, w.st, o) then o.qty else if o.tif == 1 then Submission(su, w.st, o).left else 0
  }

  /** What is taken and dropped under a label is settled when its order arrives. */
  lemma {:induction false} FateTallied(su: Setup, es: seq<Event>, symbol: u16, u: nat)
    requires su.Valid() && LegalRun(su, es) && su.LocalBook(symbol) != NO_BOOK
    ensures var t, k := TallyOf(su, es, symbol, u), SentAt(es, u);
            if k >= 0 && es[k].order.symbol == symbol then
              && t.taken == TakenAt(su, Play(su, es[..k]), es[k].order)
              && t.dropped == DroppedAt(su, Play(su, es[..k]), es[k].order)
            else t.taken == t.dropped == 0
  {
    hide Play, Inv, Ok, Legal, Tallied, TakenAt, DroppedAt;
    if es != [] {
      var es', e := es[..|es| - 1], es[|es| - 1];
      var w := Play(su, es');
      FateTallied(su, es', symbol, u);
      LegalFresh(su, es', e);
      RunInv(su, es');
      assert Ok(su, w.st) by { InvShape(su, w); }
      StateShape(su, w.st);
      FateEntry(su, w, e, su.LocalBook(symbol), u, TallyOf(su, es', symbol, u));
      var k := SentAt(es', u);
      assert k >= 0 ==> es'[..k] == es[..k] && es'[k] == es[k];
    }
  }

  /**
   * Over every run, for every order submitted for a hosted symbol: its quantity is what it took when it arrived, what
   * it gave while it rested, what still rests under its label, what was cancelled and what was dropped. Taken is what
   * it traded on arrival. Dropped is all of it when it found no level or no slot, what was left when its time-in-force
   * byte is 1, and else nothing.
   */
  lemma OrderAccounted(su: Setup, es: seq<Event>, k: nat)
    requires su.Valid() && LegalRun(su, es) && k < |es| && es[k].Send? && su.LocalBook(es[k].order.symbol) != NO_BOOK
    ensures var u, o := es[k].uid, es[k].order;
            var b, t := su.LocalBook(o.symbol), TallyOf(su, es, o.symbol, u);
            && b < |Play(su, es).st.books|
            && o.qty == t.taken + t.given + LeftIn(Labelled(Play(su, es), b), u) + t.cancelled + t.dropped
            && t.taken == TakenAt(su, Play(su, es[..k]), o)
            && var reaches := Reaches(su, Play(su, es[..k]).st, o);
               && (!reaches ==> t.dropped == o.qty) && (reaches && o.tif != 1 ==> t.dropped == 0)
               && (reaches && o.tif == 1 ==> t.dropped == o.qty - t.taken)
  {
    SentOnce(su, es, k);
    FateTallied(su, es, es[k].order.symbol, es[k].uid);
    LeftTraded(su, Play(su, es[..k]), es[k].order);
    RunSettled(su, es, es[k].order.symbol, es[k].uid);
    SentTallied(su, es, es[k].order.symbol, es[k].uid);
    hide Play, LegalRun, TallyOf, SentAt, Labelled, LeftIn, Submission, Traded;
  }

  lemma LeftTraded(su: Setup, w: World, o: NewOrder)
    requires su.cfg.Valid()
    ensures Reaches(su, w.st, o) ==> Traded(Submission(su, w.st, o).fills) + Submission(su, w.st, o).left == o.qty
  {
    if Reaches(su, w.st, o) {
      SubmitConserves(w.st.books[su.LocalBook(o.symbol)], Top(w.st), o, PriceToIdx(su.cfg, o.price), MAX_FILLS);
    }
    hide Submit, PriceToIdx;
  }
}
