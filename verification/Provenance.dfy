/**
 * Which submission every resting order and every fill comes from, over whole runs: time priority on each level, the
 * order in which fills are made, whom they are reported to and what limits they keep.
 */
module Provenance {
  import opened Types
  import opened PriceTime
  import opened Tokens
  import opened Matching
  import opened Engine
  import opened Effects
  import opened Renaming
  import opened Runs
  import opened Isolation

  // ---------- Labels and submissions ----------

  /** Where in the run the label was submitted, or -1. */
  function SentAt(es: seq<Event>, u: nat): (k: int)
    ensures -1 <= k < |es| && (k >= 0 ==> es[k].Send? && es[k].uid == u)
  {
    if es == [] then -1
    else if es[|es| - 1].Send? && es[|es| - 1].uid == u then |es| - 1
    else SentAt(es[..|es| - 1], u)
  }

  /** The order submitted under the label. */
  function SentBy(es: seq<Event>, u: nat): NewOrder
    requires SentAt(es, u) >= 0
  {
    es[SentAt(es, u)].order
  }

  /** The event does not submit a label already submitted. */
  ghost predicate Fresh(es: seq<Event>, e: Event) {
    e.Send? ==> SentAt(es, e.uid) == -1
  }

  lemma SentMore(es: seq<Event>, e: Event, u: nat)
    ensures SentAt(es + [e], u) == if e.Send? && e.uid == u then |es| else SentAt(es, u)
  {
    assert (es + [e])[..|es|] == es;
  }

  lemma AdvanceSent(su: Setup, w: World, e: Event)
    requires Inv(su, w) && Legal(w, e)
    ensures Advance(su, w, e).sent == if e.Send? then w.sent + {e.uid} else w.sent
  {
    if Placed(su, w.st, MessageOf(su, w, e)).Some? {
      TopInRange(su, w.st);
    }
    hide Step, Submission, Released;
  }

  lemma {:induction false} SentSet(su: Setup, es: seq<Event>, u: nat)
    requires su.Valid() && LegalRun(su, es)
    ensures u in Play(su, es).sent <==> SentAt(es, u) >= 0
  {
    if es != [] {
      var es', e := es[..|es| - 1], es[|es| - 1];
      SentSet(su, es', u);
      RunInv(su, es');
      AdvanceSent(su, Play(su, es'), e);
      hide Inv, Legal, Advance;
    }
  }

  lemma LegalFresh(su: Setup, es: seq<Event>, e: Event)
    requires su.Valid() && LegalRun(su, es) && Legal(Play(su, es), e)
    ensures Fresh(es, e)
  {
    if e.Send? {
      SentSet(su, es, e.uid);
    }
  }

  /** In a legal run every submission has a label of its own. */
  lemma {:induction false} SentOnce(su: Setup, es: seq<Event>, k: nat)
    requires su.Valid() && LegalRun(su, es) && k < |es| && es[k].Send?
    ensures SentAt(es, es[k].uid) == k
  {
    hide Play, Legal;
    var es', e := es[..|es| - 1], es[|es| - 1];
    if k < |es'| {
      assert es'[k] == es[k];
      SentOnce(su, es', k);
      LegalFresh(su, es', e);
    }
  }

  // ---------- What the queues record ----------

  /** The resting order is what is left of the order submitted under its label, on the side that order named. */
  ghost predicate Origin(es: seq<Event>, side: Side, r: Resting) {
    SentAt(es, r.name) >= 0 && LeftOf(SentBy(es, r.name), side, r)
  }

  predicate LeftOf(o: NewOrder, side: Side, r: Resting) {
    && r.id == o.id && r.price == o.price && r.symbol == o.symbol && r.session == o.session
    && SideOf(o.side) == side && 0 < r.qty <= o.qty
  }

  ghost function Known(es: seq<Event>, side: Side): Resting -> bool {
    (r: Resting) => Origin(es, side, r)
  }

  ghost predicate AllKnown(es: seq<Event>, b: Book) {
    All(b.bids, Known(es, Buy)) && All(b.asks, Known(es, Sell))
  }

  /** Orders on one level stand in the order of their submissions. */
  ghost predicate Timed(es: seq<Event>, list: seq<Resting>) {
    forall i, j :: 0 <= i < j < |list| && list[i].idx == list[j].idx ==>
      SentAt(es, list[i].name) < SentAt(es, list[j].name)
  }

  ghost predicate Recorded(es: seq<Event>, b: Book) {
    Proper(b) && AllKnown(es, b) && Timed(es, b.bids) && Timed(es, b.asks)
  }

  lemma ListLater(es: seq<Event>, e: Event, side: Side, list: seq<Resting>)
    requires Fresh(es, e) && All(list, Known(es, side)) && Timed(es, list)
    ensures All(list, Known(es + [e], side)) && Timed(es + [e], list)
  {
    forall k | 0 <= k < |list| ensures SentAt(es + [e], list[k].name) == SentAt(es, list[k].name) >= 0 {
      assert Known(es, side)(list[k]);
      SentMore(es, e, list[k].name);
    }
    forall k | 0 <= k < |list| ensures Known(es + [e], side)(list[k]) {
      assert Known(es, side)(list[k]);
      assert (es + [e])[SentAt(es, list[k].name)] == es[SentAt(es, list[k].name)];
    }
  }

  lemma Later(es: seq<Event>, e: Event, b: Book)
    requires Fresh(es, e) && Recorded(es, b)
    ensures Recorded(es + [e], b)
  {
    ListLater(es, e, Buy, b.bids);
    ListLater(es, e, Sell, b.asks);
  }

  lemma KnownLasts(es: seq<Event>, side: Side)
    ensures Lasting(Known(es, side))
  {
  }

  lemma InsertTimed(es: seq<Event>, side: Side, list: seq<Resting>, r: Resting)
    requires Timed(es, list) && Sorted(side, list)
    requires forall k :: 0 <= k < |list| ==> SentAt(es, list[k].name) < SentAt(es, r.name)
    ensures Timed(es, Insert(side, list, r))
  {
    var k := InsertSorted(side, list, r);
    var now := list[..k] + [r] + list[k..];
    hide SentAt;
    forall i, j | 0 <= i < j < |now| && now[i].idx == now[j].idx
      ensures SentAt(es, now[i].name) < SentAt(es, now[j].name)
    {
      var i', j' := if i < k then i else i - 1, if j < k then j else j - 1;
      assert i != k ==> now[i] == list[i'];
      assert j != k ==> now[j] == list[j'];
    }
  }

  lemma DeleteTimed(es: seq<Event>, list: seq<Resting>, name: nat)
    requires Timed(es, list)
    ensures Timed(es, Delete(list, name))
  {
    if name in Names(list) {
      var k := DeleteAt(list, name);
      var now := list[..k] + list[k + 1..];
      hide SentAt;
      assert forall i :: 0 <= i < |now| ==> now[i] == list[if i < k then i else i + 1];
    } else {
      DeleteAbsent(list, name);
    }
  }

  lemma MatchTimed(es: seq<Event>, side: Side, limit: nat, id: u64, qty: u32, opp: seq<Resting>, cap: nat)
    requires Timed(es, opp)
    ensures Timed(es, Match(side, limit, id, qty, opp, cap).rest)
  {
    MatchExecutes(side, limit, id, qty, opp, cap);
    var m := Match(side, limit, id, qty, opp, cap);
    hide Match, SentAt;
    var n := |m.freed|;
    assert forall k :: 0 <= k < |m.rest| ==> m.rest[k].name == opp[n + k].name && m.rest[k].idx == opp[n + k].idx;
  }

  lemma SubmitTimed(es: seq<Event>, b: Book, u: nat, o: NewOrder, idx: nat, cap: nat)
    requires Proper(b) && Timed(es, b.bids) && Timed(es, b.asks)
    requires forall k :: 0 <= k < |b.bids| ==> SentAt(es, b.bids[k].name) < SentAt(es, u)
    requires forall k :: 0 <= k < |b.asks| ==> SentAt(es, b.asks[k].name) < SentAt(es, u)
    ensures var r := Submit(b, u, o, idx, cap).book; Timed(es, r.bids) && Timed(es, r.asks)
  {
    hide Timed, SentAt;
    var side := SideOf(o.side);
    MatchTimed(es, side, idx, o.id, o.qty, b.On(Opposite(side)), cap);
    var m := Match(side, idx, o.id, o.qty, b.On(Opposite(side)), cap);
    hide Match;
    if m.left > 0 {
      InsertTimed(es, side, b.On(side), ToResting(u, o, idx, m.left));
    }
  }

  /** Every order of the book was submitted before the event. */
  lemma KnownEarlier(es: seq<Event>, e: Event, side: Side, list: seq<Resting>)
    requires All(list, Known(es, side)) && e.Send? && Fresh(es, e)
    ensures forall k :: 0 <= k < |list| ==> SentAt(es + [e], list[k].name) < SentAt(es + [e], e.uid)
  {
    forall k | 0 <= k < |list| ensures SentAt(es + [e], list[k].name) < SentAt(es + [e], e.uid) {
      assert Known(es, side)(list[k]);
      SentMore(es, e, list[k].name);
      SentMore(es, e, e.uid);
    }
  }

  lemma SubmitRecorded(cfg: Config, es: seq<Event>, b: Book, u: nat, o: NewOrder)
    requires cfg.Valid() && Recorded(es, b) && Fresh(es, Send(u, o)) && InLadder(cfg, o.price)
    ensures Recorded(es + [Send(u, o)], Submit(b, u, o, PriceToIdx(cfg, o.price), MAX_FILLS).book)
  {
    var e, idx := Send(u, o), PriceToIdx(cfg, o.price);
    var es' := es + [e];
    SubmitProper(b, u, o, idx, MAX_FILLS);
    KnownEarlier(es, e, Buy, b.bids);
    KnownEarlier(es, e, Sell, b.asks);
    Later(es, e, b);
    SubmitTimed(es', b, u, o, idx, MAX_FILLS);
    forall q: u32 | 0 < q <= o.qty ensures Known(es', SideOf(o.side))(ToResting(u, o, idx, q)) {
      SentMore(es, e, u);
    }
    KnownLasts(es', Buy);
    KnownLasts(es', Sell);
    hide Submit, PriceToIdx, Proper, Timed, Lasting;
    SubmitAll(b, u, o, idx, MAX_FILLS, Known(es', Buy), Known(es', Sell));
  }

  lemma WithdrawRecorded(es: seq<Event>, b: Book, u: nat)
    requires Recorded(es, b)
    ensures Recorded(es, Withdraw(b, u))
  {
    WithdrawProper(b, u);
    DeleteTimed(es, b.bids, u);
    DeleteTimed(es, b.asks, u);
    DeleteAll(b.bids, u, Known(es, Buy));
    DeleteAll(b.asks, u, Known(es, Sell));
  }

  lemma DealRecorded(cfg: Config, es: seq<Event>, b: Book, e: Event)
    requires cfg.Valid() && Recorded(es, b) && Fresh(es, e)
    ensures Recorded(es + [e], Deal(cfg, b, e).0)
  {
    hide Recorded, Fresh, Submit, Withdraw, PriceToIdx;
    Later(es, e, b);
    match e
    case Send(u, o) =>
      if InLadder(cfg, o.price) {
        SubmitRecorded(cfg, es, b, u, o);
      }
    case Cancel(u, _, _) => WithdrawRecorded(es + [e], b, u);
  }

  /** Without a free slot, or without a book, an order changes no queue. */
  lemma NoRoom(su: Setup, w: World, u: nat, o: NewOrder, b: nat)
    requires Inv(su, w) && !Reaches(su, w.st, o) && b < |w.st.books|
    ensures var w' := Advance(su, w, Send(u, o)); |w'.st.books| == |w.st.books| && Labelled(w', b) == Labelled(w, b)
  {
    StateShape(su, w.st);
    if su.LocalBook(o.symbol) < |w.st.books| {
      assert w.st.books[su.LocalBook(o.symbol) := w.st.books[su.LocalBook(o.symbol)]] == w.st.books;
    }
    hide Ok, Seated, Kept, RenamedBook;
  }

  lemma EventRecorded(su: Setup, w: World, es: seq<Event>, e: Event, b: nat)
    requires Inv(su, w) && Legal(w, e) && Fresh(es, e) && b < |w.st.books| && Recorded(es, Labelled(w, b))
    ensures |Advance(su, w, e).st.books| == |w.st.books| && Recorded(es + [e], Labelled(Advance(su, w, e), b))
  {
    Later(es, e, Labelled(w, b));
    StateShape(su, w.st);
    DealRecorded(su.cfg, es, Labelled(w, b), e);
    hide Recorded, Fresh, Advance, Inv, Legal, Deal, Ok, Labelled, ReplyOf;
    match e
    case Send(u, o) =>
      if !Reaches(su, w.st, o) {
        NoRoom(su, w, u, o, b);
      } else if su.LocalBook(o.symbol) == b {
        OwnOrder(su, w, u, o);
      } else {
        OtherOrder(su, w, u, o, b);
      }
    case Cancel(_, s, _) =>
      if su.LocalBook(s) == b {
        OwnCancel(su, w, e);
      } else {
        OtherCancel(su, w, e, b);
      }
  }

  lemma {:induction false} QueuesRecorded(su: Setup, es: seq<Event>, b: nat)
    requires su.Valid() && LegalRun(su, es) && b < su.books
    ensures b < |Play(su, es).st.books| && Recorded(es, Labelled(Play(su, es), b))
  {
    hide Recorded, Advance, Inv, Legal, Begin, Labelled, Fresh;
    if es == [] {
      AloneBegin(su, b);
      assert Recorded([], EMPTY_BOOK) by { EmptyRecorded(); }
    } else {
      var es', e := es[..|es| - 1], es[|es| - 1];
      QueuesRecorded(su, es', b);
      RunInv(su, es');
      LegalFresh(su, es', e);
      EventRecorded(su, Play(su, es'), es', e, b);
      assert es' + [e] == es;
    }
  }

  lemma EmptyRecorded()
    ensures Recorded([], EMPTY_BOOK)
  {
  }

  /**
   * Over every run, recycled slots or not: each resting order carries the id, price, symbol, session and side of the
   * one submission that has its label.
   */
  lemma QueuesKnown(su: Setup, es: seq<Event>, b: nat, side: Side, k: nat)
    requires su.Valid() && LegalRun(su, es) && b < su.books
    ensures b < |Play(su, es).st.books|
    ensures var list := Labelled(Play(su, es), b).On(side);
            k < |list| ==>
              && SentAt(es, list[k].name) >= 0 && LeftOf(SentBy(es, list[k].name), side, list[k])
              && forall j :: 0 <= j < |es| && es[j].Send? && es[j].uid == list[k].name ==> j == SentAt(es, list[k].name)
  {
    QueuesRecorded(su, es, b);
    var list := Labelled(Play(su, es), b).On(side);
    if k < |list| {
      assert Known(es, side)(list[k]);
      forall j | 0 <= j < |es| && es[j].Send? && es[j].uid == list[k].name ensures j == SentAt(es, list[k].name) {
        SentOnce(su, es, j);
      }
    }
  }

  /** Over every run, two orders on one level of a side stand in the order in which they were submitted. */
  lemma TimePriority(su: Setup, es: seq<Event>, b: nat, side: Side)
    requires su.Valid() && LegalRun(su, es) && b < su.books
    ensures b < |Play(su, es).st.books|
    ensures var list := Labelled(Play(su, es), b).On(side);
            forall i, j :: 0 <= i < j < |list| ==>
              || (if side == Buy then list[i].idx > list[j].idx else list[i].idx < list[j].idx)
              || (list[i].idx == list[j].idx && 0 <= SentAt(es, list[i].name) < SentAt(es, list[j].name))
  {
    QueuesRecorded(su, es, b);
    var list := Labelled(Play(su, es), b).On(side);
    hide Play, Labelled, SentAt;
    assert forall i :: 0 <= i < |list| ==> Known(es, side)(list[i]);
  }

  // ---------- Fills ----------

  /** The orders that a new order faces, best first, by label. */
  function Facing(su: Setup, w: World, o: NewOrder): seq<Resting>
    requires su.LocalBook(o.symbol) < |w.st.books|
  {
    Labelled(w, su.LocalBook(o.symbol)).On(Opposite(SideOf(o.side)))
  }

  /** The report of a trade of `o` with the order submitted under a label. */
  function TradeWith(es: seq<Event>, o: NewOrder, u: nat, qty: u32): Fill
    requires SentAt(es, u) >= 0
  {
    var s := SentBy(es, u);
    Fill(o.id, s.id, s.price, qty, s.session)
  }

  lemma SameSymbol(su: Setup, b: nat, s: u16, t: u16)
    requires su.Valid() && su.LocalBook(s) == b == su.LocalBook(t) && b != NO_BOOK
    ensures s == t
  {
  }

  /** A faced order is what is left of a submission for the same symbol and the opposite side. */
  lemma FacingKnown(su: Setup, es: seq<Event>, o: NewOrder, k: nat)
    requires su.Valid() && LegalRun(su, es) && Reaches(su, Play(su, es).st, o) && k < |Facing(su, Play(su, es), o)|
    ensures var r := Facing(su, Play(su, es), o)[k];
            && SentAt(es, r.name) >= 0 && LeftOf(SentBy(es, r.name), Opposite(SideOf(o.side)), r)
            && r.symbol == o.symbol && r.idx == PriceToIdx(su.cfg, r.price)
  {
    var w, b := Play(su, es), su.LocalBook(o.symbol);
    RunInv(su, es);
    StateShape(su, w.st);
    QueuesKnown(su, es, b, Opposite(SideOf(o.side)), k);
    var opp := w.st.books[b].On(Opposite(SideOf(o.side)));
    assert BookOk(su, w.st.symbols, b, w.st.books[b]);
    assert Sits(su, w.st.symbols, b)(opp[k]);
    SameSymbol(su, b, opp[k].symbol, o.symbol);
    hide PriceToIdx, Inv, Ok, Play, LegalRun, SentAt;
  }

  /** Fills and fate do not depend on names, so they are those of the book by label. */
  lemma FillsByLabel(su: Setup, w: World, o: NewOrder)
    requires Inv(su, w) && Reaches(su, w.st, o)
    ensures var b, idx := su.LocalBook(o.symbol), PriceToIdx(su.cfg, o.price);
            && Submission(su, w.st, o).fills
               == Submit(Labelled(w, b), At(w.occupant, Top(w.st)), o, idx, MAX_FILLS).fills
               == Match(SideOf(o.side), idx, o.id, o.qty, Facing(su, w, o), MAX_FILLS).fills
            && Submission(su, w.st, o).rests
               == Submit(Labelled(w, b), At(w.occupant, Top(w.st)), o, idx, MAX_FILLS).rests
            && Submission(su, w.st, o).left == Submit(Labelled(w, b), At(w.occupant, Top(w.st)), o, idx, MAX_FILLS).left
  {
    var b, idx := su.LocalBook(o.symbol), PriceToIdx(su.cfg, o.price);
    RenamedSubmit(w.st.books[b], Top(w.st), o, idx, MAX_FILLS, w.occupant);
    hide PriceToIdx, Match, Insert, RenamedBook, Inv;
  }

  /**
   * Every fill of every run: the k-th is with the k-th order faced, carries id, price and session of the submission
   * under that order's label, which was for the same symbol and the opposite side, and exhausts it unless it is the
   * last.
   */
  lemma FillsAddressed(su: Setup, es: seq<Event>, o: NewOrder)
    requires su.Valid() && LegalRun(su, es) && Reaches(su, Play(su, es).st, o)
    ensures var met, fills := Facing(su, Play(su, es), o), Submission(su, Play(su, es).st, o).fills;
            && |fills| <= |met|
            && forall k :: 0 <= k < |fills| ==>
                 && SentAt(es, met[k].name) >= 0 && fills[k] == TradeWith(es, o, met[k].name, fills[k].qty)
                 && SentBy(es, met[k].name).symbol == o.symbol
                 && SideOf(SentBy(es, met[k].name).side) == Opposite(SideOf(o.side))
                 && 0 < fills[k].qty <= met[k].qty && (k + 1 < |fills| ==> fills[k].qty == met[k].qty)
  {
    var w := Play(su, es);
    RunInv(su, es);
    FillsByLabel(su, w, o);
    var met, idx := Facing(su, w, o), PriceToIdx(su.cfg, o.price);
    MatchExecutes(SideOf(o.side), idx, o.id, o.qty, met, MAX_FILLS);
    var m := Match(SideOf(o.side), idx, o.id, o.qty, met, MAX_FILLS);
    hide Match, PriceToIdx, Inv, Play, LegalRun, Facing, Submission, SentAt;
    forall k | 0 <= k < |m.fills|
      ensures SentAt(es, met[k].name) >= 0 && LeftOf(SentBy(es, met[k].name), Opposite(SideOf(o.side)), met[k])
      ensures met[k].symbol == o.symbol
    {
      FacingKnown(su, es, o, k);
    }
  }

  /**
   * Over every run fills are made in price-time priority: from level to level away from the best, and by submission.
   */
  lemma FillsInOrder(su: Setup, es: seq<Event>, o: NewOrder)
    requires su.Valid() && LegalRun(su, es) && Reaches(su, Play(su, es).st, o)
    ensures var met, fills := Facing(su, Play(su, es), o), Submission(su, Play(su, es).st, o).fills;
            && |fills| <= |met|
            && forall i, j :: 0 <= i < j < |fills| ==>
                 || (if o.side == 0 then met[i].idx < met[j].idx else met[i].idx > met[j].idx)
                 || (met[i].idx == met[j].idx && SentAt(es, met[i].name) < SentAt(es, met[j].name))
  {
    FillsAddressed(su, es, o);
    RunInv(su, es);
    StateShape(su, Play(su, es).st);
    TimePriority(su, es, su.LocalBook(o.symbol), Opposite(SideOf(o.side)));
    hide Play, LegalRun, Inv, Submission, SentAt, Labelled;
  }

  /**
   * Over every run, which of the orders faced are traded with: at most 64, while they cross and quantity is left over.
   */
  lemma FillsCount(su: Setup, es: seq<Event>, o: NewOrder, k: nat)
    requires su.Valid() && LegalRun(su, es) && Reaches(su, Play(su, es).st, o)
    ensures k < |Submission(su, Play(su, es).st, o).fills|
       <==> Meets(SideOf(o.side), PriceToIdx(su.cfg, o.price), o.qty, Facing(su, Play(su, es), o), 64, k)
  {
    var w, b := Play(su, es), su.LocalBook(o.symbol);
    RunInv(su, es);
    StateShape(su, w.st);
    QueuesRecorded(su, es, b);
    FillsByLabel(su, w, o);
    MetWhen(SideOf(o.side), PriceToIdx(su.cfg, o.price), o.id, o.qty, Facing(su, w, o), MAX_FILLS, k);
    hide Play, LegalRun, Inv, Ok, PriceToIdx, Submission, Match;
  }

  /**
   * Over every run, an order that reaches its book rests exactly when its time-in-force byte is not 1 and the open
   * quantity of the orders it meets falls short of its own, and the difference is what is left of it.
   */
  lemma OrderRests(su: Setup, es: seq<Event>, o: NewOrder)
    requires su.Valid() && LegalRun(su, es) && Reaches(su, Play(su, es).st, o)
    ensures var r, faced := Submission(su, Play(su, es).st, o), Facing(su, Play(su, es), o);
            var met := Open(faced[..MetCount(SideOf(o.side), PriceToIdx(su.cfg, o.price), o.qty, faced, 64, 0)]);
            && (r.rests <==> o.tif != 1 && met < o.qty)
            && r.left == if met < o.qty then o.qty - met else 0
  {
    var w, b := Play(su, es), su.LocalBook(o.symbol);
    RunInv(su, es);
    StateShape(su, w.st);
    QueuesRecorded(su, es, b);
    FillsByLabel(su, w, o);
    var _ := SubmitRests(Labelled(w, b), At(w.occupant, Top(w.st)), o, PriceToIdx(su.cfg, o.price), MAX_FILLS);
    hide Play, LegalRun, Inv, Ok, PriceToIdx, Submission, Submit, Match, MetCount, Open, Labelled;
  }

  // ---------- Reports ----------

  /** The fills of an order, told by the submissions it traded with. */
  ghost function Trades(su: Setup, es: seq<Event>, o: NewOrder): (r: seq<Fill>)
    requires su.Valid() && LegalRun(su, es) && Reaches(su, Play(su, es).st, o)
    ensures r == Submission(su, Play(su, es).st, o).fills
  {
    FillsAddressed(su, es, o);
    var met, fills := Facing(su, Play(su, es), o), Submission(su, Play(su, es).st, o).fills;
    seq(|fills|, k requires 0 <= k < |fills| => TradeWith(es, o, met[k].name, fills[k].qty))
  }

  /**
   * What a session is told of an event after the run `es`: of every trade of its own order, and of the trades that
   * another session's order makes with orders it submitted.
   */
  ghost function ToldOf(su: Setup, es: seq<Event>, e: Event, session: u32): seq<Fill>
    requires su.Valid() && LegalRun(su, es)
  {
    if e.Send? && Reaches(su, Play(su, es).st, e.order) then
      if session == e.order.session then Readdressed(Trades(su, es, e.order), session)
      else OwnedBy(Trades(su, es, e.order), session)
    else []
  }

  ghost function Told(su: Setup, es: seq<Event>, session: u32): seq<Fill>
    requires su.Valid() && LegalRun(su, es)
  {
    if es == [] then [] else Told(su, es[..|es| - 1], session) + ToldOf(su, es[..|es| - 1], es[|es| - 1], session)
  }

  lemma EventTold(su: Setup, es: seq<Event>, e: Event, session: u32)
    requires su.Valid() && LegalRun(su, es) && Legal(Play(su, es), e)
    ensures var w := Play(su, es); Inbox(Step(su, w.st, MessageOf(su, w, e)).out, session) == ToldOf(su, es, e, session)
  {
    var w := Play(su, es);
    RunInv(su, es);
    StateShape(su, w.st);
    if su.LocalBook(SymbolOf(e)) != NO_BOOK {
      EmitsReply(su, w, e);
      WireTold(su, Advance(su, w, e), e, ReplyOf(su, w, e), session);
    } else if e.Send? {
      InboxOne(RejectMsg(e.order.id, UnknownSymbol, e.order.session), session);
    } else {
      CancelFinds(su, w, e.uid, e.symbol, e.session);
      InboxOne(RejectMsg(0, UnknownOrder, e.session), session);
    }
    if e.Send? && Reaches(su, w.st, e.order) {
      ReportsReach(Trades(su, es, e.order), e.order.session, session);
    }
    hide Play, LegalRun, Inv, Submission, Step, Reports, Trades, Inbox;
  }

  lemma WireTold(su: Setup, w': World, e: Event, r: Reply, session: u32)
    requires e.Send? ==> r.Done? && (r.rests ==> e.uid in w'.issued)
    requires e.Cancel? ==> r.Answer? && e.uid in w'.issued
    ensures Inbox(Wire(su, w', e, r), session)
         == if e.Send? then Inbox(Reports(r.fills, e.order.session), session) else []
  {
    hide ToToken, Inbox, Reports;
    match e
    case Send(u, o) =>
      if r.rests {
        var ack := AckMsg(o.id, ToToken(HandleOf(w'.issued[u]), su.id), o.session);
        InboxOne(ack, session);
        InboxConcat(Reports(r.fills, o.session), [ack], session);
      } else {
        assert Reports(r.fills, o.session) + [] == Reports(r.fills, o.session);
      }
    case Cancel(u, _, s) =>
      InboxOne(AckMsg(0, ToToken(HandleOf(w'.issued[u]), su.id), s), session);
      InboxOne(RejectMsg(0, UnknownOrder, s), session);
  }

  /** Over every run, what a session receives is what it is owed: no report misdirected, missing or made twice. */
  lemma {:induction false} SessionsTold(su: Setup, es: seq<Event>, session: u32)
    requires su.Valid() && LegalRun(su, es)
    ensures Inbox(Feed(su, Init(su), Messages(su, es)).out, session) == Told(su, es, session)
  {
    if es != [] {
      var es', e := es[..|es| - 1], es[|es| - 1];
      var w, ms := Play(su, es'), Messages(su, es');
      var m := MessageOf(su, w, e);
      SessionsTold(su, es', session);
      RunIsFeed(su, es');
      EventTold(su, es', e, session);
      assert (ms + [m])[..|ms|] == ms;
      InboxConcat(Feed(su, Init(su), ms).out, Step(su, w.st, m).out, session);
      hide Play, Step, MessageOf, ToldOf, Inbox, Init, Legal;
    }
  }

  // ---------- Limits ----------

  /** Over every run, the fills of an order are within its limit exactly when the submissions it meets are. */
  lemma LimitsWhen(su: Setup, es: seq<Event>, o: NewOrder)
    requires su.Valid() && LegalRun(su, es) && Reaches(su, Play(su, es).st, o)
    ensures var side, met := SideOf(o.side), Facing(su, Play(su, es), o);
            (forall f :: f in Submission(su, Play(su, es).st, o).fills ==> Within(side, f.price, o.price))
            <==>
            forall k: nat :: Meets(side, PriceToIdx(su.cfg, o.price), o.qty, met, MAX_FILLS, k) ==>
              && SentAt(es, met[k].name) >= 0
              && var p := SentBy(es, met[k].name).price;
                 if side == Buy then NoHigher(su.cfg, p, o.price) else NoHigher(su.cfg, o.price, p)
  {
    var w, b := Play(su, es), su.LocalBook(o.symbol);
    RunInv(su, es);
    StateShape(su, w.st);
    QueuesRecorded(su, es, b);
    FillsByLabel(su, w, o);
    FillsWithinWhen(su.cfg, Labelled(w, b), At(w.occupant, Top(w.st)), o, MAX_FILLS);
    var met := Facing(su, w, o);
    hide Play, LegalRun, Inv, Ok, PriceToIdx, Submit, Labelled, NoHigher, SentAt, Recorded, Within;
    forall k: nat | k < |met| ensures SentAt(es, met[k].name) >= 0 && SentBy(es, met[k].name).price == met[k].price {
      FacingKnown(su, es, o, k);
    }
  }

  /** Over every run of orders priced on the grid, no fill is worse than its aggressor's limit. */
  lemma LimitsRespected(su: Setup, es: seq<Event>, o: NewOrder)
    requires su.Valid() && LegalRun(su, es) && Reaches(su, Play(su, es).st, o) && OnGrid(su.cfg, o.price)
    requires forall k :: 0 <= k < |es| && es[k].Send? ==> OnGrid(su.cfg, es[k].order.price)
    ensures forall f :: f in Submission(su, Play(su, es).st, o).fills ==> Within(SideOf(o.side), f.price, o.price)
  {
    var w, b := Play(su, es), su.LocalBook(o.symbol);
    RunInv(su, es);
    StateShape(su, w.st);
    QueuesRecorded(su, es, b);
    FillsByLabel(su, w, o);
    var met := Facing(su, w, o);
    hide Play, LegalRun, Inv, Ok, PriceToIdx, Submit, Labelled, OnGrid, SentAt;
    forall k | 0 <= k < |met| ensures OnGrid(su.cfg, met[k].price) && met[k].idx == PriceToIdx(su.cfg, met[k].price) {
      FacingKnown(su, es, o, k);
    }
    FillsWithinLimit(su.cfg, Labelled(w, b), At(w.occupant, Top(w.st)), o, MAX_FILLS);
  }
}
