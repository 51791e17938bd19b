/**
 * Whole runs of a shard. Clients label the orders they submit, cancel by the token an Ack carried, and nothing else
 * is assumed of them: labels and tokens are followed through every recycling of the slots.
 */
module Runs {
  import opened Types
  import opened PriceTime
  import opened Holdings
  import opened Tokens
  import opened Matching
  import opened Engine
  import opened Effects

  /** A submission under a label, or a cancel of a labelled order by the token its Ack carried. */
  datatype Event = Send(uid: nat, order: NewOrder) | Cancel(uid: nat, symbol: u16, session: u32)

  /** The slot an acknowledged order was put in, how often the slot had been recycled, and the order's symbol. */
  datatype Issue = Issue(slot: nat, age: nat, symbol: u16)

  /** The shard, how often each slot was recycled, the label last put in each slot, tokens issued and labels used. */
  datatype World = World(st: State, age: seq<nat>, occupant: seq<nat>, issued: map<nat, Issue>, sent: set<nat>)

  function Begin(su: Setup): World {
    World(Init(su), seq(su.cfg.slots, _ => 0), seq(su.cfg.slots, _ => 0), map[], {})
  }

  /** The handle named by the Ack of order `uid`: the generation is the recycle count modulo 2^32. */
  function HandleOf(i: Issue): Handle {
    Handle(i.slot, i.age % TWO32)
  }

  function MessageOf(su: Setup, w: World, e: Event): InMsg {
    match e
    case Send(_, o) => NewMsg(o)
    case Cancel(u, _, session) =>
      if u in w.issued then CancelMsg(ToToken(HandleOf(w.issued[u]), su.id), session) else OtherMsg
  }

  function Aged(age: seq<nat>, rel: seq<nat>): (r: seq<nat>)
    ensures |r| == |age| && forall x :: 0 <= x < |age| ==> r[x] == age[x] + multiset(rel)[x]
  {
    seq(|age|, x requires 0 <= x < |age| => age[x] + multiset(rel)[x])
  }

  function Advance(su: Setup, w: World, e: Event): World
    requires su.cfg.Valid()
  {
    var m := MessageOf(su, w, e);
    var st := Step(su, w.st, m).state;
    var age := Aged(w.age, Released(su, w.st, m));
    var sent := if e.Send? then w.sent + {e.uid} else w.sent;
    match Placed(su, w.st, m)
    case None => World(st, age, w.occupant, w.issued, sent)
    case Some(x) =>
      if x < |w.occupant| && x < |age| then
        World(st, age, w.occupant[x := e.uid], w.issued[e.uid := Issue(x, age[x], m.order.symbol)], sent)
      else w
  }

  function Play(su: Setup, es: seq<Event>): World
    requires su.cfg.Valid()
  {
    if es == [] then Begin(su) else Advance(su, Play(su, es[..|es| - 1]), es[|es| - 1])
  }

  /**
   * Each submission has a label of its own. A cancelled token was issued, for a slot that fits its 24 bits, fewer than
   * 2^32 recycles of the slot ago.
   */
  ghost predicate Legal(w: World, e: Event) {
    match e
    case Send(u, _) => u !in w.sent
    case Cancel(u, symbol, _) =>
      && u in w.issued && w.issued[u].symbol == symbol && w.issued[u].slot < TWO24
      && (w.issued[u].slot < |w.age| ==> w.age[w.issued[u].slot] < w.issued[u].age + TWO32)
  }

  ghost predicate LegalRun(su: Setup, es: seq<Event>)
    requires su.cfg.Valid()
  {
    es == [] || (LegalRun(su, es[..|es| - 1]) && Legal(Play(su, es[..|es| - 1]), es[|es| - 1]))
  }

  // ---------- The invariant ----------

  /** A queued slot is occupied by the order last put there, whose token is still the slot's. */
  ghost predicate Seated(su: Setup, w: World, b: nat, x: nat) {
    && x < |w.occupant| && x < |w.age| && w.occupant[x] in w.issued
    && var i := w.issued[w.occupant[x]];
       i.slot == x && i.age == w.age[x] && su.LocalBook(i.symbol) == b
  }

  /** An issued token is never ahead of its slot, and is level with it only while its order rests there. */
  ghost predicate Kept(w: World, u: nat)
    requires u in w.issued
  {
    var i := w.issued[u];
    && u in w.sent
    && i.slot < |w.age| == |w.occupant| && i.age <= w.age[i.slot]
    && (i.age == w.age[i.slot] ==> Held(w.st, i.slot) && w.occupant[i.slot] == u)
  }

  ghost predicate Inv(su: Setup, w: World) {
    && Ok(su, w.st) && |w.age| == |w.occupant| == su.cfg.slots
    && (forall x :: 0 <= x < |w.age| ==> w.st.arena.gen[x] == w.age[x] % TWO32)
    && (forall b, x: nat :: 0 <= b < |w.st.books| && Holds(w.st.books[b], x) ==> Seated(su, w, b, x))
    && (forall u :: u in w.issued ==> Kept(w, u))
  }

  lemma BeginInv(su: Setup)
    requires su.Valid()
    ensures Inv(su, Begin(su))
  {
    InitOk(su);
  }

  lemma SameResidue(a: nat, b: nat)
    requires a <= b
    ensures a % TWO32 == b % TWO32 <==> (b - a) % TWO32 == 0
    ensures b < a + TWO32 ==> (a % TWO32 == b % TWO32 <==> a == b)
  {
  }

  /**
   * An issued token gives back its handle exactly when the slot fits in 24 bits. The handle passes the generation test
   * exactly when its slot was recycled a multiple of 2^32 times since.
   */
  lemma TokenCurrent(su: Setup, w: World, u: nat)
    requires Inv(su, w) && u in w.issued
    ensures var i := w.issued[u];
            && (FromToken(ToToken(HandleOf(i), su.id)) == HandleOf(i) <==> i.slot < TWO24)
            && i.slot < |w.age| && i.age <= w.age[i.slot]
            && (Current(w.st.arena, HandleOf(i)) <==> (w.age[i.slot] - i.age) % TWO32 == 0)
  {
    var i := w.issued[u];
    assert Kept(w, u);
    RoundTrip(HandleOf(i), su.id);
    SameResidue(i.age, w.age[i.slot]);
  }

  /** A legal cancel passes the test exactly when its order still rests, and is then in the book of its symbol. */
  lemma CancelFinds(su: Setup, w: World, u: nat, symbol: u16, session: u32)
    requires Inv(su, w) && Legal(w, Cancel(u, symbol, session))
    ensures var i := w.issued[u];
            var t := ToToken(HandleOf(i), su.id);
            && i.slot < |w.occupant| && i.slot < |w.age|
            && TokenOk(su, w.st, t) && FromToken(t) == HandleOf(i)
            && (Current(w.st.arena, HandleOf(i)) <==> i.age == w.age[i.slot])
            && (Accepts(su, w.st, t) <==> Current(w.st.arena, HandleOf(i)))
            && (Current(w.st.arena, HandleOf(i)) ==>
                  && su.LocalBook(symbol) == BookOf(su, w.st, i.slot) < |w.st.books|
                  && Holds(w.st.books[su.LocalBook(symbol)], i.slot) && w.occupant[i.slot] == u)
  {
    var i := w.issued[u];
    TokenCurrent(su, w, u);
    assert Kept(w, u);
    SameResidue(i.age, w.age[i.slot]);
    if Current(w.st.arena, HandleOf(i)) {
      var b :| 0 <= b < |w.st.books| && Holds(w.st.books[b], i.slot);
      assert Seated(su, w, b, i.slot);
      SymbolLeads(su, w.st, b, i.slot);
    }
  }

  lemma LegalMsgOk(su: Setup, w: World, e: Event)
    requires Inv(su, w) && Legal(w, e)
    ensures MsgOk(su, w.st, MessageOf(su, w, e))
  {
    if e.Cancel? {
      CancelFinds(su, w, e.uid, e.symbol, e.session);
    }
  }

  // ---------- Every event keeps the invariant ----------

  /** What the invariant needs to know of a step. */
  lemma StepFacts(su: Setup, w: World, e: Event)
    requires Inv(su, w) && Legal(w, e)
    ensures var m := MessageOf(su, w, e);
            var st, rel := Step(su, w.st, m).state, Released(su, w.st, m);
            && Ok(su, st) && Moves(w.st, st, rel, Placed(su, w.st, m))
            && (forall b, x: nat :: 0 <= b < |st.books| && Holds(st.books[b], x) ==> x < su.cfg.slots)
            && (forall b, x: nat :: 0 <= b < |st.books| && Holds(st.books[b], x) ==> x !in rel)
            && (Placed(su, w.st, m).Some? ==>
                  e.Send? && m == NewMsg(e.order) && su.LocalBook(e.order.symbol) < |st.books|
                  && Holds(st.books[su.LocalBook(e.order.symbol)], Placed(su, w.st, m).value))
  {
    hide Released, Placed, Step, Holds, Ok, Legal, Seated, Kept, MsgOk;
    StateShape(su, w.st);
    var m := MessageOf(su, w, e);
    LegalMsgOk(su, w, e);
    StepOk(su, w.st, m);
    StepMoves(su, w.st, m);
    HeldNotReleased(su, Step(su, w.st, m).state, w.st.arena, Released(su, w.st, m));
    if Placed(su, w.st, m).Some? {
      PlacedHeld(su, w.st, m);
    }
  }

  lemma AgedGens(su: Setup, w: World, a: Arena, rel: seq<nat>)
    requires |w.age| == |w.st.arena.gen| && ArenaMoves(w.st.arena, a, rel)
    requires forall x :: 0 <= x < |w.age| ==> w.st.arena.gen[x] == w.age[x] % TWO32
    ensures forall x :: 0 <= x < |w.age| ==> a.gen[x] == Aged(w.age, rel)[x] % TWO32
  {
    forall x | 0 <= x < |w.age| ensures a.gen[x] == Aged(w.age, rel)[x] % TWO32 {
      ModAdd(w.age[x], multiset(rel)[x]);
    }
  }

  lemma ModAdd(g: nat, k: nat)
    ensures (g % TWO32 + k) % TWO32 == (g + k) % TWO32
  {
  }

  lemma IssuedSent(su: Setup, w: World)
    requires Inv(su, w)
    ensures forall u :: u in w.issued ==> u in w.sent
  {
    forall u | u in w.issued ensures u in w.sent {
      assert Kept(w, u);
    }
  }

  lemma SeatedAfter(su: Setup, w: World, e: Event, b: nat, x: nat)
    requires Inv(su, w) && Legal(w, e) && b < |Advance(su, w, e).st.books| && Holds(Advance(su, w, e).st.books[b], x)
    ensures Seated(su, Advance(su, w, e), b, x)
  {
    hide Released, Placed, Step, Holds, Ok, MessageOf, Kept;
    IssuedSent(su, w);
    StateShape(su, w.st);
    StepFacts(su, w, e);
    var m := MessageOf(su, w, e);
    var placed := Placed(su, w.st, m);
    var st := Step(su, w.st, m).state;
    if placed == Some(x) {
      BooksApart(su, st, b, su.LocalBook(e.order.symbol), x);
    } else {
      assert Holds(w.st.books[b], x);
      assert Seated(su, w, b, x);
      BooksApart(su, w.st, b, b, x);
    }
  }

  lemma KeptAfter(su: Setup, w: World, e: Event, u: nat)
    requires Inv(su, w) && Legal(w, e) && u in Advance(su, w, e).issued
    ensures Kept(Advance(su, w, e), u)
  {
    hide Released, Placed, Step, Holds, Ok, MessageOf, Seated;
    StateShape(su, w.st);
    StepFacts(su, w, e);
    var m := MessageOf(su, w, e);
    var placed := Placed(su, w.st, m);
    var st, rel := Step(su, w.st, m).state, Released(su, w.st, m);
    if placed.None? || u != e.uid {
      assert Kept(w, u);
      var i := w.issued[u];
      if i.age == Aged(w.age, rel)[i.slot] {
        assert i.slot !in multiset(rel);
        Somewhere(su, w.st, i.slot);
        Somewhere(su, st, i.slot);
      }
    }
  }

  lemma AdvanceInv(su: Setup, w: World, e: Event)
    requires Inv(su, w) && Legal(w, e)
    ensures Inv(su, Advance(su, w, e))
  {
    var w' := Advance(su, w, e);
    var m := MessageOf(su, w, e);
    StepFacts(su, w, e);
    var st, rel := Step(su, w.st, m).state, Released(su, w.st, m);
    AgedGens(su, w, st.arena, rel);
    forall b, x: nat | 0 <= b < |w'.st.books| && Holds(w'.st.books[b], x) ensures Seated(su, w', b, x) {
      SeatedAfter(su, w, e, b, x);
    }
    forall u | u in w'.issued ensures Kept(w', u) {
      KeptAfter(su, w, e, u);
    }
    hide Released, Placed, Step, Holds, Ok, MessageOf;
  }

  /** After every legal run each slot is in exactly one place and every token is accounted for. */
  lemma {:induction false} RunInv(su: Setup, es: seq<Event>)
    requires su.Valid() && LegalRun(su, es)
    ensures Inv(su, Play(su, es))
  {
    if es == [] {
      BeginInv(su);
    } else {
      RunInv(su, es[..|es| - 1]);
      AdvanceInv(su, Play(su, es[..|es| - 1]), es[|es| - 1]);
    }
  }

  // ---------- Runs as message sequences ----------

  /** The messages a run puts on the inbound ring. */
  function Messages(su: Setup, es: seq<Event>): (ms: seq<InMsg>)
    requires su.cfg.Valid()
    ensures |ms| == |es|
  {
    if es == [] then []
    else Messages(su, es[..|es| - 1]) + [MessageOf(su, Play(su, es[..|es| - 1]), es[|es| - 1])]
  }

  /** An event takes the shard to the next state of its message. */
  lemma StepTaken(su: Setup, w: World, e: Event)
    requires Inv(su, w) && Legal(w, e)
    ensures Advance(su, w, e).st == Step(su, w.st, MessageOf(su, w, e)).state
  {
    var m := MessageOf(su, w, e);
    if Placed(su, w.st, m).Some? {
      TopInRange(su, w.st);
    }
    hide Step, Submission;
  }

  lemma TopInRange(su: Setup, st: State)
    requires Ok(su, st) && st.arena.free != []
    ensures Top(st) < su.cfg.slots
  {
    EverythingOnce(su.cfg.slots);
    assert Top(st) in multiset(st.arena.free);
    assert AllSlots(st)[Top(st)] > 0;
  }

  /** A fresh shard fed with the messages of a legal run goes through the states of the run, every cancel being safe. */
  lemma {:induction false} RunIsFeed(su: Setup, es: seq<Event>)
    requires su.Valid() && LegalRun(su, es)
    ensures Feed(su, Init(su), Messages(su, es)).state == Play(su, es).st && Safe(su, Init(su), Messages(su, es))
  {
    if es != [] {
      var es', e := es[..|es| - 1], es[|es| - 1];
      var w, ms := Play(su, es'), Messages(su, es');
      RunIsFeed(su, es');
      RunInv(su, es');
      StepTaken(su, w, e);
      LegalMsgOk(su, w, e);
      SafeMore(su, ms, MessageOf(su, w, e));
      assert (ms + [MessageOf(su, w, e)])[..|ms|] == ms;
      hide Step, MsgOk, Inv, Legal, MessageOf, Advance, Safe;
    }
  }

  lemma SafeMore(su: Setup, ms: seq<InMsg>, m: InMsg)
    requires su.cfg.Valid() && Safe(su, Init(su), ms) && MsgOk(su, Feed(su, Init(su), ms).state, m)
    ensures Safe(su, Init(su), ms + [m])
  {
    hide MsgOk, Feed, Init;
    var all := ms + [m];
    forall k | 0 <= k < |all| ensures MsgOk(su, Feed(su, Init(su), all[..k]).state, all[k]) {
      if k < |ms| {
        assert all[..k] == ms[..k] && all[k] == ms[k];
      } else {
        assert all[..k] == ms;
      }
    }
  }
}
