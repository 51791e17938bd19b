/**
 * The reference order book: each side is one sequence of resting orders in price-time
 * priority, and matching consumes a prefix of the opposite sequence. Orders are known by a
 * name, which is the arena slot when a shard is described and a label of the submitter's
 * choosing when a symbol is described on its own.
 */
module PriceTime {
  import opened Types

  datatype Resting = Resting(name: nat, id: u64, price: i64, idx: nat, qty: u32, symbol: u16, session: u32)

  datatype Book = Book(bids: seq<Resting>, asks: seq<Resting>) {
    function On(side: Side): seq<Resting> {
      if side == Buy then bids else asks
    }

    function With(side: Side, list: seq<Resting>): Book {
      if side == Buy then Book(list, asks) else Book(bids, list)
    }
  }

  const EMPTY_BOOK: Book := Book([], [])

  // ---------- Prices and levels ----------

  /** What a shard's books are built with. */
  datatype Config = Config(base: i64, tick: i64, ladder: u32, slots: u32) {
    ghost predicate Valid() {
      tick != 0
    }
  }

  /** Division of the host language: it truncates toward zero. */
  function TruncDiv(a: int, b: int): int
    requires b != 0
  {
    var q := (if a < 0 then -a else a) / (if b < 0 then -b else b);
    if (a < 0) == (b < 0) then q else -q
  }

  /** Conversion to int32: the value modulo 2^32, read as two's complement. */
  function Narrow32(x: int): int {
    var m := x % TWO32;
    if m < 0x8000_0000 then m else m - TWO32
  }

  function PriceToIdx(cfg: Config, price: int): int
    requires cfg.Valid()
  {
    Narrow32(TruncDiv(price - cfg.base, cfg.tick))
  }

  predicate InLadder(cfg: Config, price: int)
    requires cfg.Valid()
  {
    0 <= PriceToIdx(cfg, price) < cfg.ladder
  }

  // ---------- Priority ----------

  /** Among resting orders of `side`, level `i` trades strictly before level `j`. */
  predicate Better(side: Side, i: nat, j: nat) {
    if side == Buy then i > j else i < j
  }

  /** An aggressor of `side` limited to level `limit` may trade at level `idx`. */
  predicate Crosses(side: Side, limit: nat, idx: nat) {
    if side == Buy then idx <= limit else idx >= limit
  }

  /** No order stands behind one of a strictly worse level. */
  ghost predicate Sorted(side: Side, list: seq<Resting>) {
    forall i, j :: 0 <= i < j < |list| ==> !Better(side, list[j].idx, list[i].idx)
  }

  function Names(list: seq<Resting>): (r: seq<nat>)
    ensures |r| == |list|
    ensures forall i :: 0 <= i < |r| ==> r[i] == list[i].name
  {
    seq(|list|, i requires 0 <= i < |list| => list[i].name)
  }

  // ---------- Matching ----------

  function Min(a: u32, b: u32): u32 {
    if a < b then a else b
  }

  function Report(aggressorId: u64, r: Resting, qty: u32): Fill {
    Fill(aggressorId, r.id, r.price, qty, r.session)
  }

  /** What is left of the opposite side and of the aggressor, the fills made, the names exhausted. */
  datatype Matched = Matched(rest: seq<Resting>, left: u32, fills: seq<Fill>, freed: seq<nat>)

  predicate Stopped(side: Side, limit: nat, qty: u32, opp: seq<Resting>, cap: nat) {
    qty == 0 || opp == [] || !Crosses(side, limit, opp[0].idx) || cap == 0
  }

  /** Trades `qty` against the front of `opp`, in order, with at most `cap` fills. */
  function Match(side: Side, limit: nat, id: u64, qty: u32, opp: seq<Resting>, cap: nat): (m: Matched)
    ensures m.left <= qty
    decreases |opp|
  {
    if Stopped(side, limit, qty, opp, cap) then
      Matched(opp, qty, [], [])
    else if qty < opp[0].qty then
      Matched([opp[0].(qty := opp[0].qty - qty)] + opp[1..], 0, [Report(id, opp[0], qty)], [])
    else
      var m := Match(side, limit, id, qty - opp[0].qty, opp[1..], cap - 1);
      m.(fills := [Report(id, opp[0], opp[0].qty)] + m.fills, freed := [opp[0].name] + m.freed)
  }

  /** Places `r` behind every order of its level or better. */
  function Insert(side: Side, list: seq<Resting>, r: Resting): seq<Resting> {
    if list == [] then [r]
    else if Better(side, r.idx, list[0].idx) then [r] + list
    else [list[0]] + Insert(side, list[1..], r)
  }

  /** Removes the order called `name`. */
  function Delete(list: seq<Resting>, name: nat): seq<Resting> {
    if list == [] then []
    else if list[0].name == name then list[1..]
    else [list[0]] + Delete(list[1..], name)
  }

  /** A new order's effect on a book. */
  datatype Submitted = Submitted(book: Book, fills: seq<Fill>, left: u32, rests: bool, freed: seq<nat>)

  function ToResting(name: nat, o: NewOrder, idx: nat, qty: u32): Resting {
    Resting(name, o.id, o.price, idx, qty, o.symbol, o.session)
  }

  /** Matches the order, then rests what is left unless it is immediate-or-cancel. */
  function Submit(b: Book, name: nat, o: NewOrder, idx: nat, cap: nat): Submitted {
    var side := SideOf(o.side);
    var m := Match(side, idx, o.id, o.qty, b.On(Opposite(side)), cap);
    var b1 := b.With(Opposite(side), m.rest);
    var rests := m.left > 0 && o.tif != TIF_IOC;
    var b2 := if rests then b1.With(side, Insert(side, b1.On(side), ToResting(name, o, idx, m.left))) else b1;
    Submitted(b2, m.fills, m.left, rests, m.freed)
  }

  /** Removes the order called `name` from whichever side holds it. */
  function Withdraw(b: Book, name: nat): Book {
    Book(Delete(b.bids, name), Delete(b.asks, name))
  }

  predicate Holds(b: Book, name: nat) {
    name in Names(b.bids) || name in Names(b.asks)
  }

  // ---------- The arena ----------

  /** Free slots, last freed last, and the generation of every slot. */
  datatype Arena = Arena(free: seq<nat>, gen: seq<u32>)

  /** All slots free, all generations zero. */
  function FreshArena(n: nat): Arena {
    Arena(seq(n, i => i), seq(n, _ => 0))
  }

  function Release(a: Arena, s: nat): (r: Arena)
    ensures |r.gen| == |a.gen|
  {
    Arena(a.free + [s], if s < |a.gen| then a.gen[s := (a.gen[s] + 1) % TWO32] else a.gen)
  }

  function ReleaseAll(a: Arena, names: seq<nat>): (r: Arena)
    ensures |r.gen| == |a.gen|
    decreases |names|
  {
    if names == [] then a else ReleaseAll(Release(a, names[0]), names[1..])
  }

  function GenOf(a: Arena, s: nat): u32 {
    if s < |a.gen| then a.gen[s] else 0
  }

  /** A book and its arena after a new order, the fills made, and the handle if the order rests. */
  datatype Added = Added(arena: Arena, book: Book, fills: seq<Fill>, handle: Option<Handle>)

  /** Off the ladder or without a free slot the order is dropped; else it is matched under the slot taken. */
  function AddOrder(cfg: Config, a: Arena, b: Book, o: NewOrder, cap: nat): Added
    requires cfg.Valid()
  {
    if !InLadder(cfg, o.price) || a.free == [] then
      Added(a, b, [], None)
    else
      var slot := a.free[|a.free| - 1];
      var r := Submit(b, slot, o, PriceToIdx(cfg, o.price), cap);
      var a1 := ReleaseAll(a.(free := a.free[..|a.free| - 1]), r.freed);
      if r.rests then Added(a1, r.book, r.fills, Some(Handle(slot, GenOf(a1, slot))))
      else Added(Release(a1, slot), r.book, r.fills, None)
  }

  /** A book and its arena after a cancel, and whether the cancel was accepted. */
  datatype Cancelled = Cancelled(arena: Arena, book: Book, ok: bool)

  predicate Current(a: Arena, h: Handle) {
    h.slot < |a.gen| && a.gen[h.slot] == h.gen
  }

  /** A handle of the slot's current generation takes the order out and frees the slot; any other changes nothing. */
  function CancelOrder(a: Arena, b: Book, h: Handle): Cancelled {
    if Current(a, h) then Cancelled(Release(a, h.slot), Withdraw(b, h.slot), true)
    else Cancelled(a, b, false)
  }

  /** The symbol each slot last held, after a new order: the slot taken for it is written before it is matched. */
  function Stamped(cfg: Config, a: Arena, symbols: seq<u16>, o: NewOrder): (r: seq<u16>)
    requires cfg.Valid()
    ensures |r| == |symbols|
  {
    if InLadder(cfg, o.price) && a.free != [] && a.free[|a.free| - 1] < |symbols| then
      symbols[a.free[|a.free| - 1] := o.symbol]
    else symbols
  }

  // ---------- Matching, resumed part-way ----------

  /** Where matching ends: the opposite side, the aggressor's quantity, all fills, the arena. */
  datatype Outcome = Outcome(rest: seq<Resting>, left: u32, fills: seq<Fill>, arena: Arena)

  /** Where matching ends from a point at which `fills` have been made. */
  function Finish(side: Side, limit: nat, id: u64, cap: nat, qty: u32, opp: seq<Resting>, fills: seq<Fill>,
                  a: Arena): Outcome
    requires |fills| <= cap
  {
    var m := Match(side, limit, id, qty, opp, cap - |fills|);
    Outcome(m.rest, m.left, fills + m.fills, ReleaseAll(a, m.freed))
  }

  lemma FinishStopped(side: Side, limit: nat, id: u64, cap: nat, qty: u32, opp: seq<Resting>, fills: seq<Fill>,
                      a: Arena)
    requires |fills| <= cap && Stopped(side, limit, qty, opp, cap - |fills|)
    ensures Finish(side, limit, id, cap, qty, opp, fills, a) == Outcome(opp, qty, fills, a)
  {
  }

  lemma FinishPartial(side: Side, limit: nat, id: u64, cap: nat, qty: u32, opp: seq<Resting>, fills: seq<Fill>,
                      a: Arena)
    requires |fills| < cap && !Stopped(side, limit, qty, opp, cap - |fills|) && qty < opp[0].qty
    ensures Finish(side, limit, id, cap, qty, opp, fills, a)
         == Finish(side, limit, id, cap, 0, [opp[0].(qty := opp[0].qty - qty)] + opp[1..],
                   fills + [Report(id, opp[0], qty)], a)
  {
    var opp' := [opp[0].(qty := opp[0].qty - qty)] + opp[1..];
    var fills' := fills + [Report(id, opp[0], qty)];
    FinishStopped(side, limit, id, cap, 0, opp', fills', a);
  }

  lemma FinishFull(side: Side, limit: nat, id: u64, cap: nat, qty: u32, opp: seq<Resting>, fills: seq<Fill>, a: Arena)
    requires |fills| < cap && !Stopped(side, limit, qty, opp, cap - |fills|) && opp[0].qty <= qty
    ensures Finish(side, limit, id, cap, qty, opp, fills, a)
         == Finish(side, limit, id, cap, qty - opp[0].qty, opp[1..],
                   fills + [Report(id, opp[0], opp[0].qty)], Release(a, opp[0].name))
  {
    var m := Match(side, limit, id, qty - opp[0].qty, opp[1..], cap - |fills| - 1);
    assert fills + ([Report(id, opp[0], opp[0].qty)] + m.fills) == fills + [Report(id, opp[0], opp[0].qty)] + m.fills;
    assert ([opp[0].name] + m.freed)[1..] == m.freed;
  }
}
