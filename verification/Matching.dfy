/** What the reference matcher promises: priority, limits, the fill cap, conservation and an uncrossed book. */
module Matching {
  import opened Types
  import opened PriceTime
  import opened Arith

  function Traded(fills: seq<Fill>): nat {
    if fills == [] then 0 else fills[0].qty + Traded(fills[1..])
  }

  function Open(list: seq<Resting>): nat {
    if list == [] then 0 else list[0].qty + Open(list[1..])
  }

  ghost predicate Positive(list: seq<Resting>) {
    forall k :: 0 <= k < |list| ==> list[k].qty > 0
  }

  /**
   * An execution in price-time priority: the k-th fill is with the k-th order of the opposite side, each order but
   * the last one met is exhausted, every order met is within the limit, there are at most `cap` fills, no quantity
   * is lost, and trading stops only at a spent aggressor, an empty side, the limit or the cap.
   */
  ghost predicate Executes(side: Side, limit: nat, id: u64, qty: u32, opp: seq<Resting>, cap: nat, m: Matched) {
    var n := |m.freed|;
    && n <= |opp| && n <= |m.fills| <= n + 1 && |m.fills| <= |opp| && |m.fills| <= cap
    && m.freed == Names(opp[..n])
    && (forall k :: 0 <= k < |m.fills| ==>
          m.fills[k] == Report(id, opp[k], m.fills[k].qty) && Crosses(side, limit, opp[k].idx))
    && (forall k :: 0 <= k < n ==> m.fills[k].qty == opp[k].qty)
    && (|m.fills| == n ==> m.rest == opp[n..])
    && (|m.fills| > n ==>
          && m.left == 0 && 0 < m.fills[n].qty < opp[n].qty
          && m.rest == [opp[n].(qty := opp[n].qty - m.fills[n].qty)] + opp[n + 1..])
    && m.left + Traded(m.fills) == qty
    && Stopped(side, limit, m.left, m.rest, cap - |m.fills|)
  }

  lemma ExecutesNone(side: Side, limit: nat, id: u64, qty: u32, opp: seq<Resting>, cap: nat)
    requires Stopped(side, limit, qty, opp, cap)
    ensures Executes(side, limit, id, qty, opp, cap, Matched(opp, qty, [], []))
  {
    assert opp[0..] == opp && Names(opp[..0]) == [];
  }

  lemma ExecutesPart(side: Side, limit: nat, id: u64, qty: u32, opp: seq<Resting>, cap: nat)
    requires !Stopped(side, limit, qty, opp, cap) && qty < opp[0].qty
    ensures Executes(side, limit, id, qty, opp, cap,
                     Matched([opp[0].(qty := opp[0].qty - qty)] + opp[1..], 0, [Report(id, opp[0], qty)], []))
  {
    assert Names(opp[..0]) == [];
    TradedOne(Report(id, opp[0], qty));
  }

  lemma TradedOne(f: Fill)
    ensures Traded([f]) == f.qty
  {
    assert [f][1..] == [];
  }

  lemma ExecutesMore(side: Side, limit: nat, id: u64, qty: u32, opp: seq<Resting>, cap: nat, m: Matched)
    requires !Stopped(side, limit, qty, opp, cap) && opp[0].qty <= qty
    requires Executes(side, limit, id, qty - opp[0].qty, opp[1..], cap - 1, m)
    ensures Executes(side, limit, id, qty, opp, cap,
                     m.(fills := [Report(id, opp[0], opp[0].qty)] + m.fills, freed := [opp[0].name] + m.freed))
  {
    var fills := [Report(id, opp[0], opp[0].qty)] + m.fills;
    var n := |m.freed|;
    assert fills[1..] == m.fills;
    assert opp[..n + 1] == [opp[0]] + opp[1..][..n];
    assert opp[1..][n..] == opp[n + 1..];
    forall k | 0 <= k < |fills|
      ensures fills[k] == Report(id, opp[k], fills[k].qty) && Crosses(side, limit, opp[k].idx)
    {
      if k > 0 {
        assert fills[k] == m.fills[k - 1] && opp[k] == opp[1..][k - 1];
      }
    }
    if |m.fills| > n {
      assert opp[1..][n] == opp[n + 1] && opp[1..][n + 1..] == opp[n + 2..];
    }
  }

  /** The matcher executes in price-time priority. */
  lemma {:induction false} MatchExecutes(side: Side, limit: nat, id: u64, qty: u32, opp: seq<Resting>, cap: nat)
    ensures Executes(side, limit, id, qty, opp, cap, Match(side, limit, id, qty, opp, cap))
    decreases |opp|
  {
    hide Executes;
    if Stopped(side, limit, qty, opp, cap) {
      ExecutesNone(side, limit, id, qty, opp, cap);
    } else if qty < opp[0].qty {
      ExecutesPart(side, limit, id, qty, opp, cap);
    } else {
      MatchExecutes(side, limit, id, qty - opp[0].qty, opp[1..], cap - 1);
      ExecutesMore(side, limit, id, qty, opp, cap, Match(side, limit, id, qty - opp[0].qty, opp[1..], cap - 1));
    }
  }

  lemma ExecutesTail(side: Side, limit: nat, id: u64, qty: u32, opp: seq<Resting>, cap: nat, m: Matched)
    requires Executes(side, limit, id, qty, opp, cap, m) && |m.freed| > 0 && opp[0].qty <= qty && cap > 0
    ensures Executes(side, limit, id, qty - opp[0].qty, opp[1..], cap - 1,
                     m.(fills := m.fills[1..], freed := m.freed[1..]))
  {
    var t := m.(fills := m.fills[1..], freed := m.freed[1..]);
    var n := |t.freed|;
    assert opp[..n + 1][1..] == opp[1..][..n];
    assert m.freed[1..] == Names(opp[1..][..n]);
    assert opp[1..][n..] == opp[n + 1..];
    forall k | 0 <= k < |t.fills|
      ensures t.fills[k] == Report(id, opp[1..][k], t.fills[k].qty) && Crosses(side, limit, opp[1..][k].idx)
    {
      assert t.fills[k] == m.fills[k + 1] && opp[1..][k] == opp[k + 1];
    }
    if |t.fills| > n {
      assert opp[1..][n] == opp[n + 1] && opp[1..][n + 1..] == opp[n + 2..];
    }
  }

  lemma ExecutesStart(side: Side, limit: nat, id: u64, qty: u32, opp: seq<Resting>, cap: nat, m: Matched)
    requires Executes(side, limit, id, qty, opp, cap, m) && Positive(opp)
    ensures m.fills == [] <==> Stopped(side, limit, qty, opp, cap)
    ensures m.fills == [] ==> m == Matched(opp, qty, [], [])
    ensures m.fills != [] ==> opp != [] && (|m.freed| == 0 <==> qty < opp[0].qty)
    ensures |m.freed| == 0 && m.fills != [] ==>
              m == Matched([opp[0].(qty := opp[0].qty - qty)] + opp[1..], 0, [Report(id, opp[0], qty)], [])
  {
    if m.fills == [] {
      assert opp[0..] == opp;
    } else {
      assert m.fills[0] == Report(id, opp[0], m.fills[0].qty) && Crosses(side, limit, opp[0].idx);
      assert Traded(m.fills) == m.fills[0].qty + Traded(m.fills[1..]);
      if |m.freed| == 0 {
        TradedOne(m.fills[0]);
        assert m.fills == [m.fills[0]];
      }
    }
  }

  /** Over open orders there is no other such execution. */
  lemma {:induction false} OnlyMatch(side: Side, limit: nat, id: u64, qty: u32, opp: seq<Resting>, cap: nat, m: Matched)
    requires Executes(side, limit, id, qty, opp, cap, m) && Positive(opp)
    ensures m == Match(side, limit, id, qty, opp, cap)
    decreases |opp|
  {
    hide Executes;
    ExecutesStart(side, limit, id, qty, opp, cap, m);
    if m.fills != [] && qty >= opp[0].qty {
      ExecutesTail(side, limit, id, qty, opp, cap, m);
      OnlyMatch(side, limit, id, qty - opp[0].qty, opp[1..], cap - 1, m.(fills := m.fills[1..], freed := m.freed[1..]));
      FirstMet(side, limit, id, qty, opp, cap, m);
    }
  }

  lemma FirstMet(side: Side, limit: nat, id: u64, qty: u32, opp: seq<Resting>, cap: nat, m: Matched)
    requires Executes(side, limit, id, qty, opp, cap, m) && |m.freed| > 0
    ensures m.fills == [Report(id, opp[0], opp[0].qty)] + m.fills[1..] && m.freed == [opp[0].name] + m.freed[1..]
  {
  }

  // ---------- Conservation ----------

  /** What the aggressor trades, the opposite side loses. */
  lemma {:induction false} MatchConserves(side: Side, limit: nat, id: u64, qty: u32, opp: seq<Resting>, cap: nat)
    ensures var m := Match(side, limit, id, qty, opp, cap);
            m.left + Traded(m.fills) == qty && Open(m.rest) + Traded(m.fills) == Open(opp)
    decreases |opp|
  {
    if Stopped(side, limit, qty, opp, cap) {
    } else if qty < opp[0].qty {
      TradedOne(Report(id, opp[0], qty));
      assert ([opp[0].(qty := opp[0].qty - qty)] + opp[1..])[1..] == opp[1..];
    } else {
      MatchConserves(side, limit, id, qty - opp[0].qty, opp[1..], cap - 1);
      var m := Match(side, limit, id, qty - opp[0].qty, opp[1..], cap - 1);
      assert ([Report(id, opp[0], opp[0].qty)] + m.fills)[1..] == m.fills;
    }
  }

  lemma {:induction false} InsertOpen(side: Side, list: seq<Resting>, r: Resting)
    ensures Open(Insert(side, list, r)) == Open(list) + r.qty
  {
    if list == [] {
    } else if Better(side, r.idx, list[0].idx) {
      assert ([r] + list)[1..] == list;
    } else {
      InsertOpen(side, list[1..], r);
      assert ([list[0]] + Insert(side, list[1..], r))[1..] == Insert(side, list[1..], r);
    }
  }

  function OpenIn(b: Book): nat {
    Open(b.bids) + Open(b.asks)
  }

  /**
   * Per order: fills and what is left make up the quantity submitted; the other side loses the fills, and what is left
   * stays in the book unless the time-in-force byte is 1.
   */
  lemma SubmitConserves(b: Book, name: nat, o: NewOrder, idx: nat, cap: nat)
    ensures var r := Submit(b, name, o, idx, cap);
            && Traded(r.fills) + r.left == o.qty
            && OpenIn(r.book) + Traded(r.fills) == OpenIn(b) + (if o.tif == 1 then 0 else r.left)
  {
    var side := SideOf(o.side);
    MatchConserves(side, idx, o.id, o.qty, b.On(Opposite(side)), cap);
    var m := Match(side, idx, o.id, o.qty, b.On(Opposite(side)), cap);
    InsertOpen(side, b.On(side), ToResting(name, o, idx, m.left));
  }

  // ---------- Order within a side ----------

  lemma {:induction false} InsertAt(side: Side, list: seq<Resting>, r: Resting) returns (k: nat)
    ensures k <= |list| && Insert(side, list, r) == list[..k] + [r] + list[k..]
    ensures forall i :: 0 <= i < k ==> !Better(side, r.idx, list[i].idx)
    ensures k < |list| ==> Better(side, r.idx, list[k].idx)
  {
    if list == [] || Better(side, r.idx, list[0].idx) {
      k := 0;
    } else {
      var j := InsertAt(side, list[1..], r);
      k := j + 1;
      assert list[..k] == [list[0]] + list[1..][..j];
      assert list[1..][j..] == list[k..];
    }
  }

  /**
   * The new order joins behind every order of its level or better and before every strictly worse one, the others keep
   * their order, and the list stays in priority order.
   */
  lemma InsertSorted(side: Side, list: seq<Resting>, r: Resting) returns (k: nat)
    requires Sorted(side, list)
    ensures k <= |list| && Insert(side, list, r) == list[..k] + [r] + list[k..]
    ensures forall i :: 0 <= i < |list| ==> (i < k <==> !Better(side, r.idx, list[i].idx))
    ensures Sorted(side, Insert(side, list, r))
    ensures Positive(list) && r.qty > 0 ==> Positive(Insert(side, list, r))
  {
    k := InsertAt(side, list, r);
    var now := list[..k] + [r] + list[k..];
    forall i, j | 0 <= i < j < |now| ensures !Better(side, now[j].idx, now[i].idx) {
      var i', j' := if i < k then i else i - 1, if j < k then j else j - 1;
      assert i < k ==> now[i] == list[i];
      assert i > k ==> now[i] == list[i'];
      assert j < k ==> now[j] == list[j];
      assert j > k ==> now[j] == list[j'];
      if j > k && i <= k && k < |list| {
        assert k < j' ==> !Better(side, list[j'].idx, list[k].idx);
      }
    }
  }

  lemma NamesTail(list: seq<Resting>, name: nat)
    requires list != [] && name in Names(list) && list[0].name != name
    ensures name in Names(list[1..])
  {
    var i :| 0 <= i < |list| && Names(list)[i] == name;
    assert Names(list[1..])[i - 1] == name;
  }

  lemma {:induction false} DeleteAt(list: seq<Resting>, name: nat) returns (k: nat)
    requires name in Names(list)
    ensures k < |list| && list[k].name == name && Delete(list, name) == list[..k] + list[k + 1..]
  {
    if list[0].name == name {
      k := 0;
    } else {
      NamesTail(list, name);
      hide Names;
      var j := DeleteAt(list[1..], name);
      k := j + 1;
      assert list[..k] == [list[0]] + list[1..][..j];
      assert list[1..][j + 1..] == list[k + 1..];
    }
  }

  // ---------- Book invariant ----------

  /** Each side in priority order, every order open. */
  ghost predicate Proper(b: Book) {
    && Sorted(Buy, b.bids) && Sorted(Sell, b.asks)
    && Positive(b.bids) && Positive(b.asks)
  }

  lemma MatchProper(side: Side, limit: nat, id: u64, qty: u32, opp: seq<Resting>, cap: nat)
    requires Sorted(Opposite(side), opp) && Positive(opp)
    ensures var m := Match(side, limit, id, qty, opp, cap); Sorted(Opposite(side), m.rest) && Positive(m.rest)
  {
    MatchExecutes(side, limit, id, qty, opp, cap);
    RestShape(side, limit, id, qty, opp, cap, Match(side, limit, id, qty, opp, cap));
    hide Match, Executes;
  }

  /** What is left of the opposite side is its tail, at the same levels. */
  lemma RestShape(side: Side, limit: nat, id: u64, qty: u32, opp: seq<Resting>, cap: nat, m: Matched)
    requires Executes(side, limit, id, qty, opp, cap, m)
    ensures |m.rest| == |opp| - |m.freed|
    ensures forall k :: 0 <= k < |m.rest| ==> m.rest[k].idx == opp[|m.freed| + k].idx
    ensures Positive(opp) ==> Positive(m.rest)
  {
  }

  lemma SubmitProper(b: Book, name: nat, o: NewOrder, idx: nat, cap: nat)
    requires Proper(b)
    ensures Proper(Submit(b, name, o, idx, cap).book)
  {
    var side := SideOf(o.side);
    MatchProper(side, idx, o.id, o.qty, b.On(Opposite(side)), cap);
    var m := Match(side, idx, o.id, o.qty, b.On(Opposite(side)), cap);
    if m.left > 0 {
      var _ := InsertSorted(side, b.On(side), ToResting(name, o, idx, m.left));
    }
  }

  lemma DeleteProper(side: Side, list: seq<Resting>, name: nat)
    requires Sorted(side, list) && Positive(list)
    ensures Sorted(side, Delete(list, name)) && Positive(Delete(list, name))
    ensures list == [] ==> Delete(list, name) == []
    ensures Delete(list, name) != [] ==> list != [] && !Better(side, Delete(list, name)[0].idx, list[0].idx)
  {
    if name in Names(list) {
      var k := DeleteAt(list, name);
      var now := list[..k] + list[k + 1..];
      assert forall i :: 0 <= i < |now| ==> now[i] == list[if i < k then i else i + 1];
    } else {
      DeleteAbsent(list, name);
    }
  }

  lemma AbsentTail(list: seq<Resting>, name: nat)
    requires list != [] && name !in Names(list)
    ensures list[0].name != name && name !in Names(list[1..])
  {
    assert Names(list)[0] == list[0].name;
    forall k | 0 <= k < |list| - 1 ensures Names(list[1..])[k] != name {
      assert Names(list)[k + 1] == list[1..][k].name;
    }
  }

  lemma {:induction false} DeleteAbsent(list: seq<Resting>, name: nat)
    requires name !in Names(list)
    ensures Delete(list, name) == list
  {
    hide Names;
    if list != [] {
      AbsentTail(list, name);
      DeleteAbsent(list[1..], name);
    }
  }

  lemma WithdrawProper(b: Book, name: nat)
    requires Proper(b)
    ensures Proper(Withdraw(b, name))
  {
    DeleteProper(Buy, b.bids, name);
    DeleteProper(Sell, b.asks, name);
  }

  /** A property of resting orders that trading part of one does not break. */
  ghost predicate Lasting(p: Resting -> bool) {
    forall r: Resting, q: u32 :: p(r) && 0 < q <= r.qty ==> p(r.(qty := q))
  }

  ghost predicate All(list: seq<Resting>, p: Resting -> bool) {
    forall k :: 0 <= k < |list| ==> p(list[k])
  }

  /** What holds of a side's resting orders, and of the new one if it rests there, goes on holding of them. */
  lemma SubmitAll(b: Book, name: nat, o: NewOrder, idx: nat, cap: nat, p: Resting -> bool, q: Resting -> bool)
    requires Lasting(p) && Lasting(q) && All(b.bids, p) && All(b.asks, q)
    requires forall n: u32 :: 0 < n <= o.qty ==>
               if SideOf(o.side) == Buy then p(ToResting(name, o, idx, n)) else q(ToResting(name, o, idx, n))
    ensures var r := Submit(b, name, o, idx, cap).book; All(r.bids, p) && All(r.asks, q)
  {
    var side := SideOf(o.side);
    var opp := b.On(Opposite(side));
    RestAll(side, idx, o.id, o.qty, opp, cap, if side == Buy then q else p);
    var m := Match(side, idx, o.id, o.qty, opp, cap);
    hide Match, Lasting, All;
    if m.left > 0 {
      InsertAll(side, b.On(side), ToResting(name, o, idx, m.left), if side == Buy then p else q);
    }
  }

  lemma RestAll(side: Side, limit: nat, id: u64, qty: u32, opp: seq<Resting>, cap: nat, p: Resting -> bool)
    requires Lasting(p) && All(opp, p)
    ensures All(Match(side, limit, id, qty, opp, cap).rest, p)
  {
    MatchExecutes(side, limit, id, qty, opp, cap);
    var m := Match(side, limit, id, qty, opp, cap);
    hide Match;
    var n := |m.freed|;
    assert forall k :: 0 < k < |m.rest| ==> m.rest[k] == opp[n + k];
    if |m.fills| > n {
      assert p(opp[n]) && m.rest[0] == opp[n].(qty := opp[n].qty - m.fills[n].qty);
    }
  }

  lemma InsertAll(side: Side, list: seq<Resting>, r: Resting, p: Resting -> bool)
    requires All(list, p) && p(r)
    ensures All(Insert(side, list, r), p)
  {
    var k := InsertAt(side, list, r);
  }

  lemma DeleteAll(list: seq<Resting>, name: nat, p: Resting -> bool)
    requires All(list, p)
    ensures All(Delete(list, name), p)
  {
    if name in Names(list) {
      var k := DeleteAt(list, name);
    } else {
      DeleteAbsent(list, name);
    }
  }

  // ---------- Crossing ----------

  ghost predicate Uncrossed(b: Book) {
    b.bids == [] || b.asks == [] || b.bids[0].idx < b.asks[0].idx
  }

  /** More than `cap` orders are within the limit, and the first `cap` of them do not satisfy the quantity. */
  ghost predicate CapBinds(side: Side, limit: nat, qty: u32, opp: seq<Resting>, cap: nat) {
    |opp| > cap && Crosses(side, limit, opp[cap].idx) && Open(opp[..cap]) < qty
  }

  lemma {:induction false} CapBindsWhen(side: Side, limit: nat, id: u64, qty: u32, opp: seq<Resting>, cap: nat)
    requires Sorted(Opposite(side), opp) && Positive(opp)
    ensures var m := Match(side, limit, id, qty, opp, cap);
            CapBinds(side, limit, qty, opp, cap) <==> m.left > 0 && m.rest != [] && Crosses(side, limit, m.rest[0].idx)
    decreases |opp|
  {
    if cap == 0 {
      assert opp[..0] == [];
    } else if opp != [] && |opp| > cap {
      assert opp[..cap][0] == opp[0] && opp[..cap][1..] == opp[1..][..cap - 1];
      assert !Better(Opposite(side), opp[cap].idx, opp[0].idx);
    }
    if !Stopped(side, limit, qty, opp, cap) && opp[0].qty <= qty {
      CapBindsWhen(side, limit, id, qty - opp[0].qty, opp[1..], cap - 1);
    }
  }

  lemma InsertHead(side: Side, list: seq<Resting>, r: Resting)
    ensures Insert(side, list, r) != []
    ensures Insert(side, list, r)[0].idx
         == if list == [] || Better(side, r.idx, list[0].idx) then r.idx else list[0].idx
  {
  }

  /** An order that may rest while the cap binds. */
  ghost predicate LeavesCrossed(b: Book, o: NewOrder, idx: nat, cap: nat) {
    o.tif != TIF_IOC && CapBinds(SideOf(o.side), idx, o.qty, b.On(Opposite(SideOf(o.side))), cap)
  }

  lemma MatchHead(side: Side, limit: nat, id: u64, qty: u32, opp: seq<Resting>, cap: nat)
    requires Sorted(Opposite(side), opp)
    ensures var m := Match(side, limit, id, qty, opp, cap);
            m.rest != [] ==> opp != [] && !Better(Opposite(side), m.rest[0].idx, opp[0].idx)
  {
    MatchExecutes(side, limit, id, qty, opp, cap);
  }

  /** A new order crosses an uncrossed book exactly when it may rest and the fill cap binds. */
  lemma SubmitUncrossed(b: Book, name: nat, o: NewOrder, idx: nat, cap: nat)
    requires Proper(b) && Uncrossed(b)
    ensures Uncrossed(Submit(b, name, o, idx, cap).book) <==> !LeavesCrossed(b, o, idx, cap)
  {
    var side := SideOf(o.side);
    var opp := b.On(Opposite(side));
    var m := Match(side, idx, o.id, o.qty, opp, cap);
    CapBindsWhen(side, idx, o.id, o.qty, opp, cap);
    MatchHead(side, idx, o.id, o.qty, opp, cap);
    InsertHead(side, b.On(side), ToResting(name, o, idx, m.left));
  }

  /** A cancel crosses nothing. */
  lemma WithdrawUncrossed(b: Book, name: nat)
    requires Proper(b) && Uncrossed(b)
    ensures Uncrossed(Withdraw(b, name))
  {
    DeleteProper(Buy, b.bids, name);
    DeleteProper(Sell, b.asks, name);
  }

  /** The cap of 64 does bind: 65 single-lot offers at one level leave a 65-lot bid resting across the last of them. */
  lemma CapCanCross(price: i64)
    ensures var b := Book([], seq(65, (i: nat) => Resting(i, 0, price, 0, 1, 0, 0)));
            var o := NewOrder(0, price, 65, 0, 0, 0, 0);
            Proper(b) && Uncrossed(b) && !Uncrossed(Submit(b, 65, o, 0, 64).book)
  {
    var list := seq(65, (i: nat) => Resting(i, 0, price, 0, 1, 0, 0));
    var b := Book([], list);
    var o := NewOrder(0, price, 65, 0, 0, 0, 0);
    OpenUnits(list[..64]);
    SubmitUncrossed(b, 65, o, 0, 64);
  }

  lemma {:induction false} OpenUnits(list: seq<Resting>)
    requires forall k :: 0 <= k < |list| ==> list[k].qty == 1
    ensures Open(list) == |list|
  {
    if list != [] {
      OpenUnits(list[1..]);
    }
  }

  // ---------- Prices ----------

  /** Whole ticks from the base, before the count is narrowed to 32 bits. */
  function Ticks(cfg: Config, p: int): int
    requires cfg.Valid()
  {
    TruncDiv(p - cfg.base, cfg.tick)
  }

  /** What the price has beyond its whole ticks; negative below the base. */
  function Odd(cfg: Config, p: int): int
    requires cfg.Valid()
  {
    p - cfg.base - cfg.tick * Ticks(cfg, p)
  }

  lemma TruncParts(a: int, t: int)
    requires t > 0
    ensures var q := TruncDiv(a, t);
            && -t < a - t * q < t
            && (a >= 0 ==> q >= 0 && a - t * q >= 0)
            && (a <= 0 ==> q <= 0 && a - t * q <= 0)
  {
    var n := if a < 0 then -a else a;
    DivParts(n, t);
    if n / t < 0 {
      StepApart(n / t, 0, t);
    }
    assert t * -(n / t) == -(t * (n / t));
  }

  lemma TruncOrder(a: int, c: int, t: int)
    requires t > 0
    ensures var i, j := TruncDiv(a, t), TruncDiv(c, t);
            a <= c <==> i < j || (i == j && a - t * i <= c - t * j)
  {
    TruncParts(a, t);
    TruncParts(c, t);
    var i, j := TruncDiv(a, t), TruncDiv(c, t);
    hide TruncDiv;
    if i < j {
      StepApart(i, j, t);
    } else if j < i {
      StepApart(j, i, t);
    }
  }

  /** Price `p` has fewer ticks than `l`, or as many and no more beyond them; a negative tick counts downward. */
  predicate NoHigher(cfg: Config, p: int, l: int)
    requires cfg.Valid()
  {
    var i, j := Ticks(cfg, p), Ticks(cfg, l);
    if i == j then Odd(cfg, p) <= Odd(cfg, l) else if cfg.tick > 0 then i < j else j < i
  }

  /** Ticks and odd parts order prices, all of them: below the base, off the grid and beyond 32 bits. */
  lemma LimitHolds(cfg: Config, p: int, l: int)
    requires cfg.Valid()
    ensures p <= l <==> NoHigher(cfg, p, l)
  {
    var a, c := p - cfg.base, l - cfg.base;
    if cfg.tick > 0 {
      TruncOrder(a, c, cfg.tick);
    } else {
      var t: int := cfg.tick;
      TruncOrder(a, c, -t);
      TruncFlip(a, cfg.tick);
      TruncFlip(c, cfg.tick);
    }
    hide TruncDiv;
  }

  lemma TruncFlip(a: int, t: int)
    requires t < 0
    ensures TruncDiv(a, t) == -TruncDiv(a, -t) && t * TruncDiv(a, t) == -t * TruncDiv(a, -t)
  {
  }

  /** The order's limit allows the price. */
  predicate Within(side: Side, p: int, l: int) {
    if side == Buy then p <= l else p >= l
  }

  /** The k-th order in priority is met: it crosses, the cap is not reached and those ahead leave quantity over. */
  ghost predicate Meets(side: Side, limit: nat, qty: u32, opp: seq<Resting>, cap: nat, k: nat) {
    k < |opp| && k < cap && Crosses(side, limit, opp[k].idx) && Open(opp[..k]) < qty
  }

  /** Which orders are traded with, told before the call. */
  lemma {:induction false} MetWhen(side: Side, limit: nat, id: u64, qty: u32, opp: seq<Resting>, cap: nat, k: nat)
    requires Sorted(Opposite(side), opp) && Positive(opp)
    ensures k < |Match(side, limit, id, qty, opp, cap).fills| <==> Meets(side, limit, qty, opp, cap, k)
    decreases |opp|
  {
    if 0 < k < |opp| {
      assert opp[..k][0] == opp[0] && opp[..k][1..] == opp[1..][..k - 1];
      assert !Better(Opposite(side), opp[k].idx, opp[0].idx);
    }
    if !Stopped(side, limit, qty, opp, cap) && opp[0].qty <= qty && k > 0 {
      MetWhen(side, limit, id, qty - opp[0].qty, opp[1..], cap - 1, k - 1);
    }
  }

  /** How many orders are met from the k-th on. */
  ghost function MetCount(side: Side, limit: nat, qty: u32, opp: seq<Resting>, cap: nat, k: nat): (n: nat)
    requires k <= |opp|
    ensures k <= n <= |opp|
    decreases |opp| - k
  {
    if Meets(side, limit, qty, opp, cap, k) then MetCount(side, limit, qty, opp, cap, k + 1) else k
  }

  lemma {:induction false} MetCountIs(side: Side, limit: nat, id: u64, qty: u32, opp: seq<Resting>, cap: nat, k: nat)
    requires Sorted(Opposite(side), opp) && Positive(opp)
    requires k <= |Match(side, limit, id, qty, opp, cap).fills| && k <= |opp|
    ensures MetCount(side, limit, qty, opp, cap, k) == |Match(side, limit, id, qty, opp, cap).fills|
    decreases |opp| - k
  {
    hide Match, Sorted, Positive;
    MetWhen(side, limit, id, qty, opp, cap, k);
    if k < |Match(side, limit, id, qty, opp, cap).fills| {
      MetCountIs(side, limit, id, qty, opp, cap, k + 1);
    }
  }

  /** What is left of an order is what the open quantity of the orders it met falls short by. */
  lemma {:induction false} LeftOver(side: Side, limit: nat, id: u64, qty: u32, opp: seq<Resting>, cap: nat)
    ensures var m := Match(side, limit, id, qty, opp, cap);
            && |m.fills| <= |opp|
            && m.left == var met := Open(opp[..|m.fills|]); if met < qty then qty - met else 0
    decreases |opp|
  {
    if Stopped(side, limit, qty, opp, cap) {
      assert opp[..0] == [];
    } else if qty < opp[0].qty {
      OpenFront(opp, 1);
      assert opp[1..][..0] == [];
    } else {
      LeftOver(side, limit, id, qty - opp[0].qty, opp[1..], cap - 1);
      OpenFront(opp, |Match(side, limit, id, qty - opp[0].qty, opp[1..], cap - 1).fills| + 1);
    }
  }

  lemma OpenFront(list: seq<Resting>, n: nat)
    requires 0 < n <= |list|
    ensures Open(list[..n]) == list[0].qty + Open(list[1..][..n - 1])
  {
    assert list[..n][1..] == list[1..][..n - 1];
  }

  /**
   * When and where an order rests. With side byte 0 it meets asks and may join the bids, with any other the reverse. It
   * rests exactly when its time-in-force byte is not 1 and the open quantity of the orders it meets falls short of its
   * own; it then stands behind every order of its level or better with exactly the difference, and its side is
   * otherwise what it was.
   */
  lemma SubmitRests(b: Book, name: nat, o: NewOrder, idx: nat, cap: nat) returns (k: nat)
    requires Proper(b)
    ensures var r, buys := Submit(b, name, o, idx, cap), o.side == 0;
            var own, opp := if buys then b.bids else b.asks, if buys then b.asks else b.bids;
            var own' := if buys then r.book.bids else r.book.asks;
            var met := Open(opp[..MetCount(if buys then Buy else Sell, idx, o.qty, opp, cap, 0)]);
            && (r.rests <==> o.tif != 1 && met < o.qty)
            && r.left == (if met < o.qty then o.qty - met else 0)
            && (!r.rests ==> own' == own)
            && (r.rests ==>
                  && k <= |own|
                  && own' == own[..k] + [Resting(name, o.id, o.price, idx, o.qty - met, o.symbol, o.session)] + own[k..]
                  && forall i :: 0 <= i < |own| ==> (i < k <==> if buys then own[i].idx >= idx else own[i].idx <= idx))
  {
    var side := SideOf(o.side);
    var own, opp := b.On(side), b.On(Opposite(side));
    var m := Match(side, idx, o.id, o.qty, opp, cap);
    LeftOver(side, idx, o.id, o.qty, opp, cap);
    MetCountIs(side, idx, o.id, o.qty, opp, cap, 0);
    k := InsertSorted(side, own, ToResting(name, o, idx, m.left));
    hide Match, MetCount, Open, Insert, Sorted, Positive;
  }

  /**
   * Every fill is within the limit exactly when each order met is no worse in ticks, or level in them and in the rest.
   */
  lemma FillsWithinWhen(cfg: Config, b: Book, name: nat, o: NewOrder, cap: nat)
    requires cfg.Valid() && Proper(b) && InLadder(cfg, o.price)
    ensures var side, limit := SideOf(o.side), PriceToIdx(cfg, o.price);
            var opp := b.On(Opposite(side));
            (forall f :: f in Submit(b, name, o, limit, cap).fills ==> Within(side, f.price, o.price))
            <==>
            forall k: nat :: Meets(side, limit, o.qty, opp, cap, k) ==>
              if side == Buy then NoHigher(cfg, opp[k].price, o.price) else NoHigher(cfg, o.price, opp[k].price)
  {
    var side, limit := SideOf(o.side), PriceToIdx(cfg, o.price);
    var opp := b.On(Opposite(side));
    MatchExecutes(side, limit, o.id, o.qty, opp, cap);
    var fills := Match(side, limit, o.id, o.qty, opp, cap).fills;
    forall k: nat ensures k < |fills| <==> Meets(side, limit, o.qty, opp, cap, k) {
      MetWhen(side, limit, o.id, o.qty, opp, cap, k);
    }
    hide PriceToIdx, Match, Meets, NoHigher, Proper;
    forall k | 0 <= k < |fills|
      ensures Within(side, fills[k].price, o.price)
          <==> if side == Buy then NoHigher(cfg, opp[k].price, o.price) else NoHigher(cfg, o.price, opp[k].price)
    {
      LimitHolds(cfg, opp[k].price, o.price);
      LimitHolds(cfg, o.price, opp[k].price);
    }
    assert forall k :: 0 <= k < |fills| ==> fills[k] in fills;
  }

  /** A price whose tick count is a level: it is not negative and not narrowed. */
  ghost predicate InWindow(cfg: Config, p: int)
    requires cfg.Valid()
  {
    cfg.tick > 0 && 0 <= Ticks(cfg, p) < 0x8000_0000
  }

  ghost predicate OnGrid(cfg: Config, p: int)
    requires cfg.Valid()
  {
    InWindow(cfg, p) && Odd(cfg, p) == 0
  }

  /** `q` is the quotient of `a` by `t` truncated toward zero, told by inequalities. */
  ghost predicate Quotient(a: int, t: int, q: int) {
    var size := if t < 0 then -t else t;
    if a >= 0 then 0 <= t * q <= a < t * q + size else t * q - size < a <= t * q <= 0
  }

  lemma QuotientIs(a: int, t: int, q: int)
    requires t != 0 && Quotient(a, t, q)
    ensures TruncDiv(a, t) == q
  {
    var size := if t < 0 then -t else t;
    var p := if t < 0 then -q else q;
    assert t * q == size * p;
    TruncParts(a, size);
    if t < 0 {
      TruncFlip(a, t);
    }
    var e := TruncDiv(a, size);
    hide TruncDiv;
    if e < p {
      StepApart(e, p, size);
    } else if p < e {
      StepApart(p, e, size);
    }
  }

  /** The level of every price: the int32 that is congruent modulo 2^32 to the truncated quotient. */
  lemma LevelIs(cfg: Config, p: int, q: int)
    requires cfg.Valid() && Quotient(p - cfg.base, cfg.tick, q)
    ensures var i := PriceToIdx(cfg, p); -0x8000_0000 <= i < 0x8000_0000 && (i - q) % 0x1_0000_0000 == 0
  {
    QuotientIs(p - cfg.base, cfg.tick, q);
    hide TruncDiv;
  }

  /**
   * Which prices the ladder takes, and on which level, when the tick is positive and its count fits an int32: those
   * above one tick below the base and below the ladder's top. At or above the base the level is that of the next tick
   * below, below the base that of the next tick above.
   */
  lemma LadderPrices(cfg: Config, p: int)
    requires cfg.Valid() && cfg.tick > 0 && cfg.ladder <= 0x8000_0000
    requires var z: int, t: int := cfg.base, cfg.tick; z - 0x8000_0001 * t < p < z + 0x8000_0000 * t
    ensures var z: int, t: int, i := cfg.base, cfg.tick, PriceToIdx(cfg, p);
            && (InLadder(cfg, p) <==> cfg.ladder > 0 && z - t < p < z + cfg.ladder * t)
            && if p >= z then z + i * t <= p < z + (i + 1) * t else z + (i - 1) * t < p <= z + i * t
  {
    var z: int, t: int := cfg.base, cfg.tick;
    var a := p - z;
    var q := TruncDiv(a, t);
    TruncParts(a, t);
    hide TruncDiv;
    if q >= 0x8000_0000 {
      Scaled(0x8000_0000, q, t);
    } else if q < -0x8000_0000 {
      Scaled(q, -0x8000_0001, t);
    }
    assert PriceToIdx(cfg, p) == q;
    if q < 0 {
      Scaled(q, -1, t);
    } else if q < cfg.ladder {
      Scaled(q + 1, cfg.ladder, t);
    } else {
      Scaled(cfg.ladder, q, t);
    }
    assert (q + 1) * t == q * t + t && (q - 1) * t == q * t - t && t * q == q * t;
  }

  lemma Scaled(i: int, j: int, t: int)
    requires i <= j && t > 0
    ensures i * t <= j * t
  {
    if i < j {
      StepApart(i, j, t);
    }
  }

  /** On the grid and inside the window, the level is the number of ticks above the base. */
  lemma GridLevel(cfg: Config, k: nat)
    requires cfg.Valid() && cfg.tick > 0 && k < 0x8000_0000
    ensures PriceToIdx(cfg, cfg.base + k * cfg.tick) == k && OnGrid(cfg, cfg.base + k * cfg.tick)
  {
    WholeTicks(k, cfg.tick);
  }

  /** The price `p` of a crossing order, against the limit `l`. */
  lemma WindowOrder(cfg: Config, side: Side, p: int, l: int)
    requires cfg.Valid() && InWindow(cfg, p) && InWindow(cfg, l)
    ensures PriceToIdx(cfg, p) == Ticks(cfg, p) && PriceToIdx(cfg, l) == Ticks(cfg, l)
    ensures Crosses(side, PriceToIdx(cfg, l), PriceToIdx(cfg, p)) ==>
              ((if side == Buy then NoHigher(cfg, p, l) else NoHigher(cfg, l, p)) <==>
               (PriceToIdx(cfg, p) == PriceToIdx(cfg, l) ==> Within(side, Odd(cfg, p), Odd(cfg, l))))
  {
    hide TruncDiv, Odd;
  }

  /** In the window only orders on the limit's own level can break it: those with more beyond the shared tick. */
  lemma WindowLimits(cfg: Config, b: Book, name: nat, o: NewOrder, cap: nat)
    requires cfg.Valid() && Proper(b) && InWindow(cfg, o.price) && InLadder(cfg, o.price)
    requires forall r :: r in b.On(Opposite(SideOf(o.side))) ==>
               InWindow(cfg, r.price) && r.idx == PriceToIdx(cfg, r.price)
    ensures var side, limit := SideOf(o.side), PriceToIdx(cfg, o.price);
            var opp := b.On(Opposite(side));
            (forall f :: f in Submit(b, name, o, limit, cap).fills ==> Within(side, f.price, o.price))
            <==>
            forall k: nat :: Meets(side, limit, o.qty, opp, cap, k) && opp[k].idx == limit ==>
              Within(side, Odd(cfg, opp[k].price), Odd(cfg, o.price))
  {
    FillsWithinWhen(cfg, b, name, o, cap);
    hide Submit, Proper, PriceToIdx, Odd, NoHigher, InWindow, Within;
    var side, limit := SideOf(o.side), PriceToIdx(cfg, o.price);
    var opp := b.On(Opposite(side));
    forall k: nat | Meets(side, limit, o.qty, opp, cap, k)
      ensures (if side == Buy then NoHigher(cfg, opp[k].price, o.price) else NoHigher(cfg, o.price, opp[k].price))
          <==> (opp[k].idx == limit ==> Within(side, Odd(cfg, opp[k].price), Odd(cfg, o.price)))
    {
      assert opp[k] in opp;
      WindowOrder(cfg, side, opp[k].price, o.price);
    }
  }

  /** On the grid no fill is worse than the aggressor's limit. */
  lemma FillsWithinLimit(cfg: Config, b: Book, name: nat, o: NewOrder, cap: nat)
    requires cfg.Valid() && Proper(b) && OnGrid(cfg, o.price) && InLadder(cfg, o.price)
    requires forall r :: r in b.On(Opposite(SideOf(o.side))) ==>
               OnGrid(cfg, r.price) && r.idx == PriceToIdx(cfg, r.price)
    ensures forall f :: f in Submit(b, name, o, PriceToIdx(cfg, o.price), cap).fills ==>
              Within(SideOf(o.side), f.price, o.price)
  {
    var opp := b.On(Opposite(SideOf(o.side)));
    WindowLimits(cfg, b, name, o, cap);
    assert forall k :: 0 <= k < |opp| ==> opp[k] in opp;
    hide Submit, Proper, Ticks, Odd, PriceToIdx;
  }

  /** The fill that a one-lot order makes with a one-lot order it crosses. */
  lemma OneFill(side: Side, limit: nat, id: u64, r: Resting)
    requires Crosses(side, limit, r.idx) && r.qty == 1
    ensures Match(side, limit, id, 1, [r], 64).fills == [Report(id, r, 1)]
  {
    assert [r][1..] == [];
    assert Match(side, limit, id, 0, [], 63).fills == [];
  }

  /**
   * Off the grid, and just below the base, a fill can be worse than the limit: with tick 10 over base 100 a bid at 101
   * pays 109, and a bid at 95 pays 105.
   */
  lemma LimitCanBreak()
    ensures var cfg := Config(100, 10, 8, 8);
            && PriceToIdx(cfg, 109) == PriceToIdx(cfg, 101) == PriceToIdx(cfg, 95) == PriceToIdx(cfg, 105) == 0
            && Submit(Book([], [Resting(0, 0, 109, 0, 1, 0, 0)]), 1, NewOrder(1, 101, 1, 0, 0, 0, 0), 0, 64).fills
               == [Fill(1, 0, 109, 1, 0)]
            && Submit(Book([], [Resting(0, 0, 105, 0, 1, 0, 0)]), 1, NewOrder(1, 95, 1, 0, 0, 0, 0), 0, 64).fills
               == [Fill(1, 0, 105, 1, 0)]
  {
    OneFill(Buy, 0, 1, Resting(0, 0, 109, 0, 1, 0, 0));
    OneFill(Buy, 0, 1, Resting(0, 0, 105, 0, 1, 0, 0));
    hide Match;
  }

  /** So can one on the grid whose tick count is narrowed: with tick 1 over base 0 a bid at 3 pays 2^32, on level 0. */
  lemma NarrowedCanBreak()
    ensures var cfg := Config(0, 1, 8, 8);
            && PriceToIdx(cfg, TWO32) == 0 && PriceToIdx(cfg, 3) == 3 && Odd(cfg, TWO32) == Odd(cfg, 3) == 0
            && Submit(Book([], [Resting(0, 0, TWO32, 0, 1, 0, 0)]), 1, NewOrder(1, 3, 1, 0, 0, 0, 0), 3, 64).fills
               == [Fill(1, 0, TWO32, 1, 0)]
  {
    OneFill(Buy, 3, 1, Resting(0, 0, TWO32, 0, 1, 0, 0));
    hide Match;
  }
}
