/** The reference book does not look at names: renaming its orders commutes with every operation. */
module Renaming {
  import opened Types
  import opened PriceTime

  function At(f: seq<nat>, n: nat): nat {
    if n < |f| then f[n] else n
  }

  function Renamed(list: seq<Resting>, f: seq<nat>): (r: seq<Resting>)
    ensures |r| == |list|
    ensures forall k :: 0 <= k < |list| ==> r[k] == list[k].(name := At(f, list[k].name))
  {
    seq(|list|, k requires 0 <= k < |list| => list[k].(name := At(f, list[k].name)))
  }

  function RenamedBook(b: Book, f: seq<nat>): Book {
    Book(Renamed(b.bids, f), Renamed(b.asks, f))
  }

  lemma RenamedConcat(a: seq<Resting>, b: seq<Resting>, f: seq<nat>)
    ensures Renamed(a + b, f) == Renamed(a, f) + Renamed(b, f)
  {
  }

  lemma RenamedTail(a: seq<Resting>, f: seq<nat>)
    requires a != []
    ensures Renamed(a[1..], f) == Renamed(a, f)[1..] && Renamed(a, f)[0] == a[0].(name := At(f, a[0].name))
  {
  }

  lemma {:induction false} RenamedMatch(side: Side, limit: nat, id: u64, qty: u32, opp: seq<Resting>, cap: nat,
                                        f: seq<nat>)
    ensures var m, n := Match(side, limit, id, qty, opp, cap), Match(side, limit, id, qty, Renamed(opp, f), cap);
            n.rest == Renamed(m.rest, f) && n.left == m.left && n.fills == m.fills
    decreases |opp|
  {
    if Stopped(side, limit, qty, opp, cap) {
    } else if qty < opp[0].qty {
      RenamedTail(opp, f);
      RenamedConcat([opp[0].(qty := opp[0].qty - qty)], opp[1..], f);
      assert Renamed([opp[0].(qty := opp[0].qty - qty)], f) == [Renamed(opp, f)[0].(qty := opp[0].qty - qty)];
    } else {
      RenamedTail(opp, f);
      RenamedMatch(side, limit, id, qty - opp[0].qty, opp[1..], cap - 1, f);
    }
  }

  lemma {:induction false} RenamedInsert(side: Side, list: seq<Resting>, r: Resting, f: seq<nat>)
    ensures Renamed(Insert(side, list, r), f) == Insert(side, Renamed(list, f), r.(name := At(f, r.name)))
  {
    assert Renamed([r], f) == [r.(name := At(f, r.name))];
    if list == [] {
    } else if Better(side, r.idx, list[0].idx) {
      RenamedConcat([r], list, f);
    } else {
      RenamedTail(list, f);
      RenamedInsert(side, list[1..], r, f);
      RenamedConcat([list[0]], Insert(side, list[1..], r), f);
      assert Renamed([list[0]], f) == [Renamed(list, f)[0]];
    }
  }

  lemma {:induction false} RenamedDelete(list: seq<Resting>, name: nat, f: seq<nat>)
    requires forall k :: 0 <= k < |list| && At(f, list[k].name) == At(f, name) ==> list[k].name == name
    ensures Renamed(Delete(list, name), f) == Delete(Renamed(list, f), At(f, name))
  {
    if list != [] {
      RenamedTail(list, f);
      if list[0].name != name {
        RenamedDelete(list[1..], name, f);
        RenamedConcat([list[0]], Delete(list[1..], name), f);
        assert Renamed([list[0]], f) == [Renamed(list, f)[0]];
      }
    }
  }

  /** A submission under a renamed label: same fills, same leftover, same fate, renamed queues. */
  lemma RenamedSubmit(b: Book, name: nat, o: NewOrder, idx: nat, cap: nat, f: seq<nat>)
    ensures var r, t := Submit(b, name, o, idx, cap), Submit(RenamedBook(b, f), At(f, name), o, idx, cap);
            t.book == RenamedBook(r.book, f) && t.fills == r.fills && t.left == r.left && t.rests == r.rests
  {
    var side := SideOf(o.side);
    RenamedMatch(side, idx, o.id, o.qty, b.On(Opposite(side)), cap, f);
    var m := Match(side, idx, o.id, o.qty, b.On(Opposite(side)), cap);
    RenamedInsert(side, b.On(side), ToResting(name, o, idx, m.left), f);
  }

  lemma RenamedWithdraw(b: Book, name: nat, f: seq<nat>)
    requires forall n :: Holds(b, n) && At(f, n) == At(f, name) ==> n == name
    ensures RenamedBook(Withdraw(b, name), f) == Withdraw(RenamedBook(b, f), At(f, name))
  {
    forall k | 0 <= k < |b.bids| && At(f, b.bids[k].name) == At(f, name) ensures b.bids[k].name == name {
      assert Names(b.bids)[k] == b.bids[k].name;
    }
    forall k | 0 <= k < |b.asks| && At(f, b.asks[k].name) == At(f, name) ensures b.asks[k].name == name {
      assert Names(b.asks)[k] == b.asks[k].name;
    }
    RenamedDelete(b.bids, name, f);
    RenamedDelete(b.asks, name, f);
  }

  lemma RenamedHolds(b: Book, n: nat, f: seq<nat>)
    requires Holds(b, n)
    ensures Holds(RenamedBook(b, f), At(f, n))
  {
    if n in Names(b.bids) {
      var k :| 0 <= k < |b.bids| && Names(b.bids)[k] == n;
      assert Names(Renamed(b.bids, f))[k] == At(f, n);
    } else {
      var k :| 0 <= k < |b.asks| && Names(b.asks)[k] == n;
      assert Names(Renamed(b.asks, f))[k] == At(f, n);
    }
  }

  lemma HoldsOrigin(b: Book, u: nat, f: seq<nat>) returns (n: nat)
    requires Holds(RenamedBook(b, f), u)
    ensures Holds(b, n) && At(f, n) == u
  {
    if u in Names(Renamed(b.bids, f)) {
      var k :| 0 <= k < |b.bids| && Names(Renamed(b.bids, f))[k] == u;
      n := b.bids[k].name;
      assert Names(b.bids)[k] == n;
    } else {
      var k :| 0 <= k < |b.asks| && Names(Renamed(b.asks, f))[k] == u;
      n := b.asks[k].name;
      assert Names(b.asks)[k] == n;
    }
  }

  /** Only the names a book holds matter. */
  lemma RenamedBookSame(b: Book, f: seq<nat>, g: seq<nat>)
    requires forall n :: Holds(b, n) ==> At(f, n) == At(g, n)
    ensures RenamedBook(b, f) == RenamedBook(b, g)
  {
    forall k | 0 <= k < |b.bids| ensures At(f, b.bids[k].name) == At(g, b.bids[k].name) {
      assert Names(b.bids)[k] == b.bids[k].name;
    }
    forall k | 0 <= k < |b.asks| ensures At(f, b.asks[k].name) == At(g, b.asks[k].name) {
      assert Names(b.asks)[k] == b.asks[k].name;
    }
  }
}
