/** Which slots a book and its arena hold, and that no operation loses or duplicates one. */
module Holdings {
  import opened Types
  import opened PriceTime
  import opened ArenaPool

  ghost predicate Unique(m: multiset<nat>) {
    forall x :: m[x] <= 1
  }

  function Slots(list: seq<Resting>): multiset<nat> {
    multiset(Names(list))
  }

  function BookSlots(b: Book): multiset<nat> {
    Slots(b.bids) + Slots(b.asks)
  }

  /** Every slot, once for each place it is in. */
  function Holding(a: Arena, b: Book): multiset<nat> {
    multiset(a.free) + BookSlots(b)
  }

  lemma HoldsSlots(k: Book, s: nat)
    ensures Holds(k, s) <==> s in BookSlots(k)
  {
  }

  lemma NamesConcat(a: seq<Resting>, b: seq<Resting>)
    ensures Names(a + b) == Names(a) + Names(b)
  {
  }

  lemma SlotsConcat(a: seq<Resting>, b: seq<Resting>)
    ensures Slots(a + b) == Slots(a) + Slots(b)
  {
    NamesConcat(a, b);
  }

  lemma SlotsHead(list: seq<Resting>)
    requires list != []
    ensures Slots(list) == multiset{list[0].name} + Slots(list[1..])
  {
    assert list == [list[0]] + list[1..];
    SlotsConcat([list[0]], list[1..]);
    assert Names([list[0]]) == [list[0].name];
  }

  lemma {:induction false} InsertSlots(side: Side, list: seq<Resting>, r: Resting)
    ensures Slots(Insert(side, list, r)) == Slots(list) + multiset{r.name}
  {
    assert Names([r]) == [r.name];
    if list == [] {
    } else if Better(side, r.idx, list[0].idx) {
      SlotsConcat([r], list);
    } else {
      InsertSlots(side, list[1..], r);
      SlotsHead(list);
      SlotsConcat([list[0]], Insert(side, list[1..], r));
      assert Names([list[0]]) == [list[0].name];
    }
  }

  lemma {:induction false} DeleteSlots(list: seq<Resting>, name: nat)
    ensures Slots(Delete(list, name)) == Slots(list) - multiset{name}
  {
    if list != [] {
      SlotsHead(list);
      if list[0].name != name {
        DeleteSlots(list[1..], name);
        SlotsConcat([list[0]], Delete(list[1..], name));
        assert Names([list[0]]) == [list[0].name];
      }
    }
  }

  lemma FreedFirst(rest: multiset<nat>, freed: seq<nat>, x: nat, tail: multiset<nat>)
    requires rest + multiset(freed) == tail
    ensures rest + multiset([x] + freed) == multiset{x} + tail
  {
    assert multiset([x] + freed) == multiset{x} + multiset(freed);
  }

  lemma {:induction false} MatchSlots(side: Side, limit: nat, id: u64, qty: u32, opp: seq<Resting>, cap: nat)
    ensures var m := Match(side, limit, id, qty, opp, cap);
            Slots(m.rest) + multiset(m.freed) == Slots(opp)
    decreases |opp|
  {
    hide Slots;
    if Stopped(side, limit, qty, opp, cap) {
    } else if qty < opp[0].qty {
      var r := opp[0].(qty := opp[0].qty - qty);
      SlotsHead(opp);
      SlotsHead([r] + opp[1..]);
      assert ([r] + opp[1..])[1..] == opp[1..];
    } else {
      MatchSlots(side, limit, id, qty - opp[0].qty, opp[1..], cap - 1);
      SlotsHead(opp);
      var m := Match(side, limit, id, qty - opp[0].qty, opp[1..], cap - 1);
      FreedFirst(Slots(m.rest), m.freed, opp[0].name, Slots(opp[1..]));
    }
  }

  lemma {:induction false} ReleaseAllFree(a: Arena, names: seq<nat>)
    ensures ReleaseAll(a, names).free == a.free + names
    decreases |names|
  {
    if names != [] {
      ReleaseAllFree(Release(a, names[0]), names[1..]);
    }
  }

  lemma SubmitSlots(b: Book, name: nat, o: NewOrder, idx: nat, cap: nat)
    ensures var r := Submit(b, name, o, idx, cap);
            BookSlots(r.book) + multiset(r.freed) == BookSlots(b) + (if r.rests then multiset{name} else multiset{})
  {
    var side := SideOf(o.side);
    MatchSlots(side, idx, o.id, o.qty, b.On(Opposite(side)), cap);
    var m := Match(side, idx, o.id, o.qty, b.On(Opposite(side)), cap);
    InsertSlots(side, b.On(side), ToResting(name, o, idx, m.left));
  }

  /** A new order moves slots between the free stack and the queues, and loses or repeats none. */
  lemma AddOrderHolding(cfg: Config, a: Arena, b: Book, o: NewOrder, cap: nat)
    requires cfg.Valid()
    ensures var r := AddOrder(cfg, a, b, o, cap); Holding(r.arena, r.book) == Holding(a, b)
  {
    if InLadder(cfg, o.price) && a.free != [] {
      hide Submit, ReleaseAll, BookSlots;
      var slot := a.free[|a.free| - 1];
      var idx := PriceToIdx(cfg, o.price);
      var free' := a.free[..|a.free| - 1];
      var r := Submit(b, slot, o, idx, cap);
      assert a.free == free' + [slot];
      SubmitSlots(b, slot, o, idx, cap);
      ReleaseAllFree(a.(free := free'), r.freed);
      MovedSlots(free', slot, r.freed, BookSlots(b), BookSlots(r.book), r.rests);
    }
  }

  lemma MovedSlots(free: seq<nat>, slot: nat, freed: seq<nat>, was: multiset<nat>, now: multiset<nat>, rests: bool)
    requires now + multiset(freed) == was + (if rests then multiset{slot} else multiset{})
    ensures multiset(free + freed + (if rests then [] else [slot])) + now == multiset(free + [slot]) + was
  {
    assert multiset(free + freed + (if rests then [] else [slot]))
        == multiset(free) + multiset(freed) + (if rests then multiset{} else multiset{slot});
    assert multiset(free + [slot]) == multiset(free) + multiset{slot};
    forall x
      ensures (multiset(free) + multiset(freed) + (if rests then multiset{} else multiset{slot}) + now)[x]
           == (multiset(free) + multiset{slot} + was)[x]
    {
      assert (now + multiset(freed))[x] == (was + (if rests then multiset{slot} else multiset{}))[x];
    }
  }

  /** A cancel of a queued slot moves it to the free stack. */
  lemma CancelOrderHolding(a: Arena, b: Book, h: Handle)
    requires Unique(Holding(a, b)) && (Current(a, h) ==> Holds(b, h.slot))
    ensures var r := CancelOrder(a, b, h); Holding(r.arena, r.book) == Holding(a, b)
  {
    if Current(a, h) {
      var x := h.slot;
      DeleteSlots(b.bids, x);
      DeleteSlots(b.asks, x);
      assert x in multiset(Names(b.bids)) || x in multiset(Names(b.asks));
      assert Holding(a, b)[x] <= 1;
      OneMoved(multiset(a.free), Slots(b.bids), Slots(b.asks), x);
      assert multiset(a.free + [x]) == multiset(a.free) + multiset{x};
    }
  }

  lemma OneMoved(f: multiset<nat>, m: multiset<nat>, n: multiset<nat>, x: nat)
    requires (x in m || x in n) && m[x] + n[x] <= 1
    ensures f + multiset{x} + ((m - multiset{x}) + (n - multiset{x})) == f + (m + n)
  {
  }

  // ---------- Consequences of uniqueness ----------

  lemma UniqueNoDup(s: seq<nat>)
    requires Unique(multiset(s))
    ensures NoDup(s)
  {
    forall i, j | 0 <= i < j < |s| ensures s[i] != s[j] {
      var a, b := s[..j], s[j..];
      assert s == a + b && a[i] == s[i] && b[0] == s[j];
      UniqueParts(multiset(a), multiset(b));
      assert a[i] in multiset(a) && b[0] in multiset(b);
    }
  }

  lemma UniqueParts(m: multiset<nat>, n: multiset<nat>)
    requires Unique(m + n)
    ensures Unique(m) && Unique(n) && forall x :: x in m ==> x !in n
  {
    forall x ensures m[x] <= 1 && n[x] <= 1 && (x in m ==> x !in n) {
      assert (m + n)[x] <= 1;
    }
  }
}
