/** The order arena: fixed slots, a LIFO stack of free slots and a generation per slot. */
module ArenaPool {
  import opened Types
  import opened PriceTime

  ghost predicate NoDup(s: seq<nat>) {
    forall i, j :: 0 <= i < j < |s| ==> s[i] != s[j]
  }

  ghost function Range(n: nat): (r: set<nat>)
    ensures forall i: nat :: i in r <==> i < n
    ensures |r| == n
  {
    if n == 0 then {} else Range(n - 1) + {n - 1}
  }

  lemma {:induction false} NoDupSize(s: seq<nat>, bound: set<nat>)
    requires NoDup(s) && forall x :: x in s ==> x in bound
    ensures |s| <= |bound|
  {
    if s == [] {
    } else {
      NoDupSize(s[1..], bound - {s[0]});
    }
  }

  /** A duplicate-free list of slots that misses one is shorter than the arena. */
  lemma RoomForOneMore(s: seq<nat>, n: nat, missing: nat)
    requires NoDup(s) && (forall k :: 0 <= k < |s| ==> s[k] < n) && missing < n && missing !in s
    ensures |s| < n
  {
    NoDupSize(s, Range(n) - {missing});
  }

  /** The symbol each slot holds, or last held. */
  function Symbols(slots: seq<Order>): (r: seq<u16>)
    ensures |r| == |slots|
  {
    seq(|slots|, i requires 0 <= i < |slots| => slots[i].symbol)
  }

  class Pool {
    const n: u32
    const slots: array<Order>
    const freeList: array<nat>
    const gen: array<u32>
    var freeTop: nat

    ghost const Repr: set<object> := {this, slots, freeList, gen}

    ghost predicate Valid()
      reads Repr
      ensures Valid() ==> slots.Length == freeList.Length == gen.Length == n && freeTop <= n
    {
      && slots.Length == freeList.Length == gen.Length == n
      && freeList as object != gen
      && freeTop <= n
      && NoDup(Free())
      && forall k :: 0 <= k < freeTop ==> freeList[k] < n
    }

    /** The free stack, its top last. */
    ghost function Free(): seq<nat>
      reads this, freeList
      requires freeTop <= freeList.Length
    {
      freeList[..freeTop]
    }

    ghost function View(): Arena
      reads Repr
      requires Valid()
    {
      Arena(Free(), gen[..])
    }

    constructor (n: u32)
      ensures Valid() && fresh(Repr) && this.n == n
      ensures View() == FreshArena(n) && Symbols(slots[..]) == seq(n, _ => 0)
    {
      this.n := n;
      slots := new Order[n](_ => Order(0, 0, 0, 0, 0, 0, 0, 0));
      freeList := new nat[n];
      gen := new u32[n](_ => 0);
      freeTop := 0;
      new;
      for i := 0 to n
        invariant freeTop == 0 && forall j :: 0 <= j < i ==> freeList[j] == j
        invariant gen[..] == seq(n, _ => 0) && Symbols(slots[..]) == seq(n, _ => 0)
        modifies freeList
      {
        freeList[i] := i;
      }
      freeTop := n;
      assert Free() == seq(n, i => i);
    }

    /** Takes the most recently freed slot; NULL_IDX, changing nothing, when there is none. */
    method Alloc() returns (s: nat)
      requires Valid()
      modifies `freeTop
      ensures Valid()
      ensures old(Free()) == [] ==> s == NULL_IDX && View() == old(View())
      ensures old(Free()) != [] ==>
                s < n && s !in Free() && old(Free()) == Free() + [s] && View().gen == old(View().gen)
    {
      if freeTop == 0 {
        return NULL_IDX;
      }
      freeTop := freeTop - 1;
      s := freeList[freeTop];
      assert old(Free()) == Free() + [s];
      assert old(Free())[freeTop] == s;
    }

    /** Returns a slot to the stack and retires its generation. */
    method Release(s: nat)
      requires Valid() && s < n && s !in Free()
      modifies `freeTop, freeList, gen
      ensures Valid() && View() == PriceTime.Release(old(View()), s)
    {
      RoomForOneMore(Free(), n, s);
      gen[s] := (gen[s] + 1) % TWO32;
      freeList[freeTop] := s;
      freeTop := freeTop + 1;
      assert Free() == old(Free()) + [s];
    }
  }
}
