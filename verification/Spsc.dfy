/**
 * The single-producer single-consumer ring. Its two threads are modelled by their separate loads, stores and slot
 * accesses, interleaved in any way. An acquiring load of the other thread's counter may return any value that counter
 * has held, but none older than the last one loaded: that is all acquire and release give.
 */
module Spsc {
  import opened Types
  import opened Arith

  const TWO64: nat := 0x1_0000_0000_0000_0000

  lemma Pow2Of64()
    ensures Pow2(64) == TWO64
  {
    assert Pow2(4) == 16;
    hide Pow2;
    Pow2Sum(4, 4);
    assert Pow2(8) == 256;
    Pow2Sum(8, 8);
    assert Pow2(16) == 0x1_0000;
    Pow2Sum(16, 16);
    assert Pow2(32) == 0x1_0000_0000;
    Pow2Sum(32, 32);
  }

  /** A ring size is a power of two that a 64-bit counter can count past. */
  ghost predicate Size(n: nat) {
    exists k: nat :: k < 64 && n == Pow2(k)
  }

  /** A counter that wraps at 2^64 still indexes the ring as an unbounded one would, since the size divides 2^64. */
  lemma WrapIndex(n: nat, count: nat)
    requires Size(n)
    ensures n > 0 && Wrapped(count) % n == count % n
  {
    var k: nat :| k < 64 && n == Pow2(k);
    Pow2Sum(k, 64 - k);
    Pow2Of64();
    ModOfMod(count, n, Pow2(64 - k));
  }

  lemma {:induction false} Pow2Grows(j: nat, k: nat)
    requires j <= k
    ensures Pow2(j) <= Pow2(k)
  {
    if j < k {
      Pow2Grows(j, k - 1);
    }
  }

  lemma SizeBound(n: nat)
    requires Size(n)
    ensures 0 < n && n + 1 < TWO64
  {
    var k: nat :| k < 64 && n == Pow2(k);
    Pow2Grows(k, 63);
    Pow2Of64();
  }

  /** Unsigned 64-bit subtraction. */
  function Sub64(a: u64, b: u64): u64 {
    (a - b) % TWO64
  }

  function Inc64(a: u64): u64 {
    (a + 1) % TWO64
  }

  /** The counter that stands for an unbounded count. */
  function Wrapped(count: nat): u64 {
    count % TWO64
  }

  lemma IncWrapped(count: nat)
    ensures Inc64(Wrapped(count)) == Wrapped(count + 1)
  {
  }

  lemma SubExact(a: nat, b: nat)
    requires b <= a < b + TWO64
    ensures Sub64(Wrapped(a), Wrapped(b)) == a - b
  {
    DivParts(a, TWO64);
    DivParts(b, TWO64);
  }

  // ---------- The threads ----------

  datatype Producer<T> =
    | PIdle
    | PStarted(value: T, head: u64)
    | PClear(value: T, head: u64)
    | PWrote(value: T, head: u64)

  datatype Consumer<T> = CIdle | CStarted(tail: u64) | CReady(tail: u64) | CHas(tail: u64, value: T)

  /**
   * The shared counters and slots, where each thread is, how many pops the producer and how many pushes the consumer
   * have last seen, and everything pushed and popped so far.
   */
  datatype Ring<T> = Ring(head: u64, tail: u64, slots: seq<T>, p: Producer<T>, c: Consumer<T>,
                          seenPops: nat, seenPushes: nat, pushed: seq<T>, popped: seq<T>)

  datatype Action<T> =
    | PLoadHead(value: T)
    | PLoadTail(pops: nat)
    | PWrite
    | PStore
    | CLoadTail
    | CLoadHead(pushes: nat)
    | CRead
    | CStore

  predicate Enabled<T>(n: nat, s: Ring<T>, a: Action<T>)
    requires n > 0
  {
    match a
    case PLoadHead(_) => s.p.PIdle?
    case PLoadTail(pops) => s.p.PStarted? && s.seenPops <= pops <= |s.popped|
    case PWrite => s.p.PClear? && |s.slots| == n
    case PStore => s.p.PWrote?
    case CLoadTail => s.c.CIdle?
    case CLoadHead(pushes) => s.c.CStarted? && s.seenPushes <= pushes <= |s.pushed|
    case CRead => s.c.CReady? && |s.slots| == n
    case CStore => s.c.CHas?
  }

  function Next<T>(n: nat, s: Ring<T>, a: Action<T>): Ring<T>
    requires n > 0 && Enabled(n, s, a)
  {
    match a
    case PLoadHead(v) => s.(p := PStarted(v, s.head))
    case PLoadTail(pops) =>
      if Sub64(Inc64(s.p.head), Wrapped(pops)) > n then s.(seenPops := pops, p := PIdle)
      else s.(seenPops := pops, p := PClear(s.p.value, s.p.head))
    case PWrite => s.(slots := s.slots[s.p.head % n := s.p.value], p := PWrote(s.p.value, s.p.head))
    case PStore => s.(head := Inc64(s.p.head), p := PIdle, pushed := s.pushed + [s.p.value])
    case CLoadTail => s.(c := CStarted(s.tail))
    case CLoadHead(pushes) =>
      if Wrapped(pushes) == s.c.tail then s.(seenPushes := pushes, c := CIdle)
      else s.(seenPushes := pushes, c := CReady(s.c.tail))
    case CRead => s.(c := CHas(s.c.tail, s.slots[s.c.tail % n]))
    case CStore => s.(tail := Inc64(s.c.tail), c := CIdle, popped := s.popped + [s.c.value])
  }

  /**
   * Neither thread is ever kept from its next step, and a load of the other's counter may return any value from the
   * last one seen to the newest.
   */
  lemma AlwaysEnabled<T>(n: nat, s: Ring<T>, v: T, pops: nat, pushes: nat)
    requires n > 0 && |s.slots| == n && s.seenPops <= pops <= |s.popped| && s.seenPushes <= pushes <= |s.pushed|
    ensures match s.p
            case PIdle => Enabled(n, s, PLoadHead(v))
            case PStarted(_, _) => Enabled(n, s, PLoadTail(pops))
            case PClear(_, _) => Enabled(n, s, PWrite)
            case PWrote(_, _) => Enabled(n, s, PStore)
    ensures match s.c
            case CIdle => Enabled(n, s, CLoadTail)
            case CStarted(_) => Enabled(n, s, CLoadHead(pushes))
            case CReady(_) => Enabled(n, s, CRead)
            case CHas(_, _) => Enabled(n, s, CStore)
  {
  }

  function Start<T>(slots: seq<T>): Ring<T> {
    Ring(0, 0, slots, PIdle, CIdle, 0, 0, [], [])
  }

  // ---------- The invariant ----------

  ghost predicate Counters<T>(n: nat, s: Ring<T>) {
    var pushes, pops := |s.pushed|, |s.popped|;
    && s.head == Wrapped(pushes) && s.tail == Wrapped(pops)
    && s.seenPops <= pops <= s.seenPushes <= pushes <= s.seenPops + n
    && s.popped == s.pushed[..pops]
    && (!s.p.PIdle? ==> s.p.head == s.head)
    && (s.p.PClear? || s.p.PWrote? ==> pushes < s.seenPops + n)
    && (!s.c.CIdle? ==> s.c.tail == s.tail)
    && (s.c.CReady? || s.c.CHas? ==> pops < s.seenPushes)
  }

  /** Slots hold what was pushed and not yet popped, and what is written but not yet published. */
  ghost predicate Stored<T>(n: nat, s: Ring<T>)
    requires n > 0
  {
    var pushes, pops := |s.pushed|, |s.popped|;
    && |s.slots| == n
    && (forall i :: pops <= i < pushes ==> s.slots[i % n] == s.pushed[i])
    && (s.p.PWrote? ==> s.slots[pushes % n] == s.p.value)
    && (s.c.CHas? ==> pops < pushes && s.c.value == s.pushed[pops])
  }

  ghost predicate Inv<T>(n: nat, s: Ring<T>) {
    Size(n) && n > 0 && Counters(n, s) && Stored(n, s)
  }

  /** The producer finds the ring full exactly when it is full as far as it has seen. */
  lemma FullWhen<T>(n: nat, s: Ring<T>, pops: nat)
    requires Inv(n, s) && Enabled(n, s, PLoadTail(pops))
    ensures Next(n, s, PLoadTail(pops)).p.PIdle? <==> |s.pushed| == pops + n
  {
    hide Sub64, Inc64, Wrapped, Size, Stored;
    SizeBound(n);
    SubExact(|s.pushed| + 1, pops);
    IncWrapped(|s.pushed|);
  }

  /** The consumer finds the ring empty exactly when it is empty as far as it has seen. */
  lemma EmptyWhen<T>(n: nat, s: Ring<T>, pushes: nat)
    requires Inv(n, s) && Enabled(n, s, CLoadHead(pushes))
    ensures Next(n, s, CLoadHead(pushes)).c.CIdle? <==> |s.popped| == pushes
  {
    hide Inc64, Wrapped, Size, Stored;
    SizeBound(n);
    SubExact(pushes, |s.popped|);
    SubExact(|s.popped|, |s.popped|);
  }

  lemma CountersNext<T>(n: nat, s: Ring<T>, a: Action<T>)
    requires Inv(n, s) && Enabled(n, s, a)
    ensures Counters(n, Next(n, s, a))
  {
    hide Sub64, Inc64, Wrapped, Size;
    match a
    case PLoadTail(pops) => FullWhen(n, s, pops);
    case CLoadHead(pushes) => EmptyWhen(n, s, pushes);
    case PStore => IncWrapped(|s.pushed|);
    case CStore => IncWrapped(|s.popped|);
    case _ =>
  }

  lemma StoredNext<T>(n: nat, s: Ring<T>, a: Action<T>)
    requires Inv(n, s) && Enabled(n, s, a)
    ensures Stored(n, Next(n, s, a))
  {
    hide Sub64, Inc64, Wrapped, Size;
    WrapIndex(n, |s.pushed|);
    WrapIndex(n, |s.popped|);
    if a.PWrite? {
      forall i | |s.popped| <= i < |s.pushed| ensures i % n != |s.pushed| % n {
        CloseDiffer(i, |s.pushed|, n);
      }
    }
  }

  /** Every step of either thread keeps the invariant. */
  lemma StepInv<T>(n: nat, s: Ring<T>, a: Action<T>)
    requires Inv(n, s) && Enabled(n, s, a)
    ensures Inv(n, Next(n, s, a))
  {
    CountersNext(n, s, a);
    StoredNext(n, s, a);
  }

  // ---------- Every interleaving ----------

  /** The ring after any interleaving of steps, those not enabled being skipped. */
  function After<T>(n: nat, slots: seq<T>, acts: seq<Action<T>>): Ring<T>
    requires n > 0
  {
    if acts == [] then Start(slots)
    else
      var s := After(n, slots, acts[..|acts| - 1]);
      if Enabled(n, s, acts[|acts| - 1]) then Next(n, s, acts[|acts| - 1]) else s
  }

  lemma {:induction false} RunInv<T>(n: nat, slots: seq<T>, acts: seq<Action<T>>)
    requires Size(n) && n > 0 && |slots| == n
    ensures Inv(n, After(n, slots, acts))
  {
    if acts != [] {
      var s := After(n, slots, acts[..|acts| - 1]);
      RunInv(n, slots, acts[..|acts| - 1]);
      if Enabled(n, s, acts[|acts| - 1]) {
        StepInv(n, s, acts[|acts| - 1]);
      }
    }
  }

  /**
   * In every interleaving: what was popped is a prefix of what was pushed, at most `n` values are held, and the slot
   * the producer is about to write is never the one the consumer is about to read.
   */
  lemma Safe<T>(n: nat, slots: seq<T>, acts: seq<Action<T>>)
    requires Size(n) && n > 0 && |slots| == n
    ensures var s := After(n, slots, acts);
            && s.popped <= s.pushed && |s.pushed| - |s.popped| <= n
            && (s.p.PClear? && s.c.CReady? ==> s.p.head % n != s.c.tail % n)
  {
    var s := After(n, slots, acts);
    RunInv(n, slots, acts);
    WrapIndex(n, |s.pushed|);
    WrapIndex(n, |s.popped|);
    if s.p.PClear? && s.c.CReady? {
      CloseDiffer(|s.popped|, |s.pushed|, n);
    }
  }

  /** What the consumer has read and is about to publish is the next value of the pushed sequence. */
  lemma ReadsNext<T>(n: nat, slots: seq<T>, acts: seq<Action<T>>)
    requires Size(n) && n > 0 && |slots| == n && After(n, slots, acts).c.CReady?
    ensures var s := After(n, slots, acts);
            |s.popped| < |s.pushed| && s.c.tail % n < |s.slots| && s.slots[s.c.tail % n] == s.pushed[|s.popped|]
  {
    var s := After(n, slots, acts);
    RunInv(n, slots, acts);
    WrapIndex(n, |s.popped|);
  }

  // ---------- Room ahead ----------

  lemma AfterMore<T>(n: nat, slots: seq<T>, acts: seq<Action<T>>, more: seq<Action<T>>)
    requires n > 0 && more != []
    ensures var s, a := After(n, slots, acts + more[..|more| - 1]), more[|more| - 1];
            After(n, slots, acts + more) == if Enabled(n, s, a) then Next(n, s, a) else s
  {
    var all := acts + more;
    assert all[..|all| - 1] == acts + more[..|more| - 1] && all[|all| - 1] == more[|more| - 1];
  }

  /** Steps only add to what was pushed and to what the producer has seen popped. */
  lemma {:induction false} OnlyGrows<T>(n: nat, slots: seq<T>, acts: seq<Action<T>>, more: seq<Action<T>>)
    requires n > 0
    ensures var s, t := After(n, slots, acts), After(n, slots, acts + more);
            s.seenPops <= t.seenPops && s.pushed <= t.pushed
  {
    if more == [] {
      assert acts + more == acts;
    } else {
      OnlyGrows(n, slots, acts, more[..|more| - 1]);
      AfterMore(n, slots, acts, more);
      hide After;
    }
  }

  /**
   * Once `k` places are free as far as the producer has seen, no push finds the ring full until `k` more have
   * completed, however the two threads interleave meanwhile and however stale the counter it reads.
   */
  lemma RoomForPushes<T>(n: nat, slots: seq<T>, acts: seq<Action<T>>, more: seq<Action<T>>, k: nat, pops: nat)
    requires Size(n) && n > 0 && |slots| == n
    requires var s := After(n, slots, acts); |s.pushed| + k <= s.seenPops + n
    requires |After(n, slots, acts + more).pushed| < |After(n, slots, acts).pushed| + k
    requires Enabled(n, After(n, slots, acts + more), PLoadTail(pops))
    ensures Next(n, After(n, slots, acts + more), PLoadTail(pops)).p.PClear?
  {
    RunInv(n, slots, acts + more);
    OnlyGrows(n, slots, acts, more);
    FullWhen(n, After(n, slots, acts + more), pops);
  }

  // ---------- One thread at a time ----------

  /** The ring as an object; `Push` and `Pop` are the producer's and the consumer's steps in a row. */
  class SpscQueue<T> {
    const n: nat
    const slots: array<T>
    var head: u64
    var tail: u64
    ghost var seenPops: nat
    ghost var seenPushes: nat
    ghost var pushed: seq<T>
    ghost var popped: seq<T>

    ghost function View(): Ring<T>
      reads this, slots
    {
      Ring(head, tail, slots[..], PIdle, CIdle, seenPops, seenPushes, pushed, popped)
    }

    ghost predicate Valid()
      reads this, slots
    {
      slots.Length == n && Inv(n, View())
    }

    constructor (n: nat, blank: T)
      requires Size(n) && n > 0
      ensures Valid() && this.n == n && pushed == popped == [] && fresh(slots)
    {
      this.n := n;
      slots := new T[n](_ => blank);
      head, tail, seenPops, seenPushes, pushed, popped := 0, 0, 0, 0, [], [];
    }

    /** Appends a value unless `n` values are held. */
    method Push(v: T) returns (ok: bool)
      requires Valid()
      modifies this, slots
      ensures Valid() && popped == old(popped)
      ensures ok <==> |old(pushed)| - |old(popped)| < n
      ensures pushed == if ok then old(pushed) + [v] else old(pushed)
    {
      hide Inv, Sub64, Inc64, Wrapped;
      ghost var s0 := View();
      ViewFacts(n, s0);
      ghost var s1 := Next(n, s0, PLoadHead(v));
      StepInv(n, s0, PLoadHead(v));
      ghost var s2 := Next(n, s1, PLoadTail(|popped|));
      StepInv(n, s1, PLoadTail(|popped|));
      FullWhen(n, s1, |popped|);
      var h := head;
      seenPops := |popped|;
      if Sub64(Inc64(h), tail) > n {
        return false;
      }
      StepInv(n, s2, PWrite);
      StepInv(n, Next(n, s2, PWrite), PStore);
      slots[h % n] := v;
      head := Inc64(h);
      pushed := pushed + [v];
      ok := true;
    }

    /** Takes the oldest value held, if there is one. */
    method Pop() returns (r: Option<T>)
      requires Valid()
      modifies this
      ensures Valid() && pushed == old(pushed)
      ensures if |old(popped)| == |pushed| then r == None && popped == old(popped)
              else |old(popped)| < |pushed| && r == Some(pushed[|old(popped)|]) && popped == old(popped) + [r.value]
    {
      hide Inv, Sub64, Inc64, Wrapped;
      ghost var s0 := View();
      ViewFacts(n, s0);
      ghost var s1 := Next(n, s0, CLoadTail);
      StepInv(n, s0, CLoadTail);
      ghost var s2 := Next(n, s1, CLoadHead(|pushed|));
      StepInv(n, s1, CLoadHead(|pushed|));
      EmptyWhen(n, s1, |pushed|);
      var t := tail;
      seenPushes := |pushed|;
      if head == t {
        return None;
      }
      StepInv(n, s2, CRead);
      ReadFacts(n, Next(n, s2, CRead));
      StepInv(n, Next(n, s2, CRead), CStore);
      var v := slots[t % n];
      tail := Inc64(t);
      popped := popped + [v];
      r := Some(v);
    }
  }

  lemma ViewFacts<T>(n: nat, s: Ring<T>)
    requires Inv(n, s)
    ensures n > 0 && |s.slots| == n && s.head == Wrapped(|s.pushed|) && s.tail == Wrapped(|s.popped|)
    ensures s.seenPops <= |s.popped| <= s.seenPushes <= |s.pushed| <= |s.popped| + n
  {
  }

  lemma ReadFacts<T>(n: nat, s: Ring<T>)
    requires Inv(n, s) && s.c.CHas?
    ensures |s.popped| < |s.pushed| && s.c.value == s.pushed[|s.popped|]
  {
  }
}
