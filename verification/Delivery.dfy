/**
 * The shard's output over its outbound ring. A shard pushes the messages of a tick one after the other, each again and
 * again until the ring takes it, while the gateway pops at its own pace.
 */
module Delivery {
  import opened Types
  import opened Engine
  import opened Spsc

  /**
   * From `acts` on the producer pushes the messages of `out` in order: whenever it begins a push, it is of the first
   * one the ring has not taken yet.
   */
  ghost predicate Follows<T>(n: nat, slots: seq<T>, acts: seq<Action<T>>, more: seq<Action<T>>, out: seq<T>)
    requires n > 0
  {
    more == [] ||
    var t, a := After(n, slots, acts + more[..|more| - 1]), more[|more| - 1];
    && Follows(n, slots, acts, more[..|more| - 1], out)
    && (a.PLoadHead? && Enabled(n, t, a) ==>
          var done := |t.pushed| - |After(n, slots, acts).pushed|;
          0 <= done < |out| && a.value == out[done])
  }

  /** How far the producer is inside a push. */
  function Stage<T>(p: Producer<T>): nat {
    match p
    case PIdle => 0
    case PStarted(_, _) => 1
    case PClear(_, _) => 2
    case PWrote(_, _) => 3
  }

  /** The producer's steps among `more`. */
  function Labour<T>(n: nat, slots: seq<T>, acts: seq<Action<T>>, more: seq<Action<T>>): nat
    requires n > 0
  {
    if more == [] then 0
    else
      var t, a := After(n, slots, acts + more[..|more| - 1]), more[|more| - 1];
      Labour(n, slots, acts, more[..|more| - 1])
      + if Enabled(n, t, a) && (a.PLoadHead? || a.PLoadTail? || a.PWrite? || a.PStore?) then 1 else 0
  }

  /** Between the start `s` and `t` the front of `out` was pushed, and the next of it is being pushed. */
  ghost predicate Underway<T>(s: Ring<T>, t: Ring<T>, out: seq<T>) {
    var done := |t.pushed| - |s.pushed|;
    && 0 <= done <= |out| && t.pushed == s.pushed + out[..done]
    && (!t.p.PIdle? ==> done < |out| && t.p.value == out[done])
  }

  lemma UnderwayNext<T>(n: nat, s: Ring<T>, t: Ring<T>, out: seq<T>, a: Action<T>)
    requires n > 0 && Underway(s, t, out) && Enabled(n, t, a)
    requires a.PLoadHead? ==> |t.pushed| - |s.pushed| < |out| && a.value == out[|t.pushed| - |s.pushed|]
    ensures Underway(s, Next(n, t, a), out)
  {
    if a.PStore? {
      var done := |t.pushed| - |s.pushed|;
      assert out[..done + 1] == out[..done] + [out[done]];
    }
  }

  /**
   * However often the ring is full, what reaches it is the front of `out`, in order, nothing lost and nothing twice.
   */
  lemma {:induction false} PushedInOrder<T>(n: nat, slots: seq<T>, acts: seq<Action<T>>, more: seq<Action<T>>,
                                            out: seq<T>)
    requires n > 0 && After(n, slots, acts).p.PIdle? && Follows(n, slots, acts, more, out)
    ensures Underway(After(n, slots, acts), After(n, slots, acts + more), out)
  {
    var s := After(n, slots, acts);
    if more == [] {
      assert acts + more == acts && s.pushed + out[..0] == s.pushed;
    } else {
      var t, a := After(n, slots, acts + more[..|more| - 1]), more[|more| - 1];
      PushedInOrder(n, slots, acts, more[..|more| - 1], out);
      AfterMore(n, slots, acts, more);
      hide After, Next, Underway;
      if Enabled(n, t, a) {
        UnderwayNext(n, s, t, out, a);
      }
    }
  }

  /** In every interleaving the gateway receives a front of what the shard emits for its messages, in order. */
  lemma ReceivedInOrder(su: Setup, st: State, ms: seq<InMsg>, n: nat, slots: seq<OutMsg>, acts: seq<Action<OutMsg>>)
    requires su.cfg.Valid() && Size(n) && n > 0 && |slots| == n
    requires Follows(n, slots, [], acts, Feed(su, st, ms).out)
    ensures After(n, slots, acts).popped <= After(n, slots, acts).pushed <= Feed(su, st, ms).out
  {
    PushedInOrder(n, slots, [], acts, Feed(su, st, ms).out);
    Spsc.Safe(n, slots, acts);
    assert [] + acts == acts;
    hide After, Feed;
  }

  /** One more producer step is one stage further, when the ring is not full. */
  lemma StageNext<T>(n: nat, t: Ring<T>, a: Action<T>)
    requires n > 0 && Enabled(n, t, a) && (a.PLoadTail? ==> Next(n, t, a).p.PClear?)
    ensures var u := Next(n, t, a);
            4 * |u.pushed| + Stage(u.p)
            == 4 * |t.pushed| + Stage(t.p) + if a.PLoadHead? || a.PLoadTail? || a.PWrite? || a.PStore? then 1 else 0
  {
  }

  /**
   * With as many places free as `out` has messages, as far as the producer has seen, no push is tried twice: in every
   * interleaving each message takes its four steps and no more.
   */
  lemma {:induction false} NoRetry<T>(n: nat, slots: seq<T>, acts: seq<Action<T>>, more: seq<Action<T>>, out: seq<T>)
    requires Size(n) && n > 0 && |slots| == n && After(n, slots, acts).p.PIdle? && Follows(n, slots, acts, more, out)
    requires var s := After(n, slots, acts); |s.pushed| + |out| <= s.seenPops + n
    ensures var s, t := After(n, slots, acts), After(n, slots, acts + more);
            4 * |s.pushed| + Labour(n, slots, acts, more) == 4 * |t.pushed| + Stage(t.p)
  {
    var s := After(n, slots, acts);
    if more == [] {
      assert acts + more == acts;
    } else {
      var more', a := more[..|more| - 1], more[|more| - 1];
      var t := After(n, slots, acts + more');
      NoRetry(n, slots, acts, more', out);
      PushedInOrder(n, slots, acts, more', out);
      AfterMore(n, slots, acts, more);
      if Enabled(n, t, a) {
        if a.PLoadTail? {
          RoomForPushes(n, slots, acts, more', |out|, a.pops);
        }
        StageNext(n, t, a);
      }
      hide After, Next, Stage, Size, Follows;
    }
  }

  /**
   * A shard that starts a tick with 129 places free, as far as it has seen, never waits for the gateway: in every
   * interleaving what it pushes is the front of the state machine's output for the message, at four steps a message.
   */
  lemma TickNeverWaits(su: Setup, st: State, m: InMsg, n: nat, slots: seq<OutMsg>,
                       acts: seq<Action<OutMsg>>, more: seq<Action<OutMsg>>)
    requires su.cfg.Valid() && Size(n) && n > 0 && |slots| == n
    requires var s := After(n, slots, acts); s.p.PIdle? && |s.pushed| + 129 <= s.seenPops + n
    requires Follows(n, slots, acts, more, Step(su, st, m).out)
    ensures var s, t := After(n, slots, acts), After(n, slots, acts + more);
            && Underway(s, t, Step(su, st, m).out)
            && 4 * |s.pushed| + Labour(n, slots, acts, more) == 4 * |t.pushed| + Stage(t.p)
  {
    StepOutputBound(su, st, m);
    hide Step, After, Follows, Underway, Labour;
    PushedInOrder(n, slots, acts, more, Step(su, st, m).out);
    NoRetry(n, slots, acts, more, Step(su, st, m).out);
  }
}
