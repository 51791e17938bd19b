/** Routing of inbound messages to shards: new orders by symbol, cancels by the shard id in their token. */
module Router {
  import opened Types
  import opened Arith
  import opened PriceTime
  import opened Tokens
  import opened Engine
  import opened Shards

  /** The shard a message goes to, of `n`; None when its type is not routed. */
  function RouteOf(n: nat, m: InMsg): Option<nat>
    requires n > 0
  {
    match m
    case NewMsg(o) => Some(o.symbol % n)
    case CancelMsg(t, _) => Some(TokenShard(t) % n)
    case OtherMsg => None
  }

  /**
   * Where each message goes: to the one shard whose number is congruent modulo `n` to the order's symbol, or to the top
   * byte of the cancel's token; messages of another type to none.
   */
  lemma RouteExact(n: nat, m: InMsg, i: nat)
    requires n > 0
    ensures RouteOf(n, m) == Some(i) <==>
            && i < n
            && ((m.NewMsg? && exists q :: m.order.symbol == q * n + i)
                || (m.CancelMsg? && exists q :: m.token / 0x100_0000_0000_0000 == q * n + i))
  {
    match m
    case NewMsg(o) => Congruent(o.symbol, n, i);
    case CancelMsg(t, _) => Congruent(TokenShard(t), n, i);
    case OtherMsg =>
  }

  lemma Congruent(x: nat, n: nat, i: nat)
    requires n > 0
    ensures x % n == i <==> i < n && exists q :: x == q * n + i
  {
    DivParts(x, n);
    assert x == (x / n) * n + x % n;
    if i < n && exists q :: x == q * n + i {
      var q :| x == q * n + i;
      DivUnique(x, n, q, i);
    }
  }

  /** Every token a shard puts in an Ack for an order routed to it leads a cancel back to that shard. */
  lemma AckLeadsBack(su: Setup, st: State, o: NewOrder, a: OutMsg, n: nat, session: u32)
    requires su.cfg.Valid() && n > 0 && o.symbol % n == su.id
    requires a in NewStep(su, st, o).out && a.AckMsg?
    ensures RouteOf(n, CancelMsg(a.token, session)) == RouteOf(n, NewMsg(o)) == Some(su.id)
  {
    OwnToken(su, st, o, a);
    hide NewStep, TokenShard;
    SmallMod(su.id, n);
  }

  /** An Ack of a new order carries a token of the shard that made it. */
  lemma OwnToken(su: Setup, st: State, o: NewOrder, a: OutMsg)
    requires su.cfg.Valid() && a in NewStep(su, st, o).out && a.AckMsg?
    ensures TokenShard(a.token) == su.id
  {
    hide AddOrder, Reports, ToToken, TokenShard;
    var r := AddOrder(su.cfg, st.arena, st.books[su.LocalBook(o.symbol)], o, MAX_FILLS);
    NoAckInReports(r.fills, o.session);
    if r.handle.Some? {
      RoundTrip(r.handle.value, su.id);
    }
  }

  lemma {:induction false} NoAckInReports(fills: seq<Fill>, session: u32)
    ensures forall m :: m in Reports(fills, session) ==> m.FillMsg?
  {
    if fills != [] {
      NoAckInReports(fills[1..], session);
    }
  }

  /**
   * With shard `i` carrying the low byte of `i` as its id, cancels come back to every shard exactly when there are at
   * most 256.
   */
  lemma AllLeadBack(n: nat, h: Handle)
    requires n > 0
    ensures (forall i: nat :: i < n ==> TokenShard(ToToken(h, i % 256)) % n == i) <==> n <= 256
  {
    hide ToToken, TokenShard;
    forall i: nat ensures TokenShard(ToToken(h, i % 256)) == i % 256 {
      RoundTrip(h, i % 256);
    }
    if n > 256 {
      RoundTrip(h, 0);
      assert 256 % 256 == 0 && 0 % n == 0;
      assert TokenShard(ToToken(h, 256 % 256)) % n != 256;
    } else {
      forall i: nat | i < n ensures TokenShard(ToToken(h, i % 256)) % n == i {
        RoundTrip(h, i);
        SmallMod(i, n);
      }
    }
  }

  lemma SmallMod(i: nat, n: nat)
    requires i < n
    ensures i % n == i
  {
  }

  class ShardRouter {
    const shards: seq<Shard>

    constructor (shards: seq<Shard>)
      ensures this.shards == shards
    {
      this.shards := shards;
    }

    /** Puts the message on the inbound ring of its shard, unless that is full; no other ring changes. */
    method Push(m: InMsg) returns (ok: bool)
      requires |shards| > 0
      requires forall i, j :: 0 <= i < j < |shards| ==> shards[i] != shards[j]
      modifies (set s | s in shards)`inbound
      ensures var r := RouteOf(|shards|, m);
              && (r == None ==> ok)
              && (r.Some? ==> (ok <==> |old(shards[r.value].inbound)| < shards[r.value].queueDepth))
              && forall i :: 0 <= i < |shards| ==>
                   shards[i].inbound
                   == if r == Some(i) && ok then old(shards[i].inbound) + [m] else old(shards[i].inbound)
    {
      var i;
      match m {
        case NewMsg(o) => i := o.symbol % |shards|;
        case CancelMsg(t, _) => i := TokenShard(t) % |shards|;
        case OtherMsg => return true;
      }
      var s := shards[i];
      assert s in shards;
      ok := |s.inbound| < s.queueDepth;
      if ok {
        s.inbound := s.inbound + [m];
      }
    }
  }
}
