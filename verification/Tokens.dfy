/** Cancel tokens: shard in bits 63:56, generation in 55:24, slot in 23:0. */
module Tokens {
  import opened Types

  const TWO56: nat := 0x100_0000_0000_0000

  function ToToken(h: Handle, shard: u8): (t: u64)
  {
    shard * TWO56 + h.gen * TWO24 + h.slot % TWO24
  }

  function FromToken(t: u64): Handle {
    Handle(t % TWO24, t / TWO24 % TWO32)
  }

  function TokenShard(t: u64): u8 {
    t / TWO56
  }

  lemma Fields(h: Handle, shard: u8)
    ensures FromToken(ToToken(h, shard)) == Handle(h.slot % TWO24, h.gen) && TokenShard(ToToken(h, shard)) == shard
  {
    var t := ToToken(h, shard);
    var low := h.slot % TWO24;
    assert t == TWO24 * (shard * TWO32 + h.gen) + low;
    assert t / TWO24 == shard * TWO32 + h.gen;
  }

  /** A token gives back its handle exactly when the slot fits in 24 bits; the shard always comes back. */
  lemma RoundTrip(h: Handle, shard: u8)
    ensures FromToken(ToToken(h, shard)) == h <==> h.slot < TWO24
    ensures TokenShard(ToToken(h, shard)) == shard
  {
    Fields(h, shard);
  }

  /** Where the fields are: shard in bits 63:56, generation in bits 55:24, the low 24 bits of the slot in bits 23:0. */
  lemma TokenLayout(h: Handle, shard: u8)
    ensures var t := ToToken(h, shard);
            && t / 0x100_0000_0000_0000 == shard
            && t / 0x100_0000 % 0x1_0000_0000 == h.gen
            && t % 0x100_0000 == h.slot % 0x100_0000
  {
    Fields(h, shard);
  }

  /** Every 64-bit value is the token of the handle and shard it is read as. */
  lemma TokenBack(t: u64)
    ensures ToToken(FromToken(t), TokenShard(t)) == t
  {
    var a := t / TWO24;
    assert t == TWO24 * a + t % TWO24;
    assert a == TWO32 * (a / TWO32) + a % TWO32;
    assert a / TWO32 == t / TWO56;
  }

  /** Two handles share a token exactly when shard, generation and the low 24 bits of the slot are the same. */
  lemma SameToken(h: Handle, k: Handle, s: u8, t: u8)
    ensures ToToken(h, s) == ToToken(k, t) <==> s == t && h.gen == k.gen && h.slot % TWO24 == k.slot % TWO24
  {
    Fields(h, s);
    Fields(k, t);
  }
}
