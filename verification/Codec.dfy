/** Frame classification by the eight header bytes: length (little-endian), type, flags, session id. */
module Codec {
  import opened Types

  const MIN_FRAME_LEN: nat := 8
  const MAX_FRAME_LEN: nat := 256
  const NEW_ORDER: u8 := 0x02
  const CANCEL_ORDER: u8 := 0x03
  const NEW_ORDER_SIZE: nat := 32
  const CANCEL_ORDER_SIZE: nat := 16

  datatype Decoded = NeedMore | Invalid | Frame(kind: u8, len: nat)

  predicate KnownType(t: u8) {
    t in {0x01, 0x02, 0x03, 0x81, 0x82, 0x83}
  }

  function TryDecode(buf: seq<u8>): (d: Decoded)
    ensures d.Frame? ==> MIN_FRAME_LEN <= d.len <= MAX_FRAME_LEN && d.len <= |buf|
    ensures d == NeedMore ==> |buf| < MAX_FRAME_LEN
  {
    if |buf| < MIN_FRAME_LEN then NeedMore
    else
      var low: nat, high: nat := buf[0], buf[1];
      var len := low + 256 * high;
      if len < MIN_FRAME_LEN || len > MAX_FRAME_LEN then Invalid
      else if !KnownType(buf[2]) then Invalid
      else if |buf| < len then NeedMore
      else Frame(buf[2], len)
  }

  /**
   * What a header says: the first two bytes are the length, low byte first, and the third is the type. Any buffer of
   * three bytes or more is one of these.
   */
  lemma HeaderMeans(n: u16, kind: u8, rest: seq<u8>)
    ensures TryDecode([n % 256, n / 256, kind] + rest)
         == if 3 + |rest| < 8 then NeedMore
            else if n < 8 || 256 < n || kind !in {0x01, 0x02, 0x03, 0x81, 0x82, 0x83} then Invalid
            else if 3 + |rest| < n then NeedMore
            else Frame(kind, n)
  {
    assert n == n % 256 + 256 * (n / 256);
  }

  /** Shorter buffers ask for more. */
  lemma ShortHeader(buf: seq<u8>)
    requires |buf| < 8
    ensures TryDecode(buf) == NeedMore
  {
  }

  /** A header that no frame has: a length outside 8..256 or an unknown type. */
  predicate BadHeader(buf: seq<u8>) {
    |buf| >= 8 &&
    var low: nat, high: nat := buf[0], buf[1];
    !(8 <= low + 256 * high <= 256) || buf[2] !in {0x01, 0x02, 0x03, 0x81, 0x82, 0x83}
  }

  /** A byte string that is one frame, no more and no less. */
  predicate OneFrame(f: seq<u8>) {
    8 <= |f| <= 256 && f[0] == |f| % 256 && f[1] == |f| / 256 && f[2] in {0x01, 0x02, 0x03, 0x81, 0x82, 0x83}
  }

  /**
   * A buffer is rejected for its header, starts with one frame of its length, or is the start of one, never two of
   * these.
   */
  lemma Verdicts(buf: seq<u8>)
    ensures TryDecode(buf) == Invalid <==> BadHeader(buf)
    ensures TryDecode(buf).Frame? ==>
              var d := TryDecode(buf); OneFrame(buf[..d.len]) && d.kind == buf[2]
    ensures forall k :: 0 <= k <= |buf| && OneFrame(buf[..k]) ==> TryDecode(buf) == Frame(buf[2], k)
  {
    forall k | 0 <= k <= |buf| && OneFrame(buf[..k]) ensures TryDecode(buf) == Frame(buf[2], k) {
      assert buf[..k][0] == buf[0] && buf[..k][1] == buf[1] && buf[..k][2] == buf[2];
    }
  }

  /** A verdict on a buffer stands however many bytes follow. */
  lemma VerdictStands(buf: seq<u8>, more: seq<u8>)
    ensures TryDecode(buf) != NeedMore ==> TryDecode(buf + more) == TryDecode(buf)
  {
    if |buf| >= MIN_FRAME_LEN {
      assert forall i :: 0 <= i < MIN_FRAME_LEN ==> (buf + more)[i] == buf[i];
    }
  }
}
