/** Reassembly of a byte stream into frames, under arbitrary chunking and backpressure. */
module Sessions {
  import opened Types
  import opened Codec

  const RECV_BUF_SIZE: nat := 4096

  // ---------- One-shot parsing ----------

  function LittleEndian(x: u32): seq<u8> {
    [x % 256, x / 0x100 % 256, x / 0x1_0000 % 256, x / 0x100_0000]
  }

  /** A frame with the client's session id overwritten by the server's. */
  function Stamp(frame: seq<u8>, sid: u32): seq<u8>
    requires |frame| >= MIN_FRAME_LEN
  {
    frame[..4] + LittleEndian(sid) + frame[8..]
  }

  /** New orders and cancels of their exact sizes are queued; every other well-formed frame is skipped. */
  predicate Queued(kind: u8, len: nat) {
    (kind == NEW_ORDER && len == NEW_ORDER_SIZE) || (kind == CANCEL_ORDER && len == CANCEL_ORDER_SIZE)
  }

  function Deliver(frame: seq<u8>, kind: u8, sid: u32): seq<seq<u8>>
    requires |frame| >= MIN_FRAME_LEN
  {
    if Queued(kind, |frame|) then [Stamp(frame, sid)] else []
  }

  /** Messages found, bytes used by whole frames, and whether an invalid frame stopped the parse. */
  datatype Parsed = Parsed(msgs: seq<seq<u8>>, used: nat, bad: bool)

  function Parse(s: seq<u8>, sid: u32): (p: Parsed)
    ensures p.used <= |s|
    decreases |s|
  {
    match TryDecode(s)
    case NeedMore => Parsed([], 0, false)
    case Invalid => Parsed([], 0, true)
    case Frame(kind, len) => After(Deliver(s[..len], kind, sid), len, Parse(s[len..], sid))
  }

  /** A parse that follows `used` bytes holding `msgs`. */
  function After(msgs: seq<seq<u8>>, used: nat, p: Parsed): Parsed {
    Parsed(msgs + p.msgs, used + p.used, p.bad)
  }

  /** The session id field of a frame. */
  function SessionField(frame: seq<u8>): nat
    requires |frame| >= MIN_FRAME_LEN
  {
    var b0: nat, b1: nat, b2: nat, b3: nat := frame[4], frame[5], frame[6], frame[7];
    b0 + 0x100 * b1 + 0x1_0000 * b2 + 0x100_0000 * b3
  }

  /** Stamping sets the session id and changes no other byte. */
  lemma StampSets(frame: seq<u8>, sid: u32)
    requires |frame| >= MIN_FRAME_LEN
    ensures var f := Stamp(frame, sid);
            && |f| == |frame| && SessionField(f) == sid
            && f[..4] == frame[..4] && f[8..] == frame[8..]
  {
    var f := Stamp(frame, sid);
    assert f[4..8] == LittleEndian(sid);
    assert f[4] == f[4..8][0] && f[5] == f[4..8][1] && f[6] == f[4..8][2] && f[7] == f[4..8][3];
    BytesOf(sid);
  }

  lemma BytesOf(x: u32)
    ensures x % 256 + 0x100 * (x / 0x100 % 256) + 0x1_0000 * (x / 0x1_0000 % 256) + 0x100_0000 * (x / 0x100_0000) == x
  {
    var y, z := x / 0x100, x / 0x1_0000;
    assert x == 0x100 * y + x % 0x100;
    assert y == 0x100 * z + y % 0x100;
    assert z == 0x100 * (x / 0x100_0000) + z % 0x100;
  }

  function Joined(frames: seq<seq<u8>>): seq<u8> {
    if frames == [] then [] else frames[0] + Joined(frames[1..])
  }

  /** A frame that is an order (32 bytes, type 2) or a cancel (16 bytes, type 3). */
  predicate OrderOrCancel(f: seq<u8>) {
    (|f| == 32 && f[2] == 2) || (|f| == 16 && f[2] == 3)
  }

  /** The orders and cancels among the frames, with bytes 4 to 7 replaced by the session id, low byte first. */
  function Delivered(frames: seq<seq<u8>>, sid: u32): seq<seq<u8>> {
    if frames == [] then []
    else
      var f := frames[0];
      (if OrderOrCancel(f) then
         [f[..4] + [sid % 256, sid / 256 % 256, sid / 0x1_0000 % 256, sid / 0x100_0000] + f[8..]]
       else [])
      + Delivered(frames[1..], sid)
  }

  lemma DeliverOne(f: seq<u8>, sid: u32)
    requires OneFrame(f)
    ensures Deliver(f, f[2], sid)
         == if OrderOrCancel(f) then
              [f[..4] + [sid % 256, sid / 256 % 256, sid / 0x1_0000 % 256, sid / 0x100_0000] + f[8..]]
            else []
  {
  }

  /** The first frame of a stream of whole frames. */
  lemma FirstFrame(frames: seq<seq<u8>>)
    requires frames != [] && OneFrame(frames[0])
    ensures var s := Joined(frames);
            && |frames[0]| <= |s| && TryDecode(s) == Frame(frames[0][2], |frames[0]|)
            && s[..|frames[0]|] == frames[0] && s[|frames[0]|..] == Joined(frames[1..])
  {
    var f, rest := frames[0], Joined(frames[1..]);
    assert (f + rest)[..|f|] == f && (f + rest)[|f|..] == rest && (f + rest)[2] == f[2];
    Verdicts(f + rest);
  }

  /** Round trip: a stream of whole frames parses to exactly the orders and cancels among them, stamped, in order. */
  lemma {:induction false} ParseJoined(frames: seq<seq<u8>>, sid: u32)
    requires forall k :: 0 <= k < |frames| ==> OneFrame(frames[k])
    ensures Parse(Joined(frames), sid) == Parsed(Delivered(frames, sid), |Joined(frames)|, false)
  {
    if frames != [] {
      hide TryDecode, Deliver;
      ParseJoined(frames[1..], sid);
      FirstFrame(frames);
      DeliverOne(frames[0], sid);
      ParseFrame(Joined(frames), sid, frames[0][2], |frames[0]|);
    }
  }

  // ---------- Incremental parsing ----------

  /**
   * Messages pushed, bytes consumed, frames counted, whether the session closes, whether it stopped for lack of bytes.
   */
  datatype Taken = Taken(msgs: seq<seq<u8>>, used: nat, count: nat, bad: bool, starved: bool)

  /** What one pass takes when the queue accepts `room` messages and refuses the next. */
  function Take(s: seq<u8>, sid: u32, room: nat): (t: Taken)
    ensures t.used <= |s| && |t.msgs| <= room
    decreases |s|
  {
    match TryDecode(s)
    case NeedMore => Taken([], 0, 0, false, true)
    case Invalid => Taken([], 0, 0, true, false)
    case Frame(kind, len) =>
      var d := Deliver(s[..len], kind, sid);
      if |d| > room then Taken([], 0, 0, false, false)
      else
        var t := Take(s[len..], sid, room - |d|);
        Taken(d + t.msgs, len + t.used, 1 + t.count, t.bad, t.starved)
  }

  /** A pass with room for them takes all of a stream of whole frames, and counts them. */
  lemma {:induction false} TakeJoined(frames: seq<seq<u8>>, sid: u32, room: nat)
    requires (forall k :: 0 <= k < |frames| ==> OneFrame(frames[k])) && |Delivered(frames, sid)| <= room
    ensures Take(Joined(frames), sid, room)
         == Taken(Delivered(frames, sid), |Joined(frames)|, |frames|, false, true)
  {
    if frames == [] {
      ShortHeader([]);
    } else {
      hide TryDecode, Deliver, OneFrame, OrderOrCancel;
      FirstFrame(frames);
      DeliverOne(frames[0], sid);
      var d := Deliver(frames[0], frames[0][2], sid);
      TakeJoined(frames[1..], sid, room - |d|);
      TakeWhole(Joined(frames), sid, room, frames[0][2], |frames[0]|);
    }
  }

  lemma {:induction false} StopsAt(s: seq<u8>, sid: u32, room: nat)
    ensures var t := Take(s, sid, room);
            var d := TryDecode(s[t.used..]);
            && (t.bad <==> d == Invalid) && (t.starved <==> d == NeedMore)
            && (d.Frame? ==> |t.msgs| == room && Queued(d.kind, d.len))
    decreases |s|
  {
    hide TryDecode;
    var d := TryDecode(s);
    assert s[0..] == s;
    if d.Frame? {
      var front := Deliver(s[..d.len], d.kind, sid);
      if |front| <= room {
        StopsAt(s[d.len..], sid, room - |front|);
        TakeWhole(s, sid, room, d.kind, d.len);
        var u := Take(s[d.len..], sid, room - |front|).used;
        assert s[d.len..][u..] == s[d.len + u..];
      }
    }
  }

  /** An order or a cancel stands at the front, whole. */
  ghost predicate MessageFirst(s: seq<u8>) {
    exists k :: 0 <= k <= |s| && OneFrame(s[..k]) && OrderOrCancel(s[..k])
  }

  ghost predicate FrameFirst(s: seq<u8>) {
    exists k :: 0 <= k <= |s| && OneFrame(s[..k])
  }

  lemma FirstVerdict(s: seq<u8>)
    ensures TryDecode(s).Frame? <==> FrameFirst(s)
    ensures TryDecode(s).Frame? && Queued(TryDecode(s).kind, TryDecode(s).len) <==> MessageFirst(s)
  {
    Verdicts(s);
    var d := TryDecode(s);
    hide TryDecode, OneFrame;
    if d.Frame? {
      assert OneFrame(s[..d.len]) && s[..d.len][2] == s[2];
    }
    forall k | 0 <= k <= |s| && OneFrame(s[..k]) ensures d == Frame(s[2], k) {
    }
  }

  /**
   * Where a pass stops, told by the bytes it leaves: it closes the session exactly at an invalid header, starves
   * exactly where more bytes are needed, and else the queue, having taken its share, refuses the order or cancel that
   * comes first.
   */
  lemma TakeStops(s: seq<u8>, sid: u32, room: nat)
    ensures var t := Take(s, sid, room);
            var rest := s[t.used..];
            && (t.bad <==> BadHeader(rest))
            && (t.starved <==> !BadHeader(rest) && !FrameFirst(rest))
            && (FrameFirst(rest) ==> |t.msgs| == room && MessageFirst(rest))
  {
    StopsAt(s, sid, room);
    var rest := s[Take(s, sid, room).used..];
    Verdicts(rest);
    FirstVerdict(rest);
    hide Take, TryDecode, BadHeader, FrameFirst, MessageFirst;
  }

  lemma AfterAfter(m: seq<seq<u8>>, u: nat, n: seq<seq<u8>>, v: nat, p: Parsed)
    ensures After(m, u, After(n, v, p)) == After(m + n, u + v, p)
  {
  }

  /**
   * Whatever bytes follow, what a pass takes is the front of the one-shot parse, and the rest parses as what it left.
   */
  lemma {:induction false} TakeIsFront(s: seq<u8>, sid: u32, room: nat, more: seq<u8>)
    ensures var t := Take(s, sid, room);
            && Parse(s + more, sid) == After(t.msgs, t.used, Parse(s[t.used..] + more, sid))
            && (t.bad ==> Parse(s[t.used..] + more, sid) == Parsed([], 0, true))
            && (t.starved ==> TryDecode(s[t.used..]) == NeedMore)
    decreases |s|
  {
    hide TryDecode, Deliver;
    var d := TryDecode(s);
    VerdictStands(s, more);
    assert s[0..] == s;
    if d.Frame? {
      var front := Deliver(s[..d.len], d.kind, sid);
      if |front| <= room {
        TakeIsFront(s[d.len..], sid, room - |front|, more);
        FrameThenFront(s, sid, room, more, d.kind, d.len, front);
      }
    }
  }

  lemma ParseFrame(s: seq<u8>, sid: u32, kind: u8, len: nat)
    requires TryDecode(s) == Frame(kind, len)
    ensures MIN_FRAME_LEN <= len <= |s|
    ensures Parse(s, sid) == After(Deliver(s[..len], kind, sid), len, Parse(s[len..], sid))
  {
  }

  lemma TakeWhole(s: seq<u8>, sid: u32, room: nat, kind: u8, len: nat)
    requires TryDecode(s) == Frame(kind, len)
    ensures MIN_FRAME_LEN <= len <= |s|
    ensures var d := Deliver(s[..len], kind, sid);
            |d| <= room ==>
              var t := Take(s[len..], sid, room - |d|);
              Take(s, sid, room) == Taken(d + t.msgs, len + t.used, 1 + t.count, t.bad, t.starved)
  {
  }

  lemma FrameThenFront(s: seq<u8>, sid: u32, room: nat, more: seq<u8>, kind: u8, len: nat, front: seq<seq<u8>>)
    requires TryDecode(s) == TryDecode(s + more) == Frame(kind, len) && len <= |s| && MIN_FRAME_LEN <= len
    requires front == Deliver(s[..len], kind, sid) && |front| <= room
    requires var t := Take(s[len..], sid, room - |front|);
             Parse(s[len..] + more, sid) == After(t.msgs, t.used, Parse(s[len..][t.used..] + more, sid))
    ensures var t, t' := Take(s[len..], sid, room - |front|), Take(s, sid, room);
            && t' == Taken(front + t.msgs, len + t.used, 1 + t.count, t.bad, t.starved)
            && s[t'.used..] == s[len..][t.used..]
            && Parse(s + more, sid) == After(t'.msgs, t'.used, Parse(s[t'.used..] + more, sid))
  {
    hide TryDecode, Deliver, Parse, Take, After;
    var t := Take(s[len..], sid, room - |front|);
    SliceFacts(s, more, len, t.used);
    ParseFrame(s + more, sid, kind, len);
    TakeWhole(s, sid, room, kind, len);
    AfterAfter(front, len, t.msgs, t.used, Parse(s[len + t.used..] + more, sid));
  }

  lemma SliceFacts(s: seq<u8>, more: seq<u8>, len: nat, u: nat)
    requires len <= |s| && len + u <= |s|
    ensures (s + more)[..len] == s[..len] && (s + more)[len..] == s[len..] + more && s[len..][u..] == s[len + u..]
  {
  }

  // ---------- A session's history ----------

  /** Bytes kept so far, messages pushed so far, bytes consumed so far, and whether the session closed. */
  datatype History = History(kept: seq<u8>, sent: seq<seq<u8>>, used: nat, closed: bool) {
    function Buffered(): seq<u8>
      requires used <= |kept|
    {
      kept[used..]
    }
  }

  datatype Op = Append(data: seq<u8>) | Consume(room: nat)

  function Do(h: History, sid: u32, op: Op): (r: History)
    requires h.used <= |h.kept| && |h.Buffered()| <= RECV_BUF_SIZE
    ensures r.used <= |r.kept| && |r.Buffered()| <= RECV_BUF_SIZE
  {
    match op
    case Append(data) =>
      var space := RECV_BUF_SIZE - |h.Buffered()|;
      h.(kept := h.kept + if |data| > space then data[..space] else data)
    case Consume(room) =>
      if h.closed then h
      else
        var t := Take(h.Buffered(), sid, room);
        History(h.kept, h.sent + t.msgs, h.used + t.used, t.bad)
  }

  function Run(sid: u32, ops: seq<Op>): (h: History)
    ensures h.used <= |h.kept| && |h.Buffered()| <= RECV_BUF_SIZE
  {
    if ops == [] then History([], [], 0, false) else Do(Run(sid, ops[..|ops| - 1]), sid, ops[|ops| - 1])
  }

  /** An append keeps the first bytes that fit in 4096 and does nothing else. */
  lemma AppendKeeps(h: History, sid: u32, data: seq<u8>)
    requires h.used <= |h.kept| && |h.Buffered()| <= RECV_BUF_SIZE
    ensures |h.Buffered()| <= 4096
    ensures var space := 4096 - |h.Buffered()|;
            Do(h, sid, Append(data)) == h.(kept := h.kept + data[..if |data| < space then |data| else space])
  {
  }

  /** A pass closes an open session exactly when what it leaves begins with an invalid header. */
  lemma ClosesWhen(h: History, sid: u32, room: nat)
    requires h.used <= |h.kept| && |h.Buffered()| <= RECV_BUF_SIZE && !h.closed
    ensures Do(h, sid, Consume(room)).closed <==> BadHeader(Do(h, sid, Consume(room)).Buffered())
  {
    hide BadHeader, Take;
    TakeStops(h.Buffered(), sid, room);
    var t := Take(h.Buffered(), sid, room);
    assert h.Buffered()[t.used..] == Do(h, sid, Consume(room)).Buffered();
  }

  /** All bytes offered to `append`. */
  function Offered(ops: seq<Op>): seq<u8> {
    if ops == [] then []
    else Offered(ops[..|ops| - 1]) + match ops[|ops| - 1] case Append(data) => data case Consume(_) => []
  }

  /** No append finds the buffer short of room. */
  ghost predicate Fits(sid: u32, ops: seq<Op>) {
    ops == [] ||
    var h, op := Run(sid, ops[..|ops| - 1]), ops[|ops| - 1];
    Fits(sid, ops[..|ops| - 1]) && (op.Append? ==> |op.data| + |h.Buffered()| <= RECV_BUF_SIZE)
  }

  /** The messages sent and bytes used so far are the front of the parse of all bytes kept, whatever follows. */
  ghost predicate Faithful(h: History, sid: u32)
    requires h.used <= |h.kept|
  {
    forall more: seq<u8> {:trigger h.kept + more} ::
      && Parse(h.kept + more, sid) == After(h.sent, h.used, Parse(h.Buffered() + more, sid))
      && (h.closed ==> Parse(h.Buffered() + more, sid) == Parsed([], 0, true))
  }

  lemma DoFaithful(h: History, sid: u32, op: Op)
    requires h.used <= |h.kept| && |h.Buffered()| <= RECV_BUF_SIZE && Faithful(h, sid)
    ensures Faithful(Do(h, sid, op), sid)
  {
    match op
    case Append(data) => AppendFaithful(h, sid, data);
    case Consume(room) => ConsumeFaithful(h, sid, room);
  }

  lemma AppendFaithful(h: History, sid: u32, data: seq<u8>)
    requires h.used <= |h.kept| && |h.Buffered()| <= RECV_BUF_SIZE && Faithful(h, sid)
    ensures Faithful(Do(h, sid, Append(data)), sid)
  {
    hide Parse, After;
    var r := Do(h, sid, Append(data));
    var add := r.kept[|h.kept|..];
    forall more: seq<u8>
      ensures Parse(r.kept + more, sid) == After(r.sent, r.used, Parse(r.Buffered() + more, sid))
      ensures r.closed ==> Parse(r.Buffered() + more, sid) == Parsed([], 0, true)
    {
      assert r.kept + more == h.kept + (add + more);
      assert r.Buffered() + more == h.Buffered() + (add + more);
    }
  }

  lemma ConsumeFaithful(h: History, sid: u32, room: nat)
    requires h.used <= |h.kept| && |h.Buffered()| <= RECV_BUF_SIZE && Faithful(h, sid)
    ensures Faithful(Do(h, sid, Consume(room)), sid)
  {
    if !h.closed {
      hide Parse, After, Take;
      var r, t := Do(h, sid, Consume(room)), Take(h.Buffered(), sid, room);
      forall more: seq<u8>
        ensures Parse(r.kept + more, sid) == After(r.sent, r.used, Parse(r.Buffered() + more, sid))
        ensures r.closed ==> Parse(r.Buffered() + more, sid) == Parsed([], 0, true)
      {
        assert h.kept + more == r.kept + more;
        TakeIsFront(h.Buffered(), sid, room, more);
        assert h.Buffered()[t.used..] == r.Buffered();
        AfterAfter(h.sent, h.used, t.msgs, t.used, Parse(r.Buffered() + more, sid));
      }
    }
  }

  lemma {:induction false} RunFaithful(sid: u32, ops: seq<Op>)
    ensures Faithful(Run(sid, ops), sid)
  {
    if ops == [] {
      forall more: seq<u8> ensures Parse([] + more, sid) == After([], 0, Parse([] + more, sid)) {
      }
    } else {
      RunFaithful(sid, ops[..|ops| - 1]);
      DoFaithful(Run(sid, ops[..|ops| - 1]), sid, ops[|ops| - 1]);
    }
  }

  lemma {:induction false} KeptIsOffered(sid: u32, ops: seq<Op>)
    requires Fits(sid, ops)
    ensures Run(sid, ops).kept == Offered(ops)
  {
    if ops != [] {
      KeptIsOffered(sid, ops[..|ops| - 1]);
    }
  }

  /**
   * Chunking independence: however the stream is split into chunks that fit and however often the queue refuses,
   * the messages sent are a prefix of the one-shot parse of the stream, in order and without repetition or loss; all
   * of them once the session closed; and consumed bytes followed by buffered bytes are the stream.
   */
  lemma ChunkingIndependent(sid: u32, ops: seq<Op>)
    requires Fits(sid, ops)
    ensures var h, p := Run(sid, ops), Parse(Offered(ops), sid);
            && h.sent <= p.msgs && h.used <= p.used
            && Offered(ops) == Offered(ops)[..h.used] + h.Buffered()
            && (h.closed ==> p.bad && h.sent == p.msgs && h.used == p.used)
  {
    hide Parse, Run, Offered, Fits;
    var h := Run(sid, ops);
    RunFaithful(sid, ops);
    KeptIsOffered(sid, ops);
    assert h.kept + [] == h.kept && h.Buffered() + [] == h.Buffered();
    assert Parse(h.kept + [], sid) == After(h.sent, h.used, Parse(h.Buffered() + [], sid));
  }

  /**
   * After a pass that ends for lack of bytes every message among the bytes kept has been sent, and at most 255 bytes
   * are left, whatever was cut off before.
   */
  lemma StarvedPass(sid: u32, ops: seq<Op>, room: nat)
    requires !Run(sid, ops).closed && Take(Run(sid, ops).Buffered(), sid, room).starved
    ensures var h := Run(sid, ops + [Consume(room)]);
            && h.sent == Parse(h.kept, sid).msgs && !Parse(h.kept, sid).bad && !h.closed
            && |h.Buffered()| <= 255 && h.kept == Run(sid, ops).kept
  {
    var all := ops + [Consume(room)];
    assert all[..|all| - 1] == ops;
    var h0, h := Run(sid, ops), Run(sid, all);
    var t := Take(h0.Buffered(), sid, room);
    RunFaithful(sid, all);
    TakeIsFront(h0.Buffered(), sid, room, []);
    StarvedNotBad(h0.Buffered(), sid, room);
    assert h0.Buffered()[t.used..] == h.Buffered();
    assert h.kept + [] == h.kept && h.Buffered() + [] == h.Buffered();
    assert Parse(h.kept + [], sid) == After(h.sent, h.used, Parse(h.Buffered() + [], sid));
  }

  /** When no append was cut off, that is every message of the stream. */
  lemma StarvedSentAll(sid: u32, ops: seq<Op>, room: nat)
    requires Fits(sid, ops) && !Run(sid, ops).closed && Take(Run(sid, ops).Buffered(), sid, room).starved
    ensures Run(sid, ops + [Consume(room)]).sent == Parse(Offered(ops), sid).msgs && !Parse(Offered(ops), sid).bad
  {
    StarvedPass(sid, ops, room);
    KeptIsOffered(sid, ops);
  }

  lemma {:induction false} StarvedNotBad(s: seq<u8>, sid: u32, room: nat)
    ensures Take(s, sid, room).starved ==> !Take(s, sid, room).bad
    decreases |s|
  {
    var d := TryDecode(s);
    if d.Frame? {
      var front := Deliver(s[..d.len], d.kind, sid);
      if |front| <= room {
        StarvedNotBad(s[d.len..], sid, room - |front|);
      }
    }
  }

  /** So the next append of up to 3841 bytes is kept whole, whatever happened before. */
  lemma NextAppendFits(sid: u32, ops: seq<Op>, room: nat, data: seq<u8>)
    requires !Run(sid, ops).closed && Take(Run(sid, ops).Buffered(), sid, room).starved
    requires |data| <= 3841
    ensures Run(sid, ops + [Consume(room)] + [Append(data)]).kept == Run(sid, ops).kept + data
  {
    StarvedPass(sid, ops, room);
    var one := ops + [Consume(room)];
    var two := one + [Append(data)];
    assert one[..|one| - 1] == ops && two[..|two| - 1] == one;
  }

  // ---------- The session object ----------

  class Session {
    const sid: u32
    const recvBuf: array<u8>
    var recvLen: nat
    var closed: bool
    /** The session as its history sees it. */
    ghost var history: History

    ghost predicate Valid()
      reads this, recvBuf
    {
      && recvBuf.Length == RECV_BUF_SIZE && recvLen <= RECV_BUF_SIZE
      && history.used <= |history.kept| && history.closed == closed
      && history.Buffered() == recvBuf[..recvLen]
    }

    constructor (sid: u32)
      ensures Valid() && this.sid == sid && history == Run(sid, []) && fresh(recvBuf)
    {
      this.sid := sid;
      recvBuf := new u8[RECV_BUF_SIZE](_ => 0);
      recvLen, closed, history := 0, false, History([], [], 0, false);
    }

    /** Buffers the bytes that fit and drops the rest. */
    method Append(data: seq<u8>)
      requires Valid()
      modifies this, recvBuf
      ensures Valid() && history == Do(old(history), sid, Op.Append(data))
    {
      var len := |data|;
      if len > RECV_BUF_SIZE - recvLen {
        len := RECV_BUF_SIZE - recvLen;
      }
      forall i | 0 <= i < len {
        recvBuf[recvLen + i] := data[i];
      }
      history := Do(history, sid, Op.Append(data));
      recvLen := recvLen + len;
      assert recvBuf[..old(recvLen)] == old(recvBuf[..recvLen]);
      assert recvBuf[old(recvLen)..recvLen] == data[..len];
      assert recvBuf[..recvLen] == recvBuf[..old(recvLen)] + recvBuf[old(recvLen)..recvLen];
    }

    /**
     * The decoding loop: what one pass over the buffer takes. `room` is the number of pushes accepted before a refusal.
     */
    method Scan(room: nat) returns (consumed: nat, count: nat, pushed: seq<seq<u8>>, bad: bool)
      requires Valid()
      ensures var t := Take(recvBuf[..recvLen], sid, room);
              pushed == t.msgs && consumed == t.used && count == t.count && bad == t.bad
    {
      hide TryDecode, Deliver, Take, Stamp, Resumed;
      consumed, count, pushed, bad := 0, 0, [], false;
      ghost var buf := recvBuf[..recvLen];
      ghost var t := Take(buf, sid, room);
      assert buf[0..] == buf;
      ResumedEnds([], 0, 0, t);
      while true
        invariant consumed <= recvLen && |pushed| <= room && !bad
        invariant t == Resumed(pushed, consumed, count, Take(buf[consumed..], sid, room - |pushed|))
        decreases recvLen - consumed
      {
        var d := TryDecode(recvBuf[consumed..recvLen]);
        assert recvBuf[consumed..recvLen] == buf[consumed..];
        ghost var rest := Take(buf[consumed..], sid, room - |pushed|);
        TakeFrame(buf[consumed..], sid, room - |pushed|);
        ResumedEnds(pushed, consumed, count, rest);
        if d == NeedMore {
          break;
        }
        if d == Invalid {
          bad := true;
          break;
        }
        var frame := recvBuf[consumed..consumed + d.len];
        assert frame == buf[consumed..][..d.len] && buf[consumed..][d.len..] == buf[consumed + d.len..];
        if Queued(d.kind, d.len) {
          if |pushed| == room {
            break;
          }
          ghost var after := Take(buf[consumed + d.len..], sid, room - |pushed| - 1);
          ResumedTwice(pushed, consumed, count, [Stamp(frame, sid)], d.len, after);
          pushed := pushed + [Stamp(frame, sid)];
        } else {
          ResumedTwice(pushed, consumed, count, [], d.len, Take(buf[consumed + d.len..], sid, room - |pushed|));
          assert pushed + [] == pushed;
        }
        consumed := consumed + d.len;
        count := count + 1;
      }
    }

    /** One pass over the buffer, which then moves the bytes it left to the front. */
    method Consume(room: nat) returns (count: nat, pushed: seq<seq<u8>>)
      requires Valid()
      modifies this, recvBuf
      ensures Valid() && history == Do(old(history), sid, Op.Consume(room))
      ensures history.sent == old(history.sent) + pushed
      ensures count == if old(closed) then 0 else Take(old(recvBuf[..recvLen]), sid, room).count
    {
      hide Take;
      count, pushed := 0, [];
      if closed {
        return;
      }
      ghost var buf := recvBuf[..recvLen];
      var consumed;
      consumed, count, pushed, closed := Scan(room);
      history := Do(history, sid, Op.Consume(room));
      if consumed > 0 {
        forall i | 0 <= i < recvLen - consumed {
          recvBuf[i] := recvBuf[consumed + i];
        }
        recvLen := recvLen - consumed;
      }
      assert recvBuf[..recvLen] == buf[consumed..];
    }
  }

  /** The first frame of a pass. */
  lemma TakeFrame(s: seq<u8>, sid: u32, room: nat)
    ensures var d, t := TryDecode(s), Take(s, sid, room);
            match d
            case NeedMore => t == Taken([], 0, 0, false, true)
            case Invalid => t == Taken([], 0, 0, true, false)
            case Frame(kind, len) =>
              if Queued(kind, len) then
                if room == 0 then t == Taken([], 0, 0, false, false)
                else t == Resumed([Stamp(s[..len], sid)], len, 1, Take(s[len..], sid, room - 1))
              else t == Resumed([], len, 1, Take(s[len..], sid, room))
  {
  }

  /** A pass resumed after `count` frames of `used` bytes that gave `msgs`. */
  function Resumed(msgs: seq<seq<u8>>, used: nat, count: nat, t: Taken): Taken {
    Taken(msgs + t.msgs, used + t.used, count + t.count, t.bad, t.starved)
  }

  lemma ResumedTwice(m: seq<seq<u8>>, u: nat, c: nat, n: seq<seq<u8>>, v: nat, t: Taken)
    ensures Resumed(m, u, c, Resumed(n, v, 1, t)) == Resumed(m + n, u + v, c + 1, t)
  {
  }

  lemma ResumedEnds(m: seq<seq<u8>>, u: nat, c: nat, t: Taken)
    ensures t.msgs == [] && t.used == t.count == 0 ==> Resumed(m, u, c, t) == Taken(m, u, c, t.bad, t.starved)
    ensures m == [] && u == c == 0 ==> Resumed(m, u, c, t) == t
  {
  }
}
