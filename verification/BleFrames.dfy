/** Frames on the BLE link: the encoder, the receive buffer that reassembles
    frames out of arbitrary writes, and the check the frames are handed to. */
module BleFrames {
  import opened Words

  const MAGIC_0: byte := 0x45 // 'E'
  const MAGIC_1: byte := 0x5A // 'Z'
  const HEADER_LEN: nat := 4
  const MAX_PAYLOAD: nat := 512
  const MAX_FRAME: nat := 516
  const RX_BYTES: nat := 1032
  /** The longest single attribute write the claims are about. */
  const MAX_WRITE: nat := 517

  type Bytes = seq<byte>

  function ReadLe16(b: Bytes): nat
    requires |b| >= 2
  {
    b[0] as int + 0x100 * b[1] as int
  }

  /** The encoder; longer payloads are cut to the maximum. */
  function Encode(payload: Bytes): (f: Bytes)
    ensures HEADER_LEN <= |f| <= MAX_FRAME
  {
    var p := if |payload| > MAX_PAYLOAD then payload[..MAX_PAYLOAD] else payload;
    [MAGIC_0, MAGIC_1, |p| % 0x100, |p| / 0x100] + p
  }

  // ---- The frame check -----------------------------------------------------------

  datatype Checked = TooShort | BadMagic | BadLength | Accepted(payload: Bytes)

  function CheckFrame(frame: Bytes): Checked {
    if |frame| < HEADER_LEN then TooShort
    else if frame[0] != MAGIC_0 || frame[1] != MAGIC_1 then BadMagic
    else
      var n := ReadLe16(frame[2..]);
      if n > MAX_PAYLOAD || |frame| != HEADER_LEN + n then BadLength
      else Accepted(frame[HEADER_LEN..])
  }

  /** The check undoes the encoder. */
  lemma CheckUndoesEncode(payload: Bytes)
    ensures CheckFrame(Encode(payload)) == Accepted(if |payload| > MAX_PAYLOAD then payload[..MAX_PAYLOAD] else payload)
  {
    var f := Encode(payload);
    assert f[2..][0] == f[2] && f[2..][1] == f[3];
  }

  /** Exactly encoded payloads are accepted: "EZ", the length in two bytes, the low one first,
      and at most 512 bytes. */
  lemma AcceptedIff(frame: Bytes, payload: Bytes)
    ensures CheckFrame(frame) == Accepted(payload) <==>
      |payload| <= 512 && frame == [0x45, 0x5A, |payload| % 0x100, |payload| / 0x100] + payload
    ensures |payload| <= 512 ==> Encode(payload) == [0x45, 0x5A, |payload| % 0x100, |payload| / 0x100] + payload
  {
    if CheckFrame(frame) == Accepted(payload) {
      assert frame == frame[..4] + payload && frame[2..][0] == frame[2] && frame[2..][1] == frame[3];
    } else if |payload| <= 512 && frame == [0x45, 0x5A, |payload| % 0x100, |payload| / 0x100] + payload {
      CheckUndoesEncode(payload);
    }
  }

  // ---- Reassembly ------------------------------------------------------------------

  /** What the loop does with the buffered bytes. */
  datatype Step = Wait | Discard | Emit(size: nat)

  function NextStep(b: Bytes): (s: Step)
    ensures s.Emit? ==> HEADER_LEN <= s.size <= |b| && s.size <= MAX_FRAME
  {
    if |b| < HEADER_LEN then Wait
    else if b[0] != MAGIC_0 || b[1] != MAGIC_1 then Discard
    else
      var n := ReadLe16(b[2..]);
      if n > MAX_PAYLOAD then Discard
      else if |b| < HEADER_LEN + n then Wait
      else Emit(HEADER_LEN + n)
  }

  /** The frames handed on, and the bytes left in the buffer. */
  datatype Parsed = Parsed(frames: seq<Bytes>, rest: Bytes, clean: bool)

  function Parse(b: Bytes): Parsed {
    match NextStep(b)
    case Wait => Parsed([], b, true)
    case Discard => Parsed([], [], false)
    case Emit(n) =>
      var p := Parse(b[n..]);
      Parsed([b[..n]] + p.frames, p.rest, p.clean)
  }

  /** At most 515 bytes stay behind, whatever came in. */
  lemma {:induction false} RestIsShort(b: Bytes)
    ensures |Parse(b).rest| < MAX_FRAME
    ensures NextStep(Parse(b).rest) == Wait
  {
    match NextStep(b)
    case Wait =>
    case Discard =>
    case Emit(n) => RestIsShort(b[n..]);
  }

  /** Every frame handed on passes the frame check, with the bytes after its
      header as payload. */
  lemma {:induction false} EmittedFramesAreAccepted(b: Bytes)
    ensures forall f :: f in Parse(b).frames ==> |f| >= HEADER_LEN && CheckFrame(f) == Accepted(f[HEADER_LEN..])
  {
    match NextStep(b)
    case Wait =>
    case Discard =>
    case Emit(n) =>
      EmittedFramesAreAccepted(b[n..]);
      var f := b[..n];
      assert f[2..][0] == b[2..][0] && f[2..][1] == b[2..][1];
  }

  /** One write: whether it was taken, what it made complete, what stays. A full
      buffer is dropped first; a write that does not fit is refused. */
  function Receive(b: Bytes, data: Bytes): (bool, Parsed) {
    var kept := if |b| == RX_BYTES then [] else b;
    if |kept| + |data| > RX_BYTES then (false, Parsed([], kept, true))
    else (true, Parse(kept + data))
  }

  /** A write is taken exactly when it fits behind what is buffered; a buffer of 1032 bytes is
      emptied first. What a refused write finds buffered stays. */
  lemma WriteIsTakenIff(b: Bytes, data: Bytes)
    requires |b| <= 1032
    ensures var (taken, p) := Receive(b, data);
      var kept := if |b| < 1032 then b else [];
      && (taken <==> |kept| + |data| <= 1032)
      && (taken ==> p == Parse(kept + data))
      && (!taken ==> p.frames == [] && p.rest == kept && p.clean)
  {
  }

  /** The loop has handed on `done` out of `was` and still buffers `b`. */
  ghost predicate Progress(was: Bytes, done: seq<Bytes>, b: Bytes) {
    Parse(was).frames == done + Parse(b).frames && Parse(was).rest == Parse(b).rest
  }

  lemma EmitMakesProgress(was: Bytes, done: seq<Bytes>, b: Bytes, n: nat)
    requires Progress(was, done, b) && NextStep(b) == Emit(n)
    ensures Progress(was, done + [b[..n]], b[n..])
  {
    assert done + ([b[..n]] + Parse(b[n..]).frames) == done + [b[..n]] + Parse(b[n..]).frames;
  }

  /** One receive channel. `handled` is the sequence of frames given to the frame
      check so far. */
  class Receiver {
    const buf: array<byte>
    var len: nat
    var handled: seq<Bytes>

    ghost predicate Valid()
      reads this, buf
    {
      buf.Length == RX_BYTES && len <= RX_BYTES
    }

    ghost function Buffered(): Bytes
      requires Valid()
      reads this, buf
    {
      buf[..len]
    }

    constructor ()
      ensures Valid() && fresh(buf) && Buffered() == [] && handled == []
    {
      buf := new byte[RX_BYTES](_ => 0);
      len := 0;
      handled := [];
    }

    /** `memmove` of what follows the first `n` buffered bytes. */
    method DropFront(n: nat)
      requires Valid() && n <= len
      modifies this`len, buf
      ensures Valid() && len == old(len) - n && Buffered() == old(Buffered())[n..]
    {
      ghost var was := buf[..];
      len := len - n;
      for k := 0 to len
        modifies buf
        invariant forall j :: 0 <= j < k ==> buf[j] == was[n + j]
        invariant forall j :: k <= j < RX_BYTES ==> buf[j] == was[j]
      {
        buf[k] := buf[n + k];
      }
    }

    /** What the head of the buffer says is to be done. */
    method LookAtHead() returns (s: Step)
      requires Valid() && len >= HEADER_LEN
      ensures s == NextStep(Buffered())
    {
      ghost var b := Buffered();
      if buf[0] != MAGIC_0 || buf[1] != MAGIC_1 {
        return Discard;
      }
      var payloadLen := buf[2] as int + 0x100 * buf[3] as int;
      assert payloadLen == ReadLe16(b[2..]);
      if payloadLen > MAX_PAYLOAD {
        return Discard;
      }
      return if len < HEADER_LEN + payloadLen then Wait else Emit(HEADER_LEN + payloadLen);
    }

    method ProcessRx()
      requires Valid()
      modifies this, buf
      ensures Valid()
      ensures handled == old(handled) + Parse(old(Buffered())).frames
      ensures Buffered() == Parse(old(Buffered())).rest
    {
      ghost var was, done := Buffered(), [];
      while len >= HEADER_LEN
        invariant Valid()
        invariant handled == old(handled) + done
        invariant Progress(was, done, Buffered())
        decreases len
      {
        ghost var b := Buffered();
        var step := LookAtHead();
        if step.Discard? {
          len := 0;
          assert Buffered() == [];
          return;
        }
        if step.Wait? {
          return;
        }
        EmitMakesProgress(was, done, b, step.size);
        var frame := buf[..step.size];
        assert frame == b[..step.size];
        handled := handled + [frame];
        done := done + [frame];
        DropFront(step.size);
      }
    }

    /** One attribute write. The flatten refuses a write that does not fit. */
    method Write(data: Bytes) returns (ok: bool)
      requires Valid()
      modifies this, buf
      ensures Valid()
      ensures (ok, Buffered()) == (Receive(old(Buffered()), data).0, Receive(old(Buffered()), data).1.rest)
      ensures handled == old(handled) + Receive(old(Buffered()), data).1.frames
    {
      var space := RX_BYTES - len;
      if space == 0 {
        len := 0;
        space := RX_BYTES;
      }
      ghost var b := Buffered();
      if |data| > space {
        return false;
      }
      for k := 0 to |data|
        modifies buf
        invariant buf[..len] == b
        invariant buf[len..len + k] == data[..k]
      {
        buf[len + k] := data[k];
      }
      len := len + |data|;
      assert Buffered() == b + data;
      ProcessRx();
      ok := true;
    }
  }

  // ---- Splits do not matter on a clean stream ------------------------------------

  function Concat(ws: seq<Bytes>): Bytes {
    if ws == [] then [] else ws[0] + Concat(ws[1..])
  }

  /** All writes in order: the frames handed on and what stays buffered. */
  function ReceiveAll(b: Bytes, ws: seq<Bytes>): (seq<Bytes>, Bytes)
    decreases ws
  {
    if ws == [] then ([], b)
    else
      var p := Receive(b, ws[0]).1;
      var r := ReceiveAll(p.rest, ws[1..]);
      (p.frames + r.0, r.1)
  }

  /** Bytes that arrive later never change what the loop does next, unless it is
      waiting for them. */
  lemma NextStepIsStable(x: Bytes, y: Bytes)
    requires NextStep(x) != Wait
    ensures NextStep(x + y) == NextStep(x)
  {
    assert (x + y)[2..][0] == x[2..][0] && (x + y)[2..][1] == x[2..][1];
  }

  /** The first frame of `x` comes first however much follows. */
  lemma ParseEmits(x: Bytes, y: Bytes, n: nat)
    requires NextStep(x) == Emit(n)
    ensures var p := Parse(x[n..] + y); Parse(x + y) == Parsed([x[..n]] + p.frames, p.rest, p.clean)
  {
    NextStepIsStable(x, y);
    assert (x + y)[n..] == x[n..] + y && (x + y)[..n] == x[..n];
  }

  /** One parse of everything, `all`, is the parse `p` of a first part and then the
      parse `q` of what that left with the rest. */
  ghost predicate Continues(all: Parsed, p: Parsed, q: Parsed) {
    all.frames == p.frames + q.frames && all.rest == q.rest && all.clean == q.clean
  }

  lemma ContinuesAfterFrame(f: Bytes, all: Parsed, p: Parsed, q: Parsed)
    requires Continues(all, p, q)
    ensures Continues(all.(frames := [f] + all.frames), p.(frames := [f] + p.frames), q)
  {
    assert [f] + (p.frames + q.frames) == [f] + p.frames + q.frames;
  }

  /** A clean first part can be parsed on its own. */
  lemma {:induction false} ParseInTwoParts(x: Bytes, y: Bytes)
    requires Parse(x).clean
    ensures Continues(Parse(x + y), Parse(x), Parse(Parse(x).rest + y))
    decreases |x|
  {
    match NextStep(x)
    case Wait =>
    case Discard =>
    case Emit(n) =>
      ParseEmits(x, y, n);
      ParseInTwoParts(x[n..], y);
      ContinuesAfterFrame(x[..n], Parse(x[n..] + y), Parse(x[n..]), Parse(Parse(x[n..]).rest + y));
  }

  /** After a framing error one parse throws everything away that follows. */
  lemma {:induction false} ErrorSwallowsRest(x: Bytes, y: Bytes)
    requires !Parse(x).clean
    ensures Parse(x + y) == Parse(x) && Parse(x).rest == []
    decreases |x|
  {
    match NextStep(x)
    case Wait =>
    case Discard => NextStepIsStable(x, y);
    case Emit(n) =>
      ParseEmits(x, y, n);
      ErrorSwallowsRest(x[n..], y);
  }

  ghost predicate Writes(ws: seq<Bytes>) {
    forall w :: w in ws ==> |w| <= MAX_WRITE
  }

  ghost predicate AllTaken(b: Bytes, ws: seq<Bytes>)
    decreases ws
  {
    ws == [] || (Receive(b, ws[0]).0 && AllTaken(Receive(b, ws[0]).1.rest, ws[1..]))
  }

  /** For any input at all: no write of at most 517 bytes is ever refused, and at most
      515 bytes stay buffered. */
  lemma {:induction false} BufferNeverFills(b: Bytes, ws: seq<Bytes>)
    requires Writes(ws) && |b| < MAX_FRAME
    ensures |ReceiveAll(b, ws).1| < MAX_FRAME && AllTaken(b, ws)
    decreases ws
  {
    if ws == [] {
    } else {
      assert ws[0] in ws;
      RestIsShort(b + ws[0]);
      BufferNeverFills(Receive(b, ws[0]).1.rest, ws[1..]);
    }
  }

  // ---- When splits do matter --------------------------------------------------------

  /** A write that runs into a framing error delivers the frames before it, and reception
      starts afresh with the next write. */
  lemma ErrorRestartsAtNextWrite(b: Bytes, w: Bytes, ws: seq<Bytes>)
    requires |b| < MAX_FRAME && |w| <= MAX_WRITE && !Parse(b + w).clean
    ensures ReceiveAll(b, [w] + ws) == (Parse(b + w).frames + ReceiveAll([], ws).0, ReceiveAll([], ws).1)
  {
    ErrorSwallowsRest(b + w, []);
    assert ([w] + ws)[1..] == ws;
  }

  /** The writes after the one that hits the error, if any, yield no frame and leave
      nothing. */
  predicate QuietAfterError(b: Bytes, ws: seq<Bytes>)
    decreases ws
  {
    ws != [] &&
    var p := Parse(b + ws[0]);
    if p.clean then QuietAfterError(p.rest, ws[1..]) else ReceiveAll([], ws[1..]) == ([], [])
  }

  lemma Regroup(a: Bytes, b: Bytes, c: Bytes)
    ensures a + (b + c) == (a + b) + c
  {
  }

  lemma FirstWriteOf(b: Bytes, ws: seq<Bytes>)
    requires ws != [] && |b| < MAX_FRAME && |ws[0]| <= MAX_WRITE
    ensures var p, r := Parse(b + ws[0]), ReceiveAll(Parse(b + ws[0]).rest, ws[1..]);
      ReceiveAll(b, ws) == (p.frames + r.0, r.1)
  {
  }

  /** For every stream and every split: the frames handed on and the bytes left are those
      of one parse of the whole stream if and only if the stream has no framing error,
      or the writes after the one that hits it yield no frame and leave nothing. */
  lemma {:induction false} SplitDoesNotMatterIff(b: Bytes, ws: seq<Bytes>)
    requires Writes(ws) && NextStep(b) == Wait && |b| < MAX_FRAME
    ensures var all := Parse(b + Concat(ws));
      ReceiveAll(b, ws) == (all.frames, all.rest) <==> all.clean || QuietAfterError(b, ws)
    decreases ws
  {
    if ws == [] {
      assert b + [] == b;
    } else {
      var x, tail := b + ws[0], Concat(ws[1..]);
      assert ws[0] in ws;
      FirstWriteOf(b, ws);
      Regroup(b, ws[0], tail);
      RestIsShort(x);
      if Parse(x).clean {
        ParseInTwoParts(x, tail);
        SplitDoesNotMatterIff(Parse(x).rest, ws[1..]);
        SamePrefix(Parse(x).frames, ReceiveAll(Parse(x).rest, ws[1..]).0, Parse(Parse(x).rest + tail).frames);
      } else {
        ErrorSwallowsRest(x, tail);
        SamePrefix(Parse(x).frames, ReceiveAll([], ws[1..]).0, []);
        assert Parse(x).frames + [] == Parse(x).frames;
      }
    }
  }

  /** On a stream without framing errors any split into writes hands on the same
      frames and leaves the same bytes as one parse of the whole stream. */
  lemma SplitDoesNotMatter(b: Bytes, ws: seq<Bytes>)
    requires Writes(ws) && NextStep(b) == Wait && |b| < MAX_FRAME
    requires Parse(b + Concat(ws)).clean
    ensures ReceiveAll(b, ws) == (Parse(b + Concat(ws)).frames, Parse(b + Concat(ws)).rest)
  {
    SplitDoesNotMatterIff(b, ws);
  }

  lemma SamePrefix(a: seq<Bytes>, b: seq<Bytes>, c: seq<Bytes>)
    ensures a + b == a + c <==> b == c
  {
    if a + b == a + c {
      assert (a + b)[|a|..] == b && (a + c)[|a|..] == c;
    }
  }

  // ---- Streams of encoded frames ---------------------------------------------------

  function Frames(ps: seq<Bytes>): seq<Bytes> {
    if ps == [] then [] else [Encode(ps[0])] + Frames(ps[1..])
  }

  function Stream(ps: seq<Bytes>): Bytes {
    if ps == [] then [] else Encode(ps[0]) + Stream(ps[1..])
  }

  /** How many of the encoded frames lie wholly in the first `n` bytes. */
  function Complete(ps: seq<Bytes>, n: nat): (k: nat)
    ensures k <= |ps|
  {
    if ps == [] || n < |Encode(ps[0])| then 0 else 1 + Complete(ps[1..], n - |Encode(ps[0])|)
  }

  lemma NextStepOfFrame(payload: Bytes, more: Bytes)
    ensures NextStep(Encode(payload) + more) == Emit(|Encode(payload)|)
  {
    var b := Encode(payload) + more;
    assert b[2..][0] == Encode(payload)[2] && b[2..][1] == Encode(payload)[3];
  }

  lemma NextStepOfPartialFrame(payload: Bytes, b: Bytes)
    requires b < Encode(payload)
    ensures NextStep(b) == Wait
  {
    if |b| >= HEADER_LEN {
      assert b[0] == Encode(payload)[0] && b[1] == Encode(payload)[1];
      assert b[2..][0] == Encode(payload)[2] && b[2..][1] == Encode(payload)[3];
    }
  }

  /** The first `k` frames of the stream are complete in `b`; `rest` is what `b`
      holds of the next one. */
  ghost predicate CutAfter(ps: seq<Bytes>, b: Bytes, k: nat, frames: seq<Bytes>, rest: Bytes) {
    && k <= |ps| && k == Complete(ps, |b|)
    && frames == Frames(ps[..k])
    && b == Stream(ps[..k]) + rest
    && (k < |ps| ==> rest < Encode(ps[k]))
    && (k == |ps| ==> rest == [])
  }

  lemma CutAfterOneMore(ps: seq<Bytes>, more: Bytes, k: nat, frames: seq<Bytes>, rest: Bytes)
    requires ps != [] && CutAfter(ps[1..], more, k, frames, rest)
    ensures CutAfter(ps, Encode(ps[0]) + more, k + 1, [Encode(ps[0])] + frames, rest)
  {
    assert ps[..k + 1][1..] == ps[1..][..k];
    assert Encode(ps[0]) + more == Encode(ps[0]) + Stream(ps[1..][..k]) + rest;
  }

  /** A cut-off stream parses into its complete frames and the incomplete rest. */
  lemma {:induction false} ParseOfStream(ps: seq<Bytes>, b: Bytes)
    requires b <= Stream(ps)
    ensures Parse(b).clean && CutAfter(ps, b, Complete(ps, |b|), Parse(b).frames, Parse(b).rest)
    decreases ps
  {
    if ps == [] {
    } else {
      var f := Encode(ps[0]);
      if |b| < |f| {
        assert b == f[..|b|];
        NextStepOfPartialFrame(ps[0], b);
      } else {
        var more := b[|f|..];
        assert b == f + more && more <= Stream(ps[1..]);
        NextStepOfFrame(ps[0], more);
        assert b[..|f|] == f;
        ParseOfStream(ps[1..], more);
        CutAfterOneMore(ps, more, Complete(ps[1..], |more|), Parse(more).frames, Parse(more).rest);
      }
    }
  }

  /** Any prefix of a stream of encoded frames, cut into writes in any way: the
      frames handed on are exactly the complete ones, in order, and the buffer
      holds exactly the incomplete rest. */
  lemma StreamIsReassembled(ps: seq<Bytes>, ws: seq<Bytes>)
    requires Writes(ws) && Concat(ws) <= Stream(ps)
    ensures var r := ReceiveAll([], ws);
      CutAfter(ps, Concat(ws), Complete(ps, |Concat(ws)|), r.0, r.1)
  {
    assert [] + Concat(ws) == Concat(ws);
    ParseOfStream(ps, Concat(ws));
    SplitDoesNotMatter([], ws);
  }

  /** After a framing error the split does matter: the same bytes in one write
      lose the frame that two writes deliver. */
  lemma GarbageDependsOnSplit(garbage: Bytes, payload: Bytes)
    requires |garbage| == HEADER_LEN && garbage[0] != MAGIC_0
    ensures ReceiveAll([], [garbage + Encode(payload)]).0 == []
    ensures ReceiveAll([], [garbage, Encode(payload)]).0 == [Encode(payload)]
  {
    var f := Encode(payload);
    assert [] + (garbage + f) == garbage + f && [] + garbage == garbage && [] + f == f;
    assert NextStep(garbage + f) == Discard && NextStep(garbage) == Discard;
    NextStepOfFrame(payload, []);
    assert f + [] == f && f[|f|..] == [];
    assert [garbage, f][1..] == [f];
    assert Parse(f) == Parsed([f], [], true);
  }
}
