/** Packet buffers: how one buffer is laid out in wrapping 32-bit arithmetic, and the
    double-ended byte buffer that the data area then is. */
module Mmpkt {
  import opened Words

  const MARKER: u32 := 0xFFFF_FFFF

  // ---- Layout --------------------------------------------------------------------------

  /** Unsigned 32-bit addition and subtraction. */
  function Add(x: u32, y: u32): u32 {
    if x + y >= WORD32 then x + y - WORD32 else x + y
  }

  function Sub(x: u32, y: u32): u32 {
    if x < y then x - y + WORD32 else x - y
  }

  function Floor4(x: u32): u32 {
    x - x % 4
  }

  /** `((x - 1) | 3) + 1` on 32-bit words. */
  function RoundUp4(x: u32): u32 {
    Add(Floor4(Sub(x, 1)) + 3, 1)
  }

  /** The word read as a two's complement number. */
  function Signed(x: u32): int {
    if x >= 0x8000_0000 then x - WORD32 else x
  }

  /** Offsets from the start of the buffer; the data area starts after the header. */
  datatype Layout = Layout(header: u32, data: u32, metadata: u32, start: u32)

  /** Bytes of the packet structure on the 32-bit target, without and with the debug
      word. */
  predicate IsStructSize(n: nat) {
    n == 28 || n == 32
  }

  function DataLength(bufLen: u32, header: u32, start: u32, end: u32, metadata: u32): Option<u32> {
    if end != MARKER then Some(RoundUp4(Add(start, end)))
    else
      var data := Floor4(Sub(Sub(bufLen, header), metadata));
      if Signed(data) < Signed(start) then None else Some(data)
  }

  function Init(structSize: u32, bufLen: u32, start: u32, end: u32, metadataSize: u32): Option<Layout> {
    var header, metadata := RoundUp4(structSize), RoundUp4(metadataSize);
    match DataLength(bufLen, header, start, end, metadata)
    case None => None
    case Some(data) =>
      if Add(Add(header, data), metadata) > bufLen then None
      else Some(Layout(header, data, metadata, start))
  }

  /** Header, data and metadata follow each other, word aligned, inside the buffer;
      there is the room that was asked for at both ends. */
  predicate Good(l: Layout, structSize: u32, bufLen: u32, start: u32, end: u32, metadataSize: u32) {
    && structSize <= l.header && metadataSize <= l.metadata
    && l.header % 4 == 0 && l.data % 4 == 0 && l.metadata % 4 == 0
    && l.header + l.data + l.metadata <= bufLen
    && l.start == start
    && (if end == MARKER then start <= l.data else start + end <= l.data)
  }

  /** Four words further, less what the last one already fills. */
  lemma RoundUpBelow(x: u32, q: nat, r: nat)
    requires x > 0 && r < 4 && x - 1 == 4 * q + r
    ensures RoundUp4(x) == if 4 * q + 4 < WORD32 then 4 * q + 4 else 0
  {
    assert (x - 1) % 4 == r;
  }

  lemma GapTo32Bits(x: u32, q: nat, r: nat)
    requires x > 0 && r < 4 && x - 1 == 4 * q + r
    ensures (WORD32 - x) % 4 == 3 - r
  {
    assert WORD32 - x == 4 * (WORD32 / 4 - q - 1) + (3 - r);
  }

  lemma RoundUpPositive(x: u32, q: nat, r: nat)
    requires x > 0 && r < 4 && x - 1 == 4 * q + r
    ensures RoundUp4(x) == if x <= WORD32 - 4 then x + 3 - r else 0
    ensures x <= WORD32 - 4 ==> RoundUp4(x) == 4 * (q + 1)
  {
    RoundUpBelow(x, q, r);
  }

  lemma RoundUpIs(x: u32)
    ensures RoundUp4(x) == if x <= WORD32 - 4 then x + (WORD32 - x) % 4 else 0
    ensures RoundUp4(x) % 4 == 0
    ensures x <= WORD32 - 4 ==> x <= RoundUp4(x) < x + 4
  {
    if x == 0 {
      assert RoundUp4(0) == 0;
    } else {
      var q, r := (x - 1) / 4, (x - 1) % 4;
      assert x - 1 == 4 * q + r;
      RoundUpPositive(x, q, r);
      GapTo32Bits(x, q, r);
      assert (4 * (q + 1)) % 4 == 0;
    }
  }

  predicate Moderate(bufLen: u32, start: u32, end: u32, metadataSize: u32) {
    && bufLen < 0x8000_0000 && start < 0x4000_0000 && metadataSize < 0x4000_0000
    && (end == MARKER || end < 0x4000_0000)
  }

  /** Room for everything, computed without wrap-around. */
  predicate Fits(structSize: u32, bufLen: u32, start: u32, end: u32, metadataSize: u32) {
    var fixed := RoundUp4(structSize) + RoundUp4(metadataSize);
    fixed <= bufLen && if end == MARKER then start <= Floor4(bufLen - fixed)
    else start + end <= Floor4(bufLen - fixed)
  }

  /** Rounding up fits exactly when the size itself fits a whole number of words. */
  lemma RoundUpFits(x: u32, room: u32)
    requires x <= WORD32 - 4
    ensures RoundUp4(x) <= room <==> x <= Floor4(room)
  {
    RoundUpIs(x);
    var q, r, k := room / 4, room % 4, RoundUp4(x) / 4;
    assert room == 4 * q + r && RoundUp4(x) == 4 * k;
  }

  lemma WordsWithin(structSize: u32, metadataSize: u32)
    requires IsStructSize(structSize) && metadataSize < 0x4000_0000
    ensures RoundUp4(structSize) == structSize && metadataSize <= RoundUp4(metadataSize) <= 0x4000_0000
    ensures RoundUp4(metadataSize) % 4 == 0
  {
    RoundUpIs(structSize);
    RoundUpIs(metadataSize);
  }

  /** What becomes of a request without the marker. */
  lemma InitSized(structSize: u32, bufLen: u32, start: u32, end: u32, metadataSize: u32)
    requires IsStructSize(structSize) && Moderate(bufLen, start, end, metadataSize) && end != MARKER
    ensures var header, data, metadata := RoundUp4(structSize), RoundUp4(start + end), RoundUp4(metadataSize);
      Init(structSize, bufLen, start, end, metadataSize) ==
        if header + data + metadata <= bufLen then Some(Layout(header, data, metadata, start)) else None
  {
    WordsWithin(structSize, metadataSize);
    RoundUpIs(start + end);
  }

  /** With the marker, a buffer too short for header and metadata shows as a negative
      length. */
  lemma InitMarked(structSize: u32, bufLen: u32, start: u32, metadataSize: u32)
    requires IsStructSize(structSize) && Moderate(bufLen, start, MARKER, metadataSize)
    ensures var header, metadata := RoundUp4(structSize), RoundUp4(metadataSize);
      var room := bufLen - header - metadata;
      Init(structSize, bufLen, start, MARKER, metadataSize) ==
        if 0 <= room && start <= Floor4(room) then Some(Layout(header, Floor4(room), metadata, start)) else None
  {
    WordsWithin(structSize, metadataSize);
  }

  lemma SizedLayoutIsGood(structSize: u32, bufLen: u32, start: u32, end: u32, metadataSize: u32)
    requires IsStructSize(structSize) && metadataSize < 0x4000_0000 && start + end <= WORD32 - 4 && end != MARKER
    requires RoundUp4(structSize) + RoundUp4(start + end) + RoundUp4(metadataSize) <= bufLen
    ensures Good(Layout(RoundUp4(structSize), RoundUp4(start + end), RoundUp4(metadataSize), start),
                 structSize, bufLen, start, end, metadataSize)
  {
    var header, data, metadata := RoundUp4(structSize), RoundUp4(start + end), RoundUp4(metadataSize);
    assert structSize <= header && header % 4 == 0 && metadataSize <= metadata && metadata % 4 == 0 by {
      WordsWithin(structSize, metadataSize);
    }
    assert start + end <= data && data % 4 == 0 by {
      RoundUpIs(start + end);
    }
    GoodWhen(header, data, metadata, structSize, bufLen, start, end, metadataSize);
  }

  lemma GoodWhen(header: u32, data: u32, metadata: u32, structSize: u32, bufLen: u32, start: u32, end: u32, metadataSize: u32)
    requires structSize <= header && header % 4 == 0 && metadataSize <= metadata && metadata % 4 == 0
    requires start + end <= data && data % 4 == 0 && header + data + metadata <= bufLen && end != MARKER
    ensures Good(Layout(header, data, metadata, start), structSize, bufLen, start, end, metadataSize)
  {
  }

  lemma SizedFitsIff(structSize: u32, bufLen: u32, start: u32, end: u32, metadataSize: u32)
    requires IsStructSize(structSize) && metadataSize < 0x4000_0000 && start + end <= WORD32 - 4 && end != MARKER
    ensures Fits(structSize, bufLen, start, end, metadataSize) <==>
      RoundUp4(structSize) + RoundUp4(start + end) + RoundUp4(metadataSize) <= bufLen
  {
    var fixed := RoundUp4(structSize) + RoundUp4(metadataSize);
    if fixed <= bufLen {
      RoundUpFits(start + end, bufLen - fixed);
    }
  }

  lemma SizedIsGood(structSize: u32, bufLen: u32, start: u32, end: u32, metadataSize: u32, l: Option<Layout>)
    requires IsStructSize(structSize) && Moderate(bufLen, start, end, metadataSize) && end != MARKER
    requires l == Init(structSize, bufLen, start, end, metadataSize)
    ensures l.Some? <==> Fits(structSize, bufLen, start, end, metadataSize)
    ensures l.Some? ==> Good(l.value, structSize, bufLen, start, end, metadataSize)
  {
    InitSized(structSize, bufLen, start, end, metadataSize);
    SizedFitsIff(structSize, bufLen, start, end, metadataSize);
    if l.Some? {
      SizedLayoutIsGood(structSize, bufLen, start, end, metadataSize);
    }
  }

  lemma FilledIsGood(structSize: u32, bufLen: u32, start: u32, metadataSize: u32, room: u32)
    requires IsStructSize(structSize) && metadataSize < 0x4000_0000
    requires RoundUp4(structSize) + RoundUp4(metadataSize) + room == bufLen && start <= Floor4(room)
    ensures var l := Layout(RoundUp4(structSize), Floor4(room), RoundUp4(metadataSize), start);
      Good(l, structSize, bufLen, start, MARKER, metadataSize) && bufLen < l.header + l.data + l.metadata + 4
  {
    WordsWithin(structSize, metadataSize);
  }

  lemma MarkedIsGood(structSize: u32, bufLen: u32, start: u32, metadataSize: u32, l: Option<Layout>)
    requires IsStructSize(structSize) && Moderate(bufLen, start, MARKER, metadataSize)
    requires l == Init(structSize, bufLen, start, MARKER, metadataSize)
    ensures l.Some? <==> Fits(structSize, bufLen, start, MARKER, metadataSize)
    ensures l.Some? ==> Good(l.value, structSize, bufLen, start, MARKER, metadataSize)
    ensures l.Some? ==> bufLen < l.value.header + l.value.data + l.value.metadata + 4
  {
    InitMarked(structSize, bufLen, start, metadataSize);
    var room := bufLen - RoundUp4(structSize) - RoundUp4(metadataSize);
    if 0 <= room && start <= Floor4(room) {
      FilledIsGood(structSize, bufLen, start, metadataSize, room);
    }
  }

  /** A packet is made exactly when everything fits, and then the layout is good; with
      the marker it uses the whole buffer. */
  lemma InitIsGood(structSize: u32, bufLen: u32, start: u32, end: u32, metadataSize: u32)
    requires IsStructSize(structSize) && Moderate(bufLen, start, end, metadataSize)
    ensures var l := Init(structSize, bufLen, start, end, metadataSize);
      && (l.Some? <==> Fits(structSize, bufLen, start, end, metadataSize))
      && (l.Some? ==> Good(l.value, structSize, bufLen, start, end, metadataSize))
      && (l.Some? && end == MARKER ==> bufLen < l.value.header + l.value.data + l.value.metadata + 4)
  {
    if end == MARKER {
      MarkedIsGood(structSize, bufLen, start, metadataSize, Init(structSize, bufLen, start, end, metadataSize));
    } else {
      SizedIsGood(structSize, bufLen, start, end, metadataSize, Init(structSize, bufLen, start, end, metadataSize));
    }
  }

  /** Without the marker an accepted request is laid out well exactly when none of its
      sums leaves 32 bits. */
  predicate NoWrap(structSize: u32, start: u32, end: u32, metadataSize: u32) {
    && start + end <= WORD32 - 4 && metadataSize <= WORD32 - 4
    && RoundUp4(structSize) + RoundUp4(Add(start, end)) + RoundUp4(metadataSize) < WORD32
  }

  lemma AcceptedIsGoodIff(structSize: u32, bufLen: u32, start: u32, end: u32, metadataSize: u32)
    requires IsStructSize(structSize) && end != MARKER
    requires Init(structSize, bufLen, start, end, metadataSize).Some?
    ensures Good(Init(structSize, bufLen, start, end, metadataSize).value, structSize, bufLen, start, end, metadataSize)
      <==> NoWrap(structSize, start, end, metadataSize)
  {
    RoundUpIs(structSize);
    RoundUpIs(metadataSize);
    RoundUpIs(Add(start, end));
  }

  /** With the marker an accepted request is laid out well exactly when header and
      metadata fit, and the room at the start is not so large that only the data length
      reads as a positive number. */
  predicate MarkedNoWrap(structSize: u32, bufLen: u32, start: u32, metadataSize: u32) {
    && metadataSize <= WORD32 - 4
    && var fixed := RoundUp4(structSize) + RoundUp4(metadataSize);
    && fixed <= bufLen
    && (start < 0x8000_0000 || bufLen - fixed >= 0x8000_0000)
  }

  lemma MarkedAcceptedIsGoodIff(structSize: u32, bufLen: u32, start: u32, metadataSize: u32)
    requires IsStructSize(structSize)
    requires Init(structSize, bufLen, start, MARKER, metadataSize).Some?
    ensures Good(Init(structSize, bufLen, start, MARKER, metadataSize).value, structSize, bufLen, start, MARKER, metadataSize)
      <==> MarkedNoWrap(structSize, bufLen, start, metadataSize)
  {
    RoundUpIs(structSize);
    RoundUpIs(metadataSize);
    MarkedData(structSize, bufLen, metadataSize);
  }

  lemma MarkedData(structSize: u32, bufLen: u32, metadataSize: u32)
    requires IsStructSize(structSize)
    ensures var header, metadata := RoundUp4(structSize), RoundUp4(metadataSize);
      header + metadata <= bufLen ==>
        Floor4(Sub(Sub(bufLen, header), metadata)) == Floor4(bufLen - header - metadata)
        && (Floor4(bufLen - header - metadata) < 0x8000_0000 <==> bufLen - header - metadata < 0x8000_0000)
  {
    RoundUpIs(structSize);
    RoundUpIs(metadataSize);
  }

  /** An accepted request whose layout holds together, for any 32-bit sizes. */
  predicate Sane(structSize: u32, bufLen: u32, start: u32, end: u32, metadataSize: u32) {
    if end == MARKER then MarkedNoWrap(structSize, bufLen, start, metadataSize)
    else NoWrap(structSize, start, end, metadataSize)
  }

  lemma SaneIsGoodIff(structSize: u32, bufLen: u32, start: u32, end: u32, metadataSize: u32)
    requires IsStructSize(structSize) && Init(structSize, bufLen, start, end, metadataSize).Some?
    ensures Good(Init(structSize, bufLen, start, end, metadataSize).value, structSize, bufLen, start, end, metadataSize)
      <==> Sane(structSize, bufLen, start, end, metadataSize)
  {
    if end == MARKER {
      MarkedAcceptedIsGoodIff(structSize, bufLen, start, metadataSize);
    } else {
      AcceptedIsGoodIff(structSize, bufLen, start, end, metadataSize);
    }
  }

  /** A request that wraps is accepted with less room than it asked for. */
  lemma WrappedRequestIsAccepted()
    ensures Init(28, 64, 0xFFFF_FFFC, 8, 0) == Some(Layout(28, 4, 0, 0xFFFF_FFFC))
    ensures !Good(Layout(28, 4, 0, 0xFFFF_FFFC), 28, 64, 0xFFFF_FFFC, 8, 0)
  {
  }

  // ---- The data area as a deque ------------------------------------------------------------

  type Bytes = seq<byte>

  /** Free room in front, the data, free room behind. */
  datatype View = View(front: nat, bytes: Bytes, back: nat)

  function Size(v: View): nat {
    v.front + |v.bytes| + v.back
  }

  datatype Op = Prepend(data: Bytes) | Append(data: Bytes) | RemoveFromStart(n: nat) | RemoveFromEnd(n: nat) | Truncate(n: nat)

  /** What the assertions of the source ask of the caller. */
  predicate Allowed(v: View, op: Op) {
    match op
    case Prepend(data) => |data| <= v.front
    case Append(data) => |data| <= v.back
    case Truncate(n) => n <= |v.bytes|
    case _ => true
  }

  function Do(v: View, op: Op): View {
    match op
    case Prepend(data) => if |data| <= v.front then View(v.front - |data|, data + v.bytes, v.back) else v
    case Append(data) => if |data| <= v.back then View(v.front, v.bytes + data, v.back - |data|) else v
    case RemoveFromStart(n) => if n <= |v.bytes| then View(v.front + n, v.bytes[n..], v.back) else v
    case RemoveFromEnd(n) => if n <= |v.bytes| then View(v.front, v.bytes[..|v.bytes| - n], v.back + n) else v
    case Truncate(n) => if n <= |v.bytes| then View(v.front, v.bytes[..n], v.back + |v.bytes| - n) else v
  }

  /** The buffer after `data` was copied to `at`. */
  ghost predicate Copied(m: Bytes, m': Bytes, at: nat, data: Bytes) {
    && |m| == |m'| && at + |data| <= |m|
    && m'[..at] == m[..at] && m'[at..at + |data|] == data && m'[at + |data|..] == m[at + |data|..]
  }

  method CopyInto(mem: array<byte>, at: nat, data: Bytes)
    requires at + |data| <= mem.Length
    modifies mem
    ensures Copied(old(mem[..]), mem[..], at, data)
  {
    forall i | 0 <= i < |data| {
      mem[at + i] := data[i];
    }
  }

  lemma CopiedByIndex(m: Bytes, m': Bytes, at: nat, data: Bytes)
    requires Copied(m, m', at, data)
    ensures forall i :: 0 <= i < |m| && !(at <= i < at + |data|) ==> m'[i] == m[i]
  {
    forall i | 0 <= i < |m| && !(at <= i < at + |data|)
      ensures m'[i] == m[i]
    {
      if i < at {
        assert m'[..at][i] == m[..at][i];
      } else {
        assert m'[at + |data|..][i - at - |data|] == m[at + |data|..][i - at - |data|];
      }
    }
  }

  lemma SliceOfDrop(m: Bytes, n: nat, size: nat)
    requires n + size <= |m|
    ensures m[n..n + size] == m[n..][..size]
  {
  }

  lemma SliceOfTake(m: Bytes, at: nat, n: nat)
    requires at <= n <= |m|
    ensures m[at..n] == m[..n][at..]
  {
  }

  lemma SliceJoins(m: Bytes, at: nat, n: nat, end: nat)
    requires at <= n <= end <= |m|
    ensures m[at..end] == m[at..n] + m[n..end]
  {
  }

  /** A view cut in two. */
  lemma SliceSplits(m: Bytes, at: nat, size: nat, n: nat)
    requires n <= size && at + size <= |m|
    ensures m[at..at + size][..n] == m[at..at + n] && m[at..at + size][n..] == m[at + n..at + size]
  {
  }

  lemma SliceOfPrepend(m: Bytes, m': Bytes, at: nat, data: Bytes, size: nat)
    requires Copied(m, m', at, data) && at + |data| + size <= |m|
    ensures m'[at..at + |data| + size] == data + m[at + |data|..at + |data| + size]
  {
    var n := at + |data|;
    SliceOfDrop(m, n, size);
    SliceOfDrop(m', n, size);
    SliceJoins(m', at, n, n + size);
  }

  lemma SliceOfAppend(m: Bytes, m': Bytes, at: nat, data: Bytes, size: nat)
    requires Copied(m, m', at + size, data)
    ensures m'[at..at + size + |data|] == m[at..at + size] + data
  {
    var n := at + size;
    SliceOfTake(m, at, n);
    SliceOfTake(m', at, n);
    SliceJoins(m', at, n, n + |data|);
  }

  class Packet {
    const mem: array<byte>
    const base: nat
    const bufLen: nat
    var startOffset: nat
    var dataLen: nat

    ghost predicate Valid()
      reads this
    {
      base + bufLen <= mem.Length && startOffset + dataLen <= bufLen
    }

    ghost function Contents(): View
      requires Valid()
      reads this, mem
    {
      var at := base + startOffset;
      View(startOffset, mem[at..at + dataLen], bufLen - startOffset - dataLen)
    }

    constructor (mem: array<byte>, base: nat, bufLen: nat, startOffset: nat)
      requires base + bufLen <= mem.Length && startOffset <= bufLen
      ensures this.mem == mem && this.base == base && this.bufLen == bufLen
      ensures Valid() && Contents() == View(startOffset, [], bufLen - startOffset)
    {
      this.mem, this.base, this.bufLen := mem, base, bufLen;
      this.startOffset, this.dataLen := startOffset, 0;
    }

    method PrependData(data: Bytes)
      requires Valid() && Allowed(Contents(), Prepend(data))
      modifies this`startOffset, this`dataLen, mem
      ensures Valid() && Contents() == Do(old(Contents()), Prepend(data))
      ensures forall i :: 0 <= i < mem.Length && !(base <= i < base + bufLen) ==> mem[i] == old(mem[i])
    {
      ghost var was, size := mem[..], dataLen;
      startOffset := startOffset - |data|;
      dataLen := dataLen + |data|;
      var at := base + startOffset;
      CopyInto(mem, at, data);
      SliceOfPrepend(was, mem[..], at, data, size);
      CopiedByIndex(was, mem[..], at, data);
    }

    method AppendData(data: Bytes)
      requires Valid() && Allowed(Contents(), Append(data))
      modifies this`dataLen, mem
      ensures Valid() && Contents() == Do(old(Contents()), Append(data))
      ensures forall i :: 0 <= i < mem.Length && !(base <= i < base + bufLen) ==> mem[i] == old(mem[i])
    {
      ghost var was, size := mem[..], dataLen;
      var end := base + startOffset + dataLen;
      dataLen := dataLen + |data|;
      CopyInto(mem, end, data);
      SliceOfAppend(was, mem[..], base + startOffset, data, size);
      CopiedByIndex(was, mem[..], end, data);
    }

    /** The removed bytes, which stay where they were, or nothing. */
    method Shift(n: nat) returns (removed: Option<Bytes>)
      requires Valid()
      modifies this`startOffset, this`dataLen
      ensures Valid() && Contents() == Do(old(Contents()), RemoveFromStart(n))
      ensures removed == if n <= |old(Contents()).bytes| then Some(old(Contents()).bytes[..n]) else None
    {
      if dataLen < n {
        return None;
      }
      var at := base + startOffset;
      SliceSplits(mem[..], at, dataLen, n);
      removed := Some(mem[at..at + n]);
      startOffset := startOffset + n;
      dataLen := dataLen - n;
    }

    method Pop(n: nat) returns (removed: Option<Bytes>)
      requires Valid()
      modifies this`dataLen
      ensures Valid() && Contents() == Do(old(Contents()), RemoveFromEnd(n))
      ensures removed == if n <= |old(Contents()).bytes|
        then Some(old(Contents()).bytes[|old(Contents()).bytes| - n..]) else None
    {
      if dataLen < n {
        return None;
      }
      var end := base + startOffset + dataLen;
      SliceSplits(mem[..], base + startOffset, dataLen, dataLen - n);
      removed := Some(mem[end - n..end]);
      dataLen := dataLen - n;
    }

    method TruncateTo(n: nat)
      requires Valid() && Allowed(Contents(), Truncate(n))
      modifies this`dataLen
      ensures Valid() && Contents() == Do(old(Contents()), Truncate(n))
    {
      SliceSplits(mem[..], base + startOffset, dataLen, n);
      dataLen := n;
    }
  }

  method PlanLayout(structSize: u32, bufLen: u32, start: u32, end: u32, metadataSize: u32) returns (l: Option<Layout>)
    ensures l == Init(structSize, bufLen, start, end, metadataSize)
  {
    var header, metadata := RoundUp4(structSize), RoundUp4(metadataSize);
    var data;
    if end != MARKER {
      data := RoundUp4(Add(start, end));
    } else {
      data := Floor4(Sub(Sub(bufLen, header), metadata));
      if Signed(data) < Signed(start) {
        return None;
      }
    }
    if Add(Add(header, data), metadata) > bufLen {
      return None;
    }
    return Some(Layout(header, data, metadata, start));
  }

  /** `memset` of `n` bytes to zero. */
  method Clear(mem: array<byte>, at: nat, n: nat)
    requires at + n <= mem.Length
    modifies mem
    ensures forall i :: at <= i < at + n ==> mem[i] == 0
  {
    forall i | at <= i < at + n {
      mem[i] := 0;
    }
  }

  /** Make a packet in a buffer; its metadata area is cleared. A request that is accepted
      though its sizes wrap would write outside the buffer; only that is excluded. */
  method InitBuf(mem: array<byte>, structSize: u32, start: u32, end: u32, metadataSize: u32)
    returns (p: Packet?, l: Option<Layout>)
    requires IsStructSize(structSize) && mem.Length < WORD32
    requires Init(structSize, mem.Length, start, end, metadataSize).Some? ==> Sane(structSize, mem.Length, start, end, metadataSize)
    modifies mem
    ensures l == Init(structSize, mem.Length, start, end, metadataSize) && (p != null <==> l.Some?)
    ensures p != null ==> p.mem == mem && p.base == l.value.header && p.bufLen == l.value.data && p.Valid()
    ensures p != null ==> p.Contents() == View(start, [], p.bufLen - start)
    ensures p != null ==> p.base + p.bufLen + l.value.metadata <= mem.Length
    ensures p != null ==> forall i | p.base + p.bufLen <= i < p.base + p.bufLen + l.value.metadata :: mem[i] == 0
    ensures p == null ==> mem[..] == old(mem[..])
  {
    l := PlanLayout(structSize, mem.Length, start, end, metadataSize);
    if l.None? {
      return null, l;
    }
    SaneIsGoodIff(structSize, mem.Length, start, end, metadataSize);
    p := new Packet(mem, l.value.header, l.value.data, start);
    Clear(mem, l.value.header + l.value.data, l.value.metadata);
    assert p.Contents().bytes == [];
  }

  // ---- Runs -------------------------------------------------------------------------------

  function Run(v: View, ops: seq<Op>): View
    decreases ops
  {
    if ops == [] then v else Run(Do(v, ops[0]), ops[1..])
  }

  predicate AllAllowed(v: View, ops: seq<Op>)
    decreases ops
  {
    ops == [] || (Allowed(v, ops[0]) && AllAllowed(Do(v, ops[0]), ops[1..]))
  }

  /** The reference: a byte deque without a buffer around it. */
  function Deque(bytes: Bytes, op: Op): Bytes {
    match op
    case Prepend(data) => data + bytes
    case Append(data) => bytes + data
    case RemoveFromStart(n) => if n <= |bytes| then bytes[n..] else bytes
    case RemoveFromEnd(n) => if n <= |bytes| then bytes[..|bytes| - n] else bytes
    case Truncate(n) => if n <= |bytes| then bytes[..n] else bytes
  }

  function RunDeque(bytes: Bytes, ops: seq<Op>): Bytes
    decreases ops
  {
    if ops == [] then bytes else RunDeque(Deque(bytes, ops[0]), ops[1..])
  }

  /** Every run within capacity is the run of the deque, and no room is ever lost. */
  lemma {:induction false} RunRefinesDeque(v: View, ops: seq<Op>)
    requires AllAllowed(v, ops)
    ensures Run(v, ops).bytes == RunDeque(v.bytes, ops)
    ensures Size(Run(v, ops)) == Size(v)
    decreases ops
  {
    if ops == [] {
    } else {
      RunRefinesDeque(Do(v, ops[0]), ops[1..]);
    }
  }

  /** Prepending the headers of a protocol stack, innermost first. */
  function Wrapping(headers: seq<Bytes>): seq<Op> {
    seq(|headers|, i requires 0 <= i < |headers| => Prepend(headers[i]))
  }

  /** Taking them off again, outermost first. */
  function Unwrapping(headers: seq<Bytes>): seq<Op> {
    seq(|headers|, i requires 0 <= i < |headers| => RemoveFromStart(|headers[|headers| - 1 - i]|))
  }

  function TotalLength(headers: seq<Bytes>): nat {
    if headers == [] then 0 else |headers[0]| + TotalLength(headers[1..])
  }

  lemma {:induction false} RunSplits(v: View, a: seq<Op>, b: seq<Op>)
    ensures Run(v, a + b) == Run(Run(v, a), b)
    decreases a
  {
    if a == [] {
      assert a + b == b;
    } else {
      assert (a + b)[1..] == a[1..] + b;
      RunSplits(Do(v, a[0]), a[1..], b);
    }
  }

  /** Headers that fit in the room reserved in front go on and come off again without
      a trace: offsets, data and room are what they were. */
  lemma {:induction false} HeadersComeOff(v: View, headers: seq<Bytes>)
    requires TotalLength(headers) <= v.front
    ensures Run(v, Wrapping(headers) + Unwrapping(headers)) == v
    decreases headers
  {
    if headers == [] {
      assert Wrapping(headers) + Unwrapping(headers) == [];
    } else {
      var inner, rest := Prepend(headers[0]), headers[1..];
      var last := RemoveFromStart(|headers[0]|);
      var middle := Wrapping(rest) + Unwrapping(rest);
      var ops := Wrapping(headers) + Unwrapping(headers);
      assert ops == [inner] + middle + [last];
      HeadersComeOff(Do(v, inner), rest);
      RunSplits(v, [inner] + middle, [last]);
      RunSplits(v, [inner], middle);
      assert Run(v, [inner]) == Do(v, inner);
      assert Do(Do(v, inner), last) == v;
    }
  }
}
