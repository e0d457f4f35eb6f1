/** What a transfer sends: the chunk bodies still owed by the engine, and why a
    receiver that places them by index gets the snapshot back. */
module PullChunks {
  import opened Words
  import opened PullEngine

  datatype Body = Body(total: u16, index: u16, data: Bytes)

  function BodyOf(c: Chunk): Body {
    Body(c.total, c.index, c.data)
  }

  function BodiesOf(cs: seq<Chunk>): (r: seq<Body>)
    ensures |r| == |cs|
    ensures forall i :: 0 <= i < |cs| ==> r[i] == BodyOf(cs[i])
  {
    seq(|cs|, i requires 0 <= i < |cs| => BodyOf(cs[i]))
  }

  function ChunkCount(length: nat): nat {
    (length + CHUNK_SIZE - 1) / CHUNK_SIZE
  }

  /** The bodies still to be sent between two offsets of the snapshot. */
  function Rest(d: Bytes, next: nat, end: nat, sequence: nat): seq<Body>
    requires end <= |d| < WORD32
    decreases end - next
  {
    if next >= end then []
    else
      var n := Min(end - next, CHUNK_SIZE);
      [Body(TotalChunks(|d|), sequence % WORD16, d[next..next + n])] + Rest(d, next + n, end, sequence + 1)
  }

  /** A target is being served out of a snapshot the engine has pinned. */
  ghost predicate Serving(e: Engine) {
    && WellFormed(e)
    && e.active && e.acquired && e.data.Some? && e.length > 0
    && e.targetCount == 1 && e.targetIndex == 0
    && !Finished(e.targets[0])
    && e.targets[0].chunkSequence < WORD32 - 1 - ChunkCount(e.targets[0].endOffset - e.targets[0].nextOffset)
  }

  ghost function Owed(e: Engine): seq<Body>
    requires WellFormed(e) && e.data.Some? && e.targetCount >= 1 && e.targets[0].active
  {
    var t := e.targets[0];
    Rest(e.data.value, t.nextOffset, t.endOffset, t.chunkSequence)
  }

  /** A plan names a non-empty part of the snapshot. */
  lemma PlanIsInside(q: Request, length: u32, p: Plan)
    requires length > 0 && PlanFor(q, length) == Some(p)
    ensures p.startOffset < p.endOffset <= length
    ensures p.chunkSequence + ChunkCount(p.endOffset - p.startOffset) < WORD32 - 1
  {
  }

  lemma InstallServes(e: Engine, data: Bytes, q: Request, nextHop: u64, p: Plan)
    requires 0 < |data| < WORD32 && PlanFor(q, |data|) == Some(p)
    ensures Serving(Install(e, data, q, nextHop, p)) && Install(e, data, q, nextHop, p).completed == 0
    ensures Owed(Install(e, data, q, nextHop, p)) == Rest(data, p.startOffset, p.endOffset, p.chunkSequence)
  {
    PlanIsInside(q, |data|, p);
  }

  /** The target is named, its next chunk `p` has been copied, and its sequence
      number already counts that chunk. */
  ghost predicate InFlight(e: Engine, p: Prepared) {
    && p.Send? && WellFormed(e) && e.active && e.acquired && e.data.Some? && e.length > 0
    && e.targetCount == 1 && e.targetIndex == 0
    && var t := e.targets[0];
    && t.active && t.nextOffset < t.endOffset
    && (t.idHigh != 0 || t.idLow != 0)
    && 1 <= t.chunkSequence < WORD32 - ChunkCount(t.endOffset - t.nextOffset)
    && p.offset == t.nextOffset && p.size == Min(t.endOffset - t.nextOffset, CHUNK_SIZE)
    && p.chunk == Chunk(t.dest, t.nextHop, t.idHigh, t.idLow, t.chunkSequence, GroupOf(t), TotalChunks(e.length),
                        (t.chunkSequence - 1) % WORD16, e.data.value[p.offset..p.offset + p.size])
  }

  ghost function OwedInFlight(e: Engine, p: Prepared): seq<Body>
    requires InFlight(e, p)
  {
    var t := e.targets[0];
    Rest(e.data.value, t.nextOffset, t.endOffset, t.chunkSequence - 1)
  }

  /** What the worker does for the one target. */
  lemma PrepareServing(e: Engine, high: u64, low: u64)
    requires Serving(e) && (high != 0 || low != 0)
    ensures var t := Named(e.targets[0], high, low);
      var n, sequence := Min(t.endOffset - t.nextOffset, CHUNK_SIZE), t.chunkSequence + 1;
      && sequence < WORD32 && t.nextOffset + n <= |e.data.value|
      && Prepare(e, high, low) == (
           e.(targets := e.targets[0 := t.(chunkSequence := sequence)]),
           Send(Chunk(t.dest, t.nextHop, t.idHigh, t.idLow, sequence, GroupOf(t), TotalChunks(e.length),
                      (sequence - 1) % WORD16, e.data.value[t.nextOffset..t.nextOffset + n]),
                t.nextOffset, n))
  {
    assert Skip(e.targets, 0, 1) == (e.targets, 0);
  }

  lemma CopyIsInFlight(e: Engine, high: u64, low: u64)
    requires Serving(e) && (high != 0 || low != 0)
    ensures var (e', p) := Prepare(e, high, low);
      InFlight(e', p) && e'.data == e.data && e'.targets[0].nextOffset == e.targets[0].nextOffset
      && e'.targets[0].endOffset == e.targets[0].endOffset && e'.targets[0].chunkSequence == e.targets[0].chunkSequence + 1
  {
    PrepareServing(e, high, low);
  }

  /** The worker's copy is the first body owed, taken from the pinned snapshot. */
  lemma PrepareSendsFirstOwed(e: Engine, high: u64, low: u64)
    requires Serving(e) && (high != 0 || low != 0)
    ensures var (e', p) := Prepare(e, high, low);
      && InFlight(e', p) && OwedInFlight(e', p) == Owed(e)
      && Owed(e) != [] && BodyOf(p.chunk) == Owed(e)[0]
  {
    CopyIsInFlight(e, high, low);
    var t := e.targets[0];
    RestAt(e.data.value, t.nextOffset, t.endOffset, t.chunkSequence, 0);
  }

  /** The chunk goes to the target through its next hop, under the message id of the
      transfer; it files its body in the group that was asked for, else in one named by
      the low half of that id. */
  lemma PrepareLabelsChunk(e: Engine, high: u64, low: u64)
    requires Serving(e) && (high != 0 || low != 0)
    ensures var (e', p) := Prepare(e, high, low);
      var t, unnamed := e.targets[0], e.targets[0].idHigh == 0 && e.targets[0].idLow == 0;
      && p.Send? && p.chunk.dest == t.dest && p.chunk.nextHop == t.nextHop
      && p.chunk.idHigh == (if unnamed then high else t.idHigh) && p.chunk.idLow == (if unnamed then low else t.idLow)
      && p.chunk.sequence == t.chunkSequence + 1
      && p.chunk.group == (if t.group != 0 then t.group else if unnamed then low else t.idLow)
      && e'.targets[0] == t.(idHigh := p.chunk.idHigh, idLow := p.chunk.idLow, chunkSequence := p.chunk.sequence)
  {
    PrepareServing(e, high, low);
  }

  /** A successful send pays exactly one body, and the transfer is complete
      exactly when that was the last one. */
  lemma CommitPaysFirstOwed(e: Engine, p: Prepared)
    requires InFlight(e, p)
    ensures OwedInFlight(e, p) != [] && BodyOf(p.chunk) == OwedInFlight(e, p)[0]
    ensures var (e', progress) := CommitSent(e, p.offset, p.size);
      if |OwedInFlight(e, p)| == 1 then progress == Complete && e'.active && e'.acquired
      else
        && progress == MoreToSend && Serving(e')
        && Owed(e') == OwedInFlight(e, p)[1..]
        && e'.targets[0] == e.targets[0].(nextOffset := p.offset + p.size)
  {
    var t := e.targets[0];
    RestAt(e.data.value, t.nextOffset, t.endOffset, t.chunkSequence - 1, 0);
  }

  /** Sending the chunk in flight moves one body from "owed" to "sent". */
  lemma SendMovesOneBody(e: Engine, p: Prepared, sent: seq<Chunk>, planned: seq<Body>)
    requires InFlight(e, p) && planned == BodiesOf(sent) + OwedInFlight(e, p)
    ensures var (e', progress) := CommitSent(e, p.offset, p.size);
      && (progress == Complete ==> BodiesOf(sent + [p.chunk]) == planned && e'.active && e'.acquired)
      && (progress != Complete ==>
            && progress == MoreToSend && Serving(e')
            && planned == BodiesOf(sent + [p.chunk]) + Owed(e')
            && e'.targets[0] == e.targets[0].(nextOffset := p.offset + p.size))
  {
    CommitPaysFirstOwed(e, p);
    var owed := OwedInFlight(e, p);
    assert BodiesOf(sent + [p.chunk]) == BodiesOf(sent) + [owed[0]];
    assert owed == [owed[0]] + owed[1..];
  }

  // ---- The content of a transfer -------------------------------------------

  lemma CountStep(n: nat)
    requires n > 0
    ensures ChunkCount(n) == 1 + ChunkCount(n - Min(n, CHUNK_SIZE))
  {
  }

  lemma CountCovers(n: nat, k: nat)
    ensures k < ChunkCount(n) <==> CHUNK_SIZE * k < n
  {
  }

  lemma {:induction false} RestCount(d: Bytes, next: nat, end: nat, sequence: nat)
    requires next <= end <= |d| < WORD32
    ensures |Rest(d, next, end, sequence)| == ChunkCount(end - next)
    decreases end - next
  {
    if next == end {
    } else {
      CountStep(end - next);
      RestCount(d, next + Min(end - next, CHUNK_SIZE), end, sequence + 1);
    }
  }

  function BodyAt(d: Bytes, from: nat, end: nat, number: nat): Body
    requires from < end <= |d| < WORD32
  {
    Body(TotalChunks(|d|), number % WORD16, d[from..Min(from + CHUNK_SIZE, end)])
  }

  /** Body `k` of what is owed, by position. */
  lemma {:induction false} RestAt(d: Bytes, next: nat, end: nat, sequence: nat, k: nat)
    requires next <= end <= |d| < WORD32
    ensures |Rest(d, next, end, sequence)| == ChunkCount(end - next)
    ensures k < ChunkCount(end - next) ==>
      next + CHUNK_SIZE * k < end && Rest(d, next, end, sequence)[k] == BodyAt(d, next + CHUNK_SIZE * k, end, sequence + k)
    decreases k
  {
    RestCount(d, next, end, sequence);
    CountCovers(end - next, k);
    if k == 0 {
    } else if k < ChunkCount(end - next) {
      CountStep(end - next);
      RestAt(d, next + CHUNK_SIZE, end, sequence + 1, k - 1);
    }
  }

  function Concat(bs: seq<Body>): Bytes {
    if bs == [] then [] else bs[0].data + Concat(bs[1..])
  }

  lemma {:induction false} RestConcatenates(d: Bytes, next: nat, end: nat, sequence: nat)
    requires next <= end <= |d| < WORD32
    ensures Concat(Rest(d, next, end, sequence)) == d[next..end]
    decreases end - next
  {
    if next == end {
    } else {
      var n := Min(end - next, CHUNK_SIZE);
      RestConcatenates(d, next + n, end, sequence + 1);
      assert d[next..end] == d[next..next + n] + d[next + n..end];
    }
  }

  /** Placing each body at 220 times its own index gives back `d`. */
  ghost predicate Rebuilds(bs: seq<Body>, d: Bytes) {
    && (forall k :: 0 <= k < |bs| ==> bs[k].index == k)
    && (forall i :: 0 <= i < |d| ==> ByteAt(bs, i, d[i]))
    && Concat(bs) == d
  }

  ghost predicate ByteAt(bs: seq<Body>, i: nat, b: byte) {
    var k, o := i / CHUNK_SIZE, i % CHUNK_SIZE;
    k < |bs| && o < |bs[k].data| && bs[k].data[o] == b
  }

  lemma WhereByteIs(n: nat, i: nat)
    requires i < n
    ensures var k := i / CHUNK_SIZE;
      k < ChunkCount(n) && CHUNK_SIZE * k <= i < Min(CHUNK_SIZE * k + CHUNK_SIZE, n) && i % CHUNK_SIZE == i - CHUNK_SIZE * k
  {
    CountCovers(n, i / CHUNK_SIZE);
  }

  /** Byte `i` of the snapshot travels in body `i / 220`. */
  lemma FullPullCarriesByte(d: Bytes, i: nat)
    requires i < |d| < WORD32
    ensures ByteAt(Rest(d, 0, |d|, 0), i, d[i])
  {
    var k := i / CHUNK_SIZE;
    WhereByteIs(|d|, i);
    RestAt(d, 0, |d|, 0, k);
    var body := BodyAt(d, CHUNK_SIZE * k, |d|, k);
    assert body.data[i - CHUNK_SIZE * k] == d[i];
  }

  lemma FullPullNumbersBody(d: Bytes, k: nat)
    requires |d| <= 65535 * CHUNK_SIZE && k < |Rest(d, 0, |d|, 0)|
    ensures Rest(d, 0, |d|, 0)[k].index == k
  {
    RestAt(d, 0, |d|, 0, k);
    assert k < 65535;
  }

  lemma FullPullRebuilds(d: Bytes)
    requires 0 < |d| <= 65535 * CHUNK_SIZE
    ensures Rebuilds(Rest(d, 0, |d|, 0), d)
  {
    var bs := Rest(d, 0, |d|, 0);
    assert Concat(bs) == d by {
      RestConcatenates(d, 0, |d|, 0);
      assert d[0..|d|] == d;
    }
    forall k | 0 <= k < |bs|
      ensures bs[k].index == k
    {
      FullPullNumbersBody(d, k);
    }
    forall i | 0 <= i < |d|
      ensures ByteAt(bs, i, d[i])
    {
      FullPullCarriesByte(d, i);
    }
  }

  lemma CountIsRightIff(length: u32)
    requires length > 0
    ensures TotalChunks(length) == ChunkCount(length) <==> length <= 65535 * CHUNK_SIZE
  {
    CountCovers(length, 65535);
    var count, total: u16 := ChunkCount(length), TotalChunks(length);
    if length <= 65535 * CHUNK_SIZE {
      CountCovers(length, 0);
      assert (length + CHUNK_SIZE - 1) % WORD32 == length + CHUNK_SIZE - 1;
      assert 0 < count < WORD16 && count % WORD16 == count;
    } else {
      assert total < WORD16 <= count;
    }
  }

  /** A full pull announces the true count, numbers the bodies 0, 1, 2, ... and
      rebuilds the snapshot exactly when the count fits the 16-bit field. */
  lemma FullPullRebuildsIff(d: Bytes)
    requires 0 < |d| < WORD32
    ensures |Rest(d, 0, |d|, 0)| == ChunkCount(|d|)
    ensures (TotalChunks(|d|) == ChunkCount(|d|) && Rebuilds(Rest(d, 0, |d|, 0), d))
            <==> |d| <= 65535 * CHUNK_SIZE
  {
    RestCount(d, 0, |d|, 0);
    CountIsRightIff(|d|);
    if |d| <= 65535 * CHUNK_SIZE {
      FullPullRebuilds(d);
    }
  }

  /** The serving buffer of the firmware is far from that bound. */
  const SNAPSHOT_MAX: nat := 16 * 1024

  lemma FirmwarePullRebuilds(d: Bytes)
    requires 0 < |d| <= SNAPSHOT_MAX
    ensures Rebuilds(Rest(d, 0, |d|, 0), d)
    ensures |Rest(d, 0, |d|, 0)| == ChunkCount(|d|) == TotalChunks(|d|) <= 75
  {
    FullPullRebuildsIff(d);
  }

  /** A request for chunk `k` is served the very body `k` of the full pull, and
      is refused exactly when there is no such body or no group to file it in. */
  lemma SingleChunkPullMatchesFull(d: Bytes, q: Request)
    requires 0 < |d| < WORD32 && q.chunkIndex >= 0
    ensures PlanFor(q, |d|).None? <==> (q.group == 0 || q.chunkIndex >= ChunkCount(|d|))
    ensures PlanFor(q, |d|).Some? ==>
      var p := PlanFor(q, |d|).value;
      q.chunkIndex < |Rest(d, 0, |d|, 0)|
      && Rest(d, p.startOffset, p.endOffset, p.chunkSequence) == [Rest(d, 0, |d|, 0)[q.chunkIndex]]
  {
    if PlanFor(q, |d|).Some? {
      var p := PlanFor(q, |d|).value;
      RestAt(d, 0, |d|, 0, q.chunkIndex);
      RestAt(d, p.startOffset, p.endOffset, p.chunkSequence, 0);
    }
  }
}
