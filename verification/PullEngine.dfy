/** The single serving slot of the global-buffer pull: every critical section
    of the transfer as a function on the shared state, and the class whose
    methods run those sections in place. */
module PullEngine {
  import opened Words

  const CHUNK_SIZE: nat := 220
  const TARGETS: nat := 16

  type Bytes = seq<byte>

  /** -1 asks for the whole snapshot, anything else is a 16-bit chunk index. */
  type ChunkSelector = x: int | -1 <= x < 0x1_0000

  datatype Target = Target(
    active: bool,
    dest: u64,
    nextHop: u64,
    idHigh: u64,
    idLow: u64,
    chunkSequence: u32,
    nextOffset: u32,
    endOffset: u32,
    group: u64)

  const BLANK := Target(false, 0, 0, 0, 0, 0, 0, 0, 0)

  datatype Engine = Engine(
    targets: seq<Target>,
    data: Option<Bytes>,
    length: u32,
    targetCount: nat,
    targetIndex: nat,
    active: bool,
    acquired: bool,
    requester: u64,
    requestHigh: u64,
    requestLow: u64,
    completed: nat,
    sendPending: bool)

  function BlankTargets(): (ts: seq<Target>)
    ensures |ts| == TARGETS && forall t :: t in ts ==> t == BLANK
  {
    seq(TARGETS, _ => BLANK)
  }

  function IdleEngine(): Engine {
    Engine(BlankTargets(), None, 0, 0, 0, false, false, 0, 0, 0, 0, false)
  }

  /** Every target still to be served lies inside the snapshot. */
  ghost predicate WellFormed(e: Engine) {
    && |e.targets| == TARGETS
    && e.targetCount <= TARGETS
    && (e.data.Some? ==> |e.data.value| == e.length)
    && (e.data.Some? ==> forall i :: 0 <= i < e.targetCount && e.targets[i].active ==>
          e.targets[i].endOffset <= e.length)
  }

  datatype Request = Request(
    requester: u64,
    idHigh: u64,
    idLow: u64,
    expectedLength: u32,
    group: u64,
    chunkIndex: ChunkSelector)

  datatype Verdict = Reserved | Duplicate | Busy

  function Reserve(e: Engine, q: Request): (Engine, Verdict) {
    if !e.active then
      (e.(active := true, requester := q.requester, requestHigh := q.idHigh, requestLow := q.idLow), Reserved)
    else if e.requester == q.requester && e.requestHigh == q.idHigh && e.requestLow == q.idLow then
      (e, Duplicate)
    else
      (e, Busy)
  }

  /** The part of the snapshot a request asks for. */
  datatype Plan = Plan(startOffset: u32, endOffset: u32, chunkSequence: u32)

  function PlanFor(q: Request, length: u32): (p: Option<Plan>)
    ensures p.Some? ==> p.value.endOffset <= length
  {
    if q.chunkIndex < 0 then Some(Plan(0, length, 0))
    else
      var offset := q.chunkIndex * CHUNK_SIZE;
      if q.group == 0 || offset >= length then None
      else Some(Plan(offset, Min(offset + CHUNK_SIZE, length), q.chunkIndex))
  }

  function FirstTarget(q: Request, nextHop: u64, p: Plan): Target {
    Target(true, q.requester, nextHop, 0, 0, p.chunkSequence, p.startOffset, p.endOffset, q.group)
  }

  function Install(e: Engine, data: Bytes, q: Request, nextHop: u64, p: Plan): Engine
    requires |data| < WORD32
  {
    e.(targets := BlankTargets()[0 := FirstTarget(q, nextHop, p)],
       completed := 0, data := Some(data), length := |data|, targetCount := 1,
       active := true, acquired := true, targetIndex := 0)
  }

  function Schedule(e: Engine): Engine {
    if e.active then e.(sendPending := true) else e
  }

  function TakePending(e: Engine): (Engine, bool) {
    (e.(sendPending := false), e.sendPending)
  }

  /** The cleared state, and whether the caller must release the snapshot. */
  function Reset(e: Engine): (Engine, bool) {
    (IdleEngine(), e.acquired)
  }

  /** Nothing of the transfer is left, and a pinned snapshot is given back. */
  lemma ResetClears(e: Engine, i: nat)
    requires i < TARGETS
    ensures var (e', release) := Reset(e);
      && (release <==> e.acquired) && !e'.active && !e'.acquired && !e'.sendPending && e'.data.None?
      && e'.length == e'.targetCount == e'.targetIndex == e'.completed == 0
      && e'.requester == e'.requestHigh == e'.requestLow == 0
      && e'.targets[i] == Target(false, 0, 0, 0, 0, 0, 0, 0, 0)
  {
  }

  predicate Finished(t: Target) {
    !t.active || t.nextOffset >= t.endOffset
  }

  /** Step over the targets that have nothing left to send. */
  function Skip(ts: seq<Target>, index: nat, count: nat): (r: (seq<Target>, nat))
    requires index <= count <= |ts|
    ensures |r.0| == |ts| && index <= r.1 <= count
    ensures r.1 < count ==> !Finished(r.0[r.1])
    ensures forall i :: index <= i < r.1 ==> Finished(ts[i]) && r.0[i] == ts[i].(active := false)
    ensures forall i :: 0 <= i < |ts| && !(index <= i < r.1) ==> r.0[i] == ts[i]
    decreases count - index
  {
    if index < count && Finished(ts[index]) then
      var ts' := ts[index := ts[index].(active := false)];
      assert forall i :: index < i < |ts| ==> ts'[i] == ts[i];
      Skip(ts', index + 1, count)
    else (ts, index)
  }

  /** One packet to the requester: where it goes, its message id and sequence, and the
      group, count, index and bytes that it carries. */
  datatype Chunk = Chunk(
    dest: u64,
    nextHop: u64,
    idHigh: u64,
    idLow: u64,
    sequence: u32,
    group: u64,
    total: u16,
    index: u16,
    data: Bytes)

  /** The 16-bit chunk count in the header. */
  function TotalChunks(length: u32): u16 {
    var total := ((length + CHUNK_SIZE - 1) % WORD32 / CHUNK_SIZE) % WORD16;
    if total == 0 then 1 else total
  }

  function GroupOf(t: Target): u64 {
    if t.group != 0 then t.group else t.idLow
  }

  function Named(t: Target, freshHigh: u64, freshLow: u64): Target {
    if t.idHigh == 0 && t.idLow == 0 then t.(idHigh := freshHigh, idLow := freshLow) else t
  }

  datatype Prepared = Abort | Send(chunk: Chunk, offset: u32, size: nat)

  /** The worker's critical section: pick the target and copy its next chunk. */
  function Prepare(e: Engine, freshHigh: u64, freshLow: u64): (Engine, Prepared)
    requires WellFormed(e)
  {
    if !e.active || e.data.None? || e.length == 0 || e.targetCount == 0 || e.targetIndex >= e.targetCount then
      (e, Abort)
    else
      var (ts, i) := Skip(e.targets, e.targetIndex, e.targetCount);
      if i >= e.targetCount then (e.(targets := ts, targetIndex := i), Abort)
      else
        var t := Named(ts[i], freshHigh, freshLow);
        var n := Min(t.endOffset - t.nextOffset, CHUNK_SIZE);
        var sequence := (t.chunkSequence + 1) % WORD32;
        var chunk := Chunk(t.dest, t.nextHop, t.idHigh, t.idLow, sequence, GroupOf(t), TotalChunks(e.length),
                           (sequence - 1) % WORD16, e.data.value[t.nextOffset..t.nextOffset + n]);
        (e.(targets := ts[i := t.(chunkSequence := sequence)], targetIndex := i),
         Send(chunk, t.nextOffset, n))
  }

  datatype Progress = Complete | MoreToSend | NextTarget

  /** The critical section after a successful send. */
  function CommitSent(e: Engine, offset: u32, size: nat): (Engine, Progress)
    requires e.targetIndex < |e.targets| && offset + size < WORD32
  {
    var t := e.targets[e.targetIndex].(nextOffset := offset + size);
    if t.nextOffset >= t.endOffset then
      (e.(targets := e.targets[e.targetIndex := t.(active := false)],
          completed := if e.completed < 255 then e.completed + 1 else e.completed,
          targetIndex := e.targetIndex + 1),
       if e.targetIndex + 1 >= e.targetCount then Complete else NextTarget)
    else
      (e.(targets := e.targets[e.targetIndex := t]), MoreToSend)
  }

  /** With any number of targets: the first one with bytes left is served, those before it are
      given up and no other is touched. */
  lemma PrepareServesFirstUnfinished(e: Engine, i: nat, high: u64, low: u64)
    requires WellFormed(e) && e.active && e.data.Some? && e.length > 0
    requires e.targetIndex <= i < e.targetCount && !Finished(e.targets[i])
    requires forall k :: e.targetIndex <= k < i ==> Finished(e.targets[k])
    ensures var (e', p) := Prepare(e, high, low);
      && p.Send? && p.offset == e.targets[i].nextOffset && p.chunk.dest == e.targets[i].dest && e'.targetIndex == i
      && (forall k :: e.targetIndex <= k < i ==> e'.targets[k] == e.targets[k].(active := false))
      && (forall k :: 0 <= k < TARGETS && (k < e.targetIndex || k > i) ==> e'.targets[k] == e.targets[k])
  {
  }

  /** A successful send moves its target on; the last byte ends it and brings the next one,
      after the last of which the transfer is complete. */
  lemma CommitMovesOn(e: Engine, offset: u32, size: nat)
    requires e.targetIndex < e.targetCount <= |e.targets| && offset + size < WORD32
    ensures var (e', progress) := CommitSent(e, offset, size);
      var i, t := e.targetIndex, e.targets[e.targetIndex].(nextOffset := offset + size);
      var ends := offset + size >= t.endOffset;
      && e'.targets == e.targets[i := if ends then t.(active := false) else t]
      && e'.targetIndex == (if ends then i + 1 else i)
      && e'.completed == (if ends && e.completed < 255 then e.completed + 1 else e.completed)
      && (progress == Complete <==> ends && i == e.targetCount - 1)
      && (progress == MoreToSend <==> !ends)
  {
  }

  /** The transfer state as the firmware keeps it. */
  class Transfer {
    const targets: array<Target>
    var data: Option<Bytes>
    var length: u32
    var targetCount: nat
    var targetIndex: nat
    var active: bool
    var acquired: bool
    var requester: u64
    var requestHigh: u64
    var requestLow: u64
    var completed: nat
    var sendPending: bool

    ghost function State(): Engine
      reads this, targets
    {
      Engine(targets[..], data, length, targetCount, targetIndex, active, acquired,
             requester, requestHigh, requestLow, completed, sendPending)
    }

    constructor ()
      ensures fresh(targets) && State() == IdleEngine()
    {
      targets := new Target[TARGETS](_ => BLANK);
      data, length, targetCount, targetIndex := None, 0, 0, 0;
      active, acquired, sendPending := false, false, false;
      requester, requestHigh, requestLow, completed := 0, 0, 0, 0;
      new;
      assert targets[..] == BlankTargets();
    }

    method TryReserve(q: Request) returns (v: Verdict)
      modifies this
      ensures (State(), v) == Reserve(old(State()), q)
    {
      var alreadyActive := active;
      var duplicate := alreadyActive && requester == q.requester
                       && requestHigh == q.idHigh && requestLow == q.idLow;
      if !alreadyActive {
        active := true;
        requester := q.requester;
        requestHigh := q.idHigh;
        requestLow := q.idLow;
      }
      v := if duplicate then Duplicate else if alreadyActive then Busy else Reserved;
    }

    method ClearTargets()
      requires targets.Length == TARGETS
      modifies targets
      ensures targets[..] == BlankTargets()
    {
      forall i | 0 <= i < targets.Length {
        targets[i] := BLANK;
      }
    }

    method InstallSnapshot(snapshot: Bytes, q: Request, nextHop: u64, p: Plan)
      requires |snapshot| < WORD32 && targets.Length == TARGETS
      modifies this, targets
      ensures State() == Install(old(State()), snapshot, q, nextHop, p)
    {
      ClearTargets();
      completed := 0;
      data, length := Some(snapshot), |snapshot|;
      targets[0] := FirstTarget(q, nextHop, p);
      targetCount := 1;
      active := true;
      acquired := true;
      targetIndex := 0;
      assert targets[..] == BlankTargets()[0 := FirstTarget(q, nextHop, p)];
    }

    method ScheduleSend()
      modifies this
      ensures State() == Schedule(old(State()))
    {
      if active {
        sendPending := true;
      }
    }

    method TakeSend() returns (taken: bool)
      modifies this
      ensures (State(), taken) == TakePending(old(State()))
    {
      taken := false;
      if sendPending {
        sendPending := false;
        taken := true;
      }
    }

    method ResetState() returns (release: bool)
      requires targets.Length == TARGETS
      modifies this, targets
      ensures (State(), release) == Reset(old(State()))
    {
      ClearTargets();
      data, length, targetCount, targetIndex := None, 0, 0, 0;
      active := false;
      release := acquired;
      acquired := false;
      requester, requestHigh, requestLow, completed := 0, 0, 0, 0;
      sendPending := false;
    }

    /** The inner loop of the worker's critical section. */
    method SkipFinished()
      requires targetIndex <= targetCount <= targets.Length
      modifies this`targetIndex, targets
      ensures targets[..] == Skip(old(targets[..]), old(targetIndex), targetCount).0
      ensures targetIndex == Skip(old(targets[..]), old(targetIndex), targetCount).1
    {
      ghost var goal := Skip(targets[..], targetIndex, targetCount);
      while targetIndex < targetCount
            && (!targets[targetIndex].active || targets[targetIndex].nextOffset >= targets[targetIndex].endOffset)
        invariant targetIndex <= targetCount <= targets.Length
        invariant Skip(targets[..], targetIndex, targetCount) == goal
        decreases targetCount - targetIndex
      {
        ghost var before := targets[..];
        targets[targetIndex] := targets[targetIndex].(active := false);
        assert targets[..] == before[targetIndex := before[targetIndex].(active := false)];
        targetIndex := targetIndex + 1;
      }
    }

    /** The zero-length branch of the source is not repeated here: after the
        skip loop the chosen target always has bytes left. */
    method PrepareChunk(freshHigh: u64, freshLow: u64) returns (p: Prepared)
      requires WellFormed(State())
      modifies this, targets
      ensures (State(), p) == Prepare(old(State()), freshHigh, freshLow)
    {
      if !active || data.None? || length == 0 || targetCount == 0 || targetIndex >= targetCount {
        return Abort;
      }
      SkipFinished();
      if targetIndex >= targetCount {
        return Abort;
      }
      ghost var ts := targets[..];
      var t := Named(targets[targetIndex], freshHigh, freshLow);
      var size := t.endOffset - t.nextOffset;
      if size > CHUNK_SIZE {
        size := CHUNK_SIZE;
      }
      var sequence := (t.chunkSequence + 1) % WORD32;
      var group := if t.group != 0 then t.group else t.idLow;
      var chunk := Chunk(t.dest, t.nextHop, t.idHigh, t.idLow, sequence, group, TotalChunks(length),
                         (sequence - 1) % WORD16, data.value[t.nextOffset..t.nextOffset + size]);
      targets[targetIndex] := t.(chunkSequence := sequence);
      assert targets[..] == ts[targetIndex := t.(chunkSequence := sequence)];
      return Send(chunk, t.nextOffset, size);
    }

    method CommitChunk(offset: u32, size: nat) returns (p: Progress)
      requires targetIndex < targets.Length && offset + size < WORD32
      modifies this, targets
      ensures (State(), p) == CommitSent(old(State()), offset, size)
    {
      ghost var ts := targets[..];
      targets[targetIndex] := targets[targetIndex].(nextOffset := offset + size);
      if targets[targetIndex].nextOffset >= targets[targetIndex].endOffset {
        targets[targetIndex] := targets[targetIndex].(active := false);
        assert targets[..] == ts[targetIndex := ts[targetIndex].(nextOffset := offset + size).(active := false)];
        if completed < 255 {
          completed := completed + 1;
        }
        targetIndex := targetIndex + 1;
        p := if targetIndex >= targetCount then Complete else NextTarget;
      } else {
        assert targets[..] == ts[targetIndex := ts[targetIndex].(nextOffset := offset + size)];
        p := MoreToSend;
      }
    }
  }
}
