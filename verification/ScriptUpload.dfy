/** Chunked upload of a script: one buffer that BEGIN opens, CHUNK fills in order and
    COMMIT hands on. */
module ScriptUpload {
  import opened Words

  const CHUNK_SIZE: nat := 220

  type Bytes = seq<byte>

  datatype Action = Begin | Chunk | Commit | Delete | Other

  datatype Config = Config(action: Action, scriptId: u32, totalSize: u32, offset: u32, chunk: Bytes)

  datatype Status = Ok | InvalidArg | InvalidSize | InvalidState | NoMemory | Failed

  /** What the calls the handler makes give back. */
  datatype Env = Env(malloc: bool, stored: Status, deleted: Status)

  /** The answer, and the bytes handed to the store if any were. */
  datatype Reply = Reply(status: Status, passed: Option<Bytes>)

  /** The decoder bounds a chunk, and no allocation gets within one chunk of 2^32. */
  predicate Possible(c: Config, env: Env) {
    |c.chunk| <= CHUNK_SIZE && (env.malloc ==> c.totalSize + CHUNK_SIZE < WORD32)
  }

  /** An upload; `data` is the part of the buffer that has been received. */
  datatype Upload = Upload(active: bool, scriptId: u32, total: u32, data: Bytes)

  const NONE := Upload(false, 0, 0, [])

  predicate Sound(u: Upload) {
    && (u.active ==> 0 < u.total < WORD32 - CHUNK_SIZE && |u.data| <= u.total)
    && (!u.active ==> u == NONE)
  }

  // ---- One message, as a function ------------------------------------------------------

  /** The unsigned 32-bit sum the handler compares with the total. */
  function EndOf(c: Config): u32 {
    (c.offset + |c.chunk|) % WORD32
  }

  predicate Fits(u: Upload, c: Config) {
    c.offset == |u.data| && EndOf(c) <= u.total
  }

  predicate Mine(u: Upload, c: Config) {
    u.active && u.scriptId == c.scriptId
  }

  function OnBegin(u: Upload, c: Config, env: Env): (Upload, Reply) {
    if c.totalSize == 0 then (u, Reply(InvalidSize, None))
    else if !env.malloc then (NONE, Reply(NoMemory, None))
    else if |c.chunk| > 0 && (c.offset != 0 || |c.chunk| > c.totalSize) then (NONE, Reply(InvalidArg, None))
    else (Upload(true, c.scriptId, c.totalSize, c.chunk), Reply(Ok, None))
  }

  function OnChunk(u: Upload, c: Config): (Upload, Reply) {
    if !Mine(u, c) || |c.chunk| == 0 || !Fits(u, c) then (u, Reply(InvalidArg, None))
    else (u.(data := u.data + c.chunk), Reply(Ok, None))
  }

  function OnCommit(u: Upload, c: Config, env: Env): (Upload, Reply) {
    if !Mine(u, c) then
      (u, if |c.chunk| > 0 then Reply(env.stored, Some(c.chunk)) else Reply(InvalidState, None))
    else if |c.chunk| > 0 && !Fits(u, c) then (u, Reply(InvalidArg, None))
    else
      var data := u.data + c.chunk;
      if |data| != u.total then (u.(data := data), Reply(InvalidSize, None))
      else (NONE, Reply(env.stored, Some(data)))
  }

  function Step(u: Upload, c: Config, env: Env): (Upload, Reply) {
    if c.scriptId == 0 || c.scriptId >= WORD16 then (u, Reply(InvalidArg, None))
    else match c.action
      case Begin => OnBegin(u, c, env)
      case Chunk => OnChunk(u, c)
      case Commit => OnCommit(u, c, env)
      case Delete => (u, Reply(env.deleted, None))
      case Other => (u, Reply(InvalidArg, None))
  }

  // ---- The static buffer and the handler -------------------------------------------------

  class Handler {
    var active: bool
    var scriptId: u32
    var total: u32
    var received: nat
    var buffer: array<byte>

    ghost predicate Valid()
      reads this, buffer
    {
      buffer.Length == total && received <= total && Sound(Contents())
    }

    ghost function Contents(): Upload
      requires received <= buffer.Length
      reads this, buffer
    {
      Upload(active, scriptId, total, buffer[..received])
    }

    constructor ()
      ensures Valid() && Contents() == NONE
    {
      active, scriptId, total, received := false, 0, 0, 0;
      buffer := new byte[0];
    }

    method Reset()
      modifies this
      ensures Valid() && Contents() == NONE && fresh(buffer)
    {
      active, scriptId, total, received := false, 0, 0, 0;
      buffer := new byte[0];
    }

    /** Copy a chunk behind what was received. */
    method Append(chunk: Bytes)
      requires Valid() && active && received + |chunk| <= total
      modifies this`received, buffer
      ensures Valid() && Contents() == old(Contents()).(data := old(Contents()).data + chunk)
    {
      ghost var was := buffer[..received];
      forall i | 0 <= i < |chunk| {
        buffer[received + i] := chunk[i];
      }
      received := received + |chunk|;
      assert buffer[..received] == was + chunk;
    }

    method BeginUpload(c: Config, env: Env) returns (r: Reply)
      requires Valid() && Possible(c, env)
      modifies this, buffer
      ensures Valid() && (buffer == old(buffer) || fresh(buffer))
      ensures (Contents(), r) == OnBegin(old(Contents()), c, env)
    {
      if c.totalSize == 0 {
        return Reply(InvalidSize, None);
      }
      Reset();
      if !env.malloc {
        return Reply(NoMemory, None);
      }
      buffer := new byte[c.totalSize];
      active, scriptId, total := true, c.scriptId, c.totalSize;
      if |c.chunk| > 0 {
        if c.offset != 0 || |c.chunk| > c.totalSize {
          Reset();
          return Reply(InvalidArg, None);
        }
        Append(c.chunk);
      }
      assert Contents().data == c.chunk;
      return Reply(Ok, None);
    }

    method TakeChunk(c: Config) returns (r: Reply)
      requires Valid() && |c.chunk| <= CHUNK_SIZE
      modifies this`received, buffer
      ensures Valid() && (Contents(), r) == OnChunk(old(Contents()), c)
    {
      if !active || scriptId != c.scriptId || c.offset != received || |c.chunk| == 0 || EndOf(c) > total {
        return Reply(InvalidArg, None);
      }
      Append(c.chunk);
      return Reply(Ok, None);
    }

    method CommitUpload(c: Config, env: Env) returns (r: Reply)
      requires Valid() && |c.chunk| <= CHUNK_SIZE
      modifies this, buffer
      ensures Valid() && (buffer == old(buffer) || fresh(buffer))
      ensures (Contents(), r) == OnCommit(old(Contents()), c, env)
    {
      if active && scriptId == c.scriptId {
        if |c.chunk| > 0 {
          if c.offset != received || EndOf(c) > total {
            return Reply(InvalidArg, None);
          }
          Append(c.chunk);
        }
        assert Contents().data == old(Contents()).data + c.chunk;
        if received != total {
          return Reply(InvalidSize, None);
        }
        r := Reply(env.stored, Some(buffer[..received]));
        Reset();
      } else if |c.chunk| > 0 {
        r := Reply(env.stored, Some(c.chunk));
      } else {
        r := Reply(InvalidState, None);
      }
    }

    method Handle(c: Config, env: Env) returns (r: Reply)
      requires Valid() && Possible(c, env)
      modifies this, buffer
      ensures Valid() && (buffer == old(buffer) || fresh(buffer))
      ensures (Contents(), r) == Step(old(Contents()), c, env)
    {
      if c.scriptId == 0 || c.scriptId >= WORD16 {
        return Reply(InvalidArg, None);
      }
      match c.action {
        case Begin => r := BeginUpload(c, env);
        case Chunk => r := TakeChunk(c);
        case Commit => r := CommitUpload(c, env);
        case Delete => r := Reply(env.deleted, None);
        case Other => r := Reply(InvalidArg, None);
      }
    }
  }

  // ---- Runs ---------------------------------------------------------------------------------

  datatype Input = Input(config: Config, env: Env)
  datatype Seen = Seen(config: Config, reply: Reply)

  predicate AllPossible(run: seq<Input>) {
    forall i :: 0 <= i < |run| ==> Possible(run[i].config, run[i].env)
  }

  function After(u: Upload, run: seq<Input>): Upload {
    if run == [] then u
    else Step(After(u, run[..|run| - 1]), run[|run| - 1].config, run[|run| - 1].env).0
  }

  function Log(u: Upload, run: seq<Input>): (log: seq<Seen>)
    ensures |log| == |run|
  {
    if run == [] then []
    else
      var n := |run| - 1;
      Log(u, run[..n]) + [Seen(run[n].config, Step(After(u, run[..n]), run[n].config, run[n].env).1)]
  }

  predicate Opens(e: Seen) {
    e.config.action.Begin? && e.reply.status == Ok
  }

  /** Where the chunks of the last accepted BEGIN start in the log; the length of the
      log when no BEGIN has been accepted. */
  function LastOpen(log: seq<Seen>): (k: nat)
    ensures k <= |log|
    ensures k < |log| ==> Opens(log[k])
    ensures forall i :: k < i < |log| ==> !Opens(log[i])
  {
    if log == [] then 0
    else
      var n := |log| - 1;
      if Opens(log[n]) then n
      else if LastOpen(log[..n]) < n then LastOpen(log[..n]) else n + 1
  }

  /** A chunk for script `id` that the replies say was kept: an accepted CHUNK, or a
      COMMIT found short. */
  predicate Kept(e: Seen, id: u32) {
    e.config.scriptId == id &&
    ((e.config.action.Chunk? && e.reply.status == Ok)
     || (e.config.action.Commit? && e.reply == Reply(InvalidSize, None)))
  }

  /** Concatenation of the BEGIN chunk at `from` and the chunks kept after it. */
  function Stream(log: seq<Seen>, from: nat): Bytes
    requires from < |log|
  {
    var n := |log| - 1;
    if n == from then log[n].config.chunk
    else Stream(log[..n], from) + if Kept(log[n], log[from].config.scriptId) then log[n].config.chunk else []
  }

  /** What the log says about the state. */
  ghost predicate Told(u: Upload, log: seq<Seen>) {
    && Sound(u)
    && (u.active ==>
          var from := LastOpen(log);
          && from < |log|
          && u.scriptId == log[from].config.scriptId && u.total == log[from].config.totalSize
          && u.data == Stream(log, from))
  }

  lemma StepIsSound(u: Upload, c: Config, env: Env)
    requires Sound(u) && Possible(c, env)
    ensures Sound(Step(u, c, env).0)
  {
  }

  /** An upload that goes on grows by the message's chunk exactly when it was kept. */
  lemma KeptIsAppended(u: Upload, c: Config, env: Env)
    requires Sound(u) && Possible(c, env)
    requires var (u', r) := Step(u, c, env); u'.active && !Opens(Seen(c, r))
    ensures var (u', r) := Step(u, c, env);
      u.active && u' == u.(data := u.data + if Kept(Seen(c, r), u.scriptId) then c.chunk else [])
  {
  }

  lemma StepKeepsTold(u: Upload, log: seq<Seen>, c: Config, env: Env)
    requires Told(u, log) && Possible(c, env)
    ensures var (u', r) := Step(u, c, env); Told(u', log + [Seen(c, r)])
  {
    var (u', r) := Step(u, c, env);
    var log' := log + [Seen(c, r)];
    assert log'[..|log|] == log;
    StepIsSound(u, c, env);
    if u'.active && !Opens(Seen(c, r)) {
      KeptIsAppended(u, c, env);
    }
  }

  /** In every run the buffer holds exactly the chunks accepted since the BEGIN that
      opened it. */
  lemma {:induction false} RunKeepsTold(run: seq<Input>)
    requires AllPossible(run)
    ensures Told(After(NONE, run), Log(NONE, run))
  {
    if run == [] {
    } else {
      var n := |run| - 1;
      RunKeepsTold(run[..n]);
      StepKeepsTold(After(NONE, run[..n]), Log(NONE, run[..n]), run[n].config, run[n].env);
    }
  }

  lemma CommitHandsOn(u: Upload, c: Config, env: Env)
    requires Sound(u) && Possible(c, env) && c.action.Commit? && Mine(u, c)
    ensures var (u', r) := Step(u, c, env);
      r.passed.Some? ==> u' == NONE && r.passed.value == u.data + c.chunk && |r.passed.value| == u.total
  {
  }

  /** A COMMIT that belongs to the open upload hands on the whole stream and nothing
      else, as many bytes as its BEGIN announced, and closes the upload. */
  lemma CommitPassesStream(run: seq<Input>, last: Input, log: seq<Seen>)
    requires AllPossible(run) && Possible(last.config, last.env) && log == Log(NONE, run)
    requires last.config.action.Commit? && Mine(After(NONE, run), last.config)
    ensures var (u', r) := Step(After(NONE, run), last.config, last.env);
      var from := LastOpen(log);
      && from < |log|
      && (r.passed.Some? ==>
            && u' == NONE && last.config.scriptId == log[from].config.scriptId
            && r.passed.value == Stream(log, from) + last.config.chunk
            && |r.passed.value| == log[from].config.totalSize)
  {
    RunKeepsTold(run);
    CommitHandsOn(After(NONE, run), last.config, last.env);
  }

  /** When that COMMIT goes through. */
  lemma CommitPassesIff(u: Upload, c: Config, env: Env)
    requires Sound(u) && Possible(c, env) && c.action.Commit? && Mine(u, c) && 0 < c.scriptId < WORD16
    ensures Step(u, c, env).1.passed.Some? <==>
      (c.chunk == [] || c.offset == |u.data|) && |u.data| + |c.chunk| == u.total
    ensures Step(u, c, env).1.passed.Some? ==> Step(u, c, env) == (NONE, Reply(env.stored, Some(u.data + c.chunk)))
  {
  }

  /** A COMMIT that belongs to no open upload passes on its own chunk, when it has one, and
      leaves the open upload alone. */
  lemma DirectCommitPassesChunk(u: Upload, c: Config, env: Env)
    requires c.action.Commit? && 0 < c.scriptId < 0x1_0000 && !(u.active && u.scriptId == c.scriptId)
    ensures var (u', r) := Step(u, c, env);
      && u' == u
      && (c.chunk != [] ==> r.passed == Some(c.chunk) && r.status == env.stored)
      && (c.chunk == [] ==> r.passed.None? && r.status == InvalidState)
  {
  }

  /** Deleting, and anything refused outright, leaves the open upload alone and passes
      nothing on. */
  lemma OthersLeaveUpload(u: Upload, c: Config, env: Env)
    requires c.scriptId == 0 || c.scriptId >= 0x1_0000 || c.action.Delete? || c.action.Other?
    ensures var (u', r) := Step(u, c, env);
      && u' == u && r.passed.None?
      && r.status == if 0 < c.scriptId < 0x1_0000 && c.action.Delete? then env.deleted else InvalidArg
  {
  }

  /** A BEGIN opens an upload exactly when it announces a size, the buffer can be had and its
      own chunk starts the script and fits; an announced size costs the old upload anyway. */
  lemma BeginOpensIff(u: Upload, c: Config, env: Env)
    requires c.action.Begin? && 0 < c.scriptId < 0x1_0000
    ensures var (u', r) := Step(u, c, env);
      && (r.status == Ok <==>
            c.totalSize > 0 && env.malloc && (c.chunk == [] || (c.offset == 0 && |c.chunk| <= c.totalSize)))
      && (r.status == Ok ==> u'.active && u'.scriptId == c.scriptId && u'.total == c.totalSize && u'.data == c.chunk)
      && (r.status != Ok ==> !u'.active || (c.totalSize == 0 && u' == u)) && r.passed.None?
      && (c.totalSize > 0 && r.status != Ok ==> !u'.active)
  {
  }

  /** A CHUNK is kept exactly when it continues the open upload and fits; otherwise
      nothing changes. */
  lemma ChunkIsKeptIff(u: Upload, c: Config, env: Env)
    requires Sound(u) && Possible(c, env) && c.action.Chunk? && 0 < c.scriptId < WORD16
    ensures var (u', r) := Step(u, c, env);
      && (r.status == Ok <==> Mine(u, c) && c.chunk != [] && c.offset == |u.data| && |u.data| + |c.chunk| <= u.total)
      && (r.status != Ok ==> u' == u)
  {
  }

  // ---- A client that uploads a script ---------------------------------------------------------

  const GOOD := Env(true, Ok, Ok)

  function Flat(chunks: seq<Bytes>): Bytes {
    if chunks == [] then [] else Flat(chunks[..|chunks| - 1]) + chunks[|chunks| - 1]
  }

  /** BEGIN for `total` bytes, then the chunks one by one. */
  function Upto(id: u32, total: u32, chunks: seq<Bytes>): seq<Input>
    requires |Flat(chunks)| <= total
  {
    if chunks == [] then [Input(Config(Begin, id, total, 0, []), GOOD)]
    else
      var n := |chunks| - 1;
      assert Flat(chunks) == Flat(chunks[..n]) + chunks[n];
      Upto(id, total, chunks[..n]) + [Input(Config(Chunk, id, total, |Flat(chunks[..n])|, chunks[n]), GOOD)]
  }

  lemma ChunkGoesIn(u: Upload, c: Config)
    requires Mine(u, c) && c.action.Chunk? && 0 < c.scriptId < WORD16 && 0 < |c.chunk|
    requires c.offset == |u.data| && |u.data| + |c.chunk| <= u.total
    ensures Step(u, c, GOOD).0 == u.(data := u.data + c.chunk)
  {
  }

  lemma {:induction false} UploadArrives(u: Upload, id: u32, total: u32, chunks: seq<Bytes>)
    requires Sound(u) && 0 < id < WORD16 && 0 < total < WORD32 - CHUNK_SIZE && |Flat(chunks)| <= total
    requires forall i :: 0 <= i < |chunks| ==> 0 < |chunks[i]| <= CHUNK_SIZE
    ensures After(u, Upto(id, total, chunks)) == Upload(true, id, total, Flat(chunks))
  {
    var run := Upto(id, total, chunks);
    if chunks == [] {
      assert run[..0] == [];
    } else {
      var n := |chunks| - 1;
      assert Flat(chunks) == Flat(chunks[..n]) + chunks[n];
      UploadArrives(u, id, total, chunks[..n]);
      assert run[..|run| - 1] == Upto(id, total, chunks[..n]);
      ChunkGoesIn(Upload(true, id, total, Flat(chunks[..n])), run[|run| - 1].config);
    }
  }

  /** However a script is cut into chunks, and whatever was going on before, COMMIT
      hands on exactly that script. */
  lemma UploadCommits(u: Upload, id: u32, chunks: seq<Bytes>)
    requires Sound(u) && 0 < id < WORD16 && 0 < |Flat(chunks)| < WORD32 - CHUNK_SIZE
    requires forall i :: 0 <= i < |chunks| ==> 0 < |chunks[i]| <= CHUNK_SIZE
    ensures var size := |Flat(chunks)|;
      Step(After(u, Upto(id, size, chunks)), Config(Commit, id, size, 0, []), GOOD)
        == (NONE, Reply(Ok, Some(Flat(chunks))))
  {
    UploadArrives(u, id, |Flat(chunks)|, chunks);
    assert Flat(chunks) + [] == Flat(chunks);
  }
}
