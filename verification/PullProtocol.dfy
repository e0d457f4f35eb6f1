/** Any number of pull starters and the one worker, interleaved at every
    critical section and every platform call. */
module PullProtocol {
  import opened Words
  import opened PullEngine
  import opened PullChunks

  const MAC_MASK: nat := 0xffff_ffff_ffff

  /** What has been published for serving; empty when nothing has. */
  type Snapshot = d: Bytes | |d| <= SNAPSHOT_MAX

  /** Where a starter stands between two shared steps. */
  datatype Stage =
    | Holding
    | Pinned(data: Snapshot)
    | Unpinning
    | Abandoning
    | Releasing
    | Scheduling
    | Done

  datatype Starter = Starter(q: Request, stage: Stage)

  datatype Worker = Resting | Woken | Transmitting(p: Prepared) | Resuming | Clearing | Unpinned

  datatype MessageId = MessageId(high: u64, low: u64)

  /** `serving` and `taken` are the published buffer and the binary semaphore over it.
      The rest is history the firmware does not keep: which starter holds the slot and for
      what request it was reserved; whose pull was installed last, through which next hop,
      the message id drawn for it and what went out; the pins taken and given back. */
  datatype World = World(
    e: Engine,
    starters: map<nat, Starter>,
    worker: Worker,
    serving: Snapshot,
    taken: bool,
    holder: Option<nat>,
    reserved: Request,
    request: Request,
    via: u64,
    name: Option<MessageId>,
    sent: seq<Chunk>,
    acquires: nat,
    releases: nat)

  predicate IsBoot(w: World) {
    && w.e == IdleEngine() && w.starters == map[] && w.worker.Resting? && w.holder.None?
    && w.serving == [] && !w.taken && w.sent == [] && w.acquires == 0 && w.releases == 0
  }

  datatype Event =
    | Arrive(id: nat, q: Request)
    | Publish(data: Snapshot)
    | Acquire(id: nat, ready: bool)
    | Judge(id: nat, nextHop: u64)
    | GiveBack(id: nat)
    | Abandon(id: nat)
    | StarterRelease(id: nat)
    | ScheduleFirst(id: nat)
    | Wake
    | Copy(haveSelfMac: bool, high: u64, low: u64)
    | Transmit(ok: bool)
    | Resume
    | Clear
    | WorkerRelease

  /** A publisher waits for the semaphore; an acquire does not, and `ready` says whether
      there is a semaphore at all. A message id is never all zero: the generator
      replaces it. */
  ghost predicate Enabled(w: World, ev: Event) {
    match ev
    case Arrive(id, q) => id !in w.starters
    case Publish(_) => !w.taken
    case Acquire(id, _) => id in w.starters && w.starters[id].stage.Holding?
    case Judge(id, _) => id in w.starters && w.starters[id].stage.Pinned?
                         && 0 < |w.starters[id].stage.data| < WORD32
    case GiveBack(id) => id in w.starters && w.starters[id].stage.Unpinning?
    case Abandon(id) => id in w.starters && w.starters[id].stage.Abandoning?
    case StarterRelease(id) => id in w.starters && w.starters[id].stage.Releasing?
    case ScheduleFirst(id) => id in w.starters && w.starters[id].stage.Scheduling?
    case Wake => w.worker.Resting?
    case Copy(_, high, low) => w.worker.Woken? && WellFormed(w.e) && (high != 0 || low != 0)
    case Transmit(_) => w.worker.Transmitting? && w.worker.p.Send? && w.e.targetIndex < |w.e.targets|
                        && w.worker.p.offset + w.worker.p.size < WORD32
    case Resume => w.worker.Resuming?
    case Clear => w.worker.Clearing?
    case WorkerRelease => w.worker.Unpinned?
  }

  function Move(w: World, id: nat, stage: Stage): World
    requires id in w.starters
  {
    w.(starters := w.starters[id := w.starters[id].(stage := stage)])
  }

  function Apply(w: World, ev: Event): World
    requires Enabled(w, ev)
  {
    match ev
    case Arrive(id, raw) =>
      var q := raw.(requester := raw.requester % (MAC_MASK + 1));
      if q.requester == 0 || q.requester == MAC_MASK then
        w.(starters := w.starters[id := Starter(q, Done)])
      else
        var (e, v) := Reserve(w.e, q);
        w.(e := e, starters := w.starters[id := Starter(q, if v.Reserved? then Holding else Done)],
           holder := if v.Reserved? then Some(id) else w.holder,
           reserved := if v.Reserved? then q else w.reserved)
    case Publish(data) => w.(serving := data)
    case Acquire(id, ready) =>
      if !ready || w.taken || w.serving == [] then Move(w, id, Abandoning)
      else Move(w, id, Pinned(w.serving)).(taken := true, acquires := w.acquires + 1)
    case Judge(id, nextHop) =>
      var q, data := w.starters[id].q, w.starters[id].stage.data;
      var plan := PlanFor(q, |data|);
      if (q.expectedLength != 0 && |data| != q.expectedLength) || plan.None? then Move(w, id, Unpinning)
      else
        Move(w, id, Scheduling).(
          e := Install(w.e, data, q, nextHop, plan.value),
          request := q,
          via := nextHop,
          name := None,
          sent := [])
    case GiveBack(id) => Move(w, id, Abandoning).(taken := false, releases := w.releases + 1)
    case Abandon(id) =>
      var (e, release) := Reset(w.e);
      Move(w, id, if release then Releasing else Done).(e := e, holder := None)
    case StarterRelease(id) => Move(w, id, Done).(taken := false, releases := w.releases + 1)
    case ScheduleFirst(id) => Move(w, id, Done).(e := Schedule(w.e), holder := None)
    case Wake =>
      var (e, taken) := TakePending(w.e);
      w.(e := e, worker := if taken then Woken else Resting)
    case Copy(haveSelfMac, high, low) =>
      if !haveSelfMac then w.(worker := Clearing)
      else
        var (e, p) := Prepare(w.e, high, low);
        w.(e := e, worker := if p.Send? then Transmitting(p) else Clearing,
           name := if w.name.None? then Some(MessageId(high, low)) else w.name)
    case Transmit(ok) =>
      if !ok then w.(worker := Clearing)
      else
        var (e, progress) := CommitSent(w.e, w.worker.p.offset, w.worker.p.size);
        w.(e := e, sent := w.sent + [w.worker.p.chunk],
           worker := match progress
                     case Complete => Clearing
                     case MoreToSend => Resuming
                     case NextTarget => Resting)
    case Resume => w.(e := Schedule(w.e), worker := Resting)
    case Clear =>
      var (e, release) := Reset(w.e);
      w.(e := e, worker := if release then Unpinned else Resting)
    case WorkerRelease => w.(taken := false, releases := w.releases + 1, worker := Resting)
  }

  // ---- The invariant ---------------------------------------------------------

  predicate WorkerOwns(k: Worker) {
    k.Woken? || k.Transmitting? || k.Resuming? || k.Clearing?
  }

  function HolderStage(w: World): Stage {
    if w.holder.Some? && w.holder.value in w.starters then w.starters[w.holder.value].stage else Done
  }

  function PinCount(w: World): nat {
    (if w.e.acquired then 1 else 0)
    + (if w.worker.Unpinned? then 1 else 0)
    + (if HolderStage(w).Pinned? || HolderStage(w).Unpinning? then 1 else 0)
  }

  /** At any time the slot has one owner: the starter that reserved it, the
      pending flag, or the worker. */
  ghost predicate OneOwner(w: World) {
    && (forall id :: id in w.starters ==> (w.starters[id].stage.Done? <==> w.holder != Some(id)))
    && (w.holder.Some? ==> w.holder.value in w.starters)
    && !HolderStage(w).Releasing?
    && (w.e.active <==> w.holder.Some? || w.e.sendPending || WorkerOwns(w.worker))
    && !(w.holder.Some? && w.e.sendPending)
    && !(w.holder.Some? && WorkerOwns(w.worker))
    && !(w.e.sendPending && WorkerOwns(w.worker))
  }

  /** The bodies a request is to be served out of a snapshot. */
  function PlanOf(d: Snapshot, q: Request): seq<Body> {
    match PlanFor(q, |d|)
    case None => []
    case Some(p) => Rest(d, p.startOffset, p.endOffset, p.chunkSequence)
  }

  /** The plan of the pull installed last, over the snapshot now being served. */
  function Planned(w: World): seq<Body> {
    PlanOf(w.serving, w.request)
  }

  /** Whoever will copy next finds a pinned snapshot and the rest of the plan. */
  ghost predicate Faithful(w: World) {
    && (HolderStage(w).Scheduling? || w.e.sendPending || w.worker.Woken? || w.worker.Resuming? ==>
          Serving(w.e) && Planned(w) == BodiesOf(w.sent) + Owed(w.e))
    && (w.worker.Transmitting? ==>
          InFlight(w.e, w.worker.p) && Planned(w) == BodiesOf(w.sent) + OwedInFlight(w.e, w.worker.p))
    && (w.worker.Clearing? ==> w.e.acquired)
  }

  ghost predicate Inv(w: World) {
    && WellFormed(w.e)
    && OneOwner(w)
    && (!w.e.active ==> !w.e.acquired)
    && (w.holder.Some? && !HolderStage(w).Scheduling? ==> !w.e.acquired)
    && (HolderStage(w).Pinned? ==> HolderStage(w).data == w.serving != [])
    && (w.e.acquired ==> w.e.data == Some(w.serving))
    && PinCount(w) == (if w.taken then 1 else 0)
    && w.acquires == w.releases + PinCount(w)
  }

  ghost predicate Good(w: World) {
    Inv(w) && Faithful(w)
  }

  lemma CopyKeepsGood(w: World, ev: Event)
    requires Good(w) && ev.Copy? && Enabled(w, ev)
    ensures Good(Apply(w, ev))
  {
    PrepareSendsFirstOwed(w.e, ev.high, ev.low);
  }

  lemma SentKeepsGood(w: World)
    requires Good(w) && Enabled(w, Transmit(true))
    ensures Good(Apply(w, Transmit(true)))
  {
    SendMovesOneBody(w.e, w.worker.p, w.sent, Planned(w));
  }

  lemma TransmitKeepsGood(w: World, ev: Event)
    requires Good(w) && ev.Transmit? && Enabled(w, ev)
    ensures Good(Apply(w, ev))
  {
    if ev.ok {
      SentKeepsGood(w);
    }
  }

  lemma JudgeKeepsGood(w: World, ev: Event)
    requires Good(w) && ev.Judge? && Enabled(w, ev)
    ensures Good(Apply(w, ev))
  {
    var q, data := w.starters[ev.id].q, w.starters[ev.id].stage.data;
    if PlanFor(q, |data|).Some? {
      InstallServes(w.e, data, q, ev.nextHop, PlanFor(q, |data|).value);
    }
  }

  /** While the slot is taken a new starter is turned away. */
  lemma LateArrivalKeepsGood(w: World, ev: Event)
    requires Good(w) && ev.Arrive? && Enabled(w, ev) && w.e.active
    ensures Good(Apply(w, ev))
  {
    var w' := Apply(w, ev);
    assert w' == w.(starters := w'.starters);
    assert HolderStage(w') == HolderStage(w);
  }

  lemma FirstArrivalKeepsGood(w: World, ev: Event)
    requires Good(w) && ev.Arrive? && Enabled(w, ev) && !w.e.active
    ensures Good(Apply(w, ev))
  {
  }

  lemma ScheduleKeepsGood(w: World, ev: Event)
    requires Good(w) && ev.ScheduleFirst? && Enabled(w, ev)
    ensures Good(Apply(w, ev))
  {
  }

  lemma HolderKeepsGood(w: World, ev: Event)
    requires Good(w) && Enabled(w, ev)
    requires ev.Acquire? || ev.GiveBack? || ev.Abandon? || ev.StarterRelease?
    ensures Good(Apply(w, ev))
  {
  }

  lemma WorkerKeepsGood(w: World, ev: Event)
    requires Good(w) && Enabled(w, ev)
    requires ev.Wake? || ev.Resume?
    ensures Good(Apply(w, ev))
  {
  }

  lemma CleanupKeepsGood(w: World, ev: Event)
    requires Good(w) && Enabled(w, ev)
    requires ev.Clear? || ev.WorkerRelease?
    ensures Good(Apply(w, ev))
  {
  }

  /** Nobody publishes while a snapshot is pinned. */
  lemma PublishKeepsGood(w: World, ev: Event)
    requires Good(w) && Enabled(w, ev) && ev.Publish?
    ensures Good(Apply(w, ev))
  {
    var w' := Apply(w, ev);
    assert HolderStage(w') == HolderStage(w) && w'.e == w.e;
  }

  lemma StepKeepsGood(w: World, ev: Event)
    requires Good(w) && Enabled(w, ev)
    ensures Good(Apply(w, ev))
  {
    match ev
    case Copy(_, _, _) => CopyKeepsGood(w, ev);
    case Transmit(_) => TransmitKeepsGood(w, ev);
    case Judge(_, _) => JudgeKeepsGood(w, ev);
    case Publish(_) => PublishKeepsGood(w, ev);
    case Wake => WorkerKeepsGood(w, ev);
    case Resume => WorkerKeepsGood(w, ev);
    case Clear => CleanupKeepsGood(w, ev);
    case WorkerRelease => CleanupKeepsGood(w, ev);
    case Arrive(_, _) =>
      if w.e.active {
        LateArrivalKeepsGood(w, ev);
      } else {
        FirstArrivalKeepsGood(w, ev);
      }
    case ScheduleFirst(_) => ScheduleKeepsGood(w, ev);
    case _ => HolderKeepsGood(w, ev);
  }

  // ---- Whole runs --------------------------------------------------------------

  ghost predicate Possible(w: World, run: seq<Event>)
    decreases run
  {
    run != [] ==> Enabled(w, run[0]) && Possible(Apply(w, run[0]), run[1..])
  }

  ghost function After(w: World, run: seq<Event>): World
    requires Possible(w, run)
    decreases run
  {
    if run == [] then w else After(Apply(w, run[0]), run[1..])
  }

  lemma {:induction false} RunKeepsGood(w: World, run: seq<Event>)
    requires Good(w) && Possible(w, run)
    ensures Good(After(w, run))
    decreases run
  {
    if run == [] {
    } else {
      StepKeepsGood(w, run[0]);
      RunKeepsGood(Apply(w, run[0]), run[1..]);
    }
  }

  predicate Idle(w: World) {
    && w.worker.Resting? && !w.e.sendPending
    && forall id :: id in w.starters ==> w.starters[id].stage.Done?
  }

  /** `w` is where some run from boot ends. */
  ghost predicate Reached(boot: World, w: World, run: seq<Event>) {
    IsBoot(boot) && Possible(boot, run) && w == After(boot, run)
  }

  lemma BootIsGood(boot: World)
    requires IsBoot(boot)
    ensures Good(boot)
  {
    assert HolderStage(boot) == Done && PinCount(boot) == 0;
    assert WellFormed(boot.e) && OneOwner(boot);
  }

  lemma ReachedIsGood(boot: World, w: World, run: seq<Event>)
    requires Reached(boot, w, run)
    ensures Good(w)
  {
    BootIsGood(boot);
    RunKeepsGood(boot, run);
  }

  /** In every interleaving releases never exceed acquires, at most one pin is out at a
      time, and once everybody has finished every pin has been given back. */
  lemma PinsBalance(boot: World, w: World, run: seq<Event>)
    requires Reached(boot, w, run)
    ensures w.releases <= w.acquires <= w.releases + 1
    ensures w.taken <==> w.acquires == w.releases + 1
    ensures Idle(w) ==> !w.e.active && !w.taken && w.acquires == w.releases
  {
    ReachedIsGood(boot, w, run);
  }

  /** The pending flag is never up while a starter holds the reservation, and
      when it is up the slot is active, pinned and backed by data. */
  lemma PendingMeansPinned(boot: World, w: World, run: seq<Event>)
    requires Reached(boot, w, run)
    ensures w.e.sendPending ==> w.e.active && w.e.acquired && w.e.data.Some? && w.e.length > 0
    ensures w.e.sendPending ==> forall id :: id in w.starters ==> w.starters[id].stage.Done?
    ensures forall i, j | i in w.starters && j in w.starters :: w.starters[i].stage.Done? || w.starters[j].stage.Done? || i == j
  {
    ReachedIsGood(boot, w, run);
  }

  /** Whenever the worker reaches its critical section it copies, and it copies from the
      published snapshot, whose semaphore is still taken. */
  lemma CopyReadsPinnedSnapshot(boot: World, w: World, run: seq<Event>, high: u64, low: u64)
    requires Reached(boot, w, run) && w.worker.Woken? && (high != 0 || low != 0)
    ensures WellFormed(w.e) && w.e.acquired && w.taken && w.e.data == Some(w.serving)
    ensures var p := Prepare(w.e, high, low).1;
      && p.Send? && p.offset + p.size <= |w.serving|
      && p.chunk.data == w.serving[p.offset..p.offset + p.size]
  {
    ReachedIsGood(boot, w, run);
    PrepareSendsFirstOwed(w.e, high, low);
  }

  /** No reachable thread is ever stuck on a side condition of `Enabled`. */
  lemma ThreadsNeverBlock(boot: World, w: World, run: seq<Event>, id: nat)
    requires Reached(boot, w, run)
    ensures w.worker.Woken? ==> Enabled(w, Copy(true, 0, 1))
    ensures w.worker.Transmitting? ==> Enabled(w, Transmit(true))
    ensures id in w.starters && w.starters[id].stage.Pinned? ==> Enabled(w, Judge(id, 0))
    ensures id in w.starters ==> !w.starters[id].stage.Releasing?
  {
    ReachedIsGood(boot, w, run);
  }

  /** A pull is on its way: scheduled, or with the worker. */
  predicate InTransfer(w: World) {
    w.e.sendPending || w.worker.Woken? || w.worker.Resuming? || w.worker.Transmitting?
  }

  lemma SentIsShort(w: World)
    requires Good(w) && InTransfer(w)
    ensures BodiesOf(w.sent) <= Planned(w) && |w.sent| < |Planned(w)|
  {
    if w.worker.Transmitting? {
      CommitPaysFirstOwed(w.e, w.worker.p);
    } else {
      PrepareSendsFirstOwed(w.e, 0, 1);
    }
  }

  /** Still the same pull, after `n` sends. */
  ghost predicate Continues(w: World, w': World, n: nat) {
    InTransfer(w') && |w'.sent| == n && w'.serving == w.serving && w'.request == w.request
  }

  lemma CompletesWithLast(w: World)
    requires Good(w) && w.worker.Transmitting?
    ensures Enabled(w, Transmit(true))
    ensures var w' := Apply(w, Transmit(true));
      && w'.serving == w.serving && w'.request == w.request && |w'.sent| == |w.sent| + 1
      && (w'.worker.Clearing? <==> |w'.sent| == |Planned(w)|)
      && (w'.worker.Clearing? ==> BodiesOf(w'.sent) == Planned(w))
      && (!w'.worker.Clearing? ==> Continues(w, w', |w.sent| + 1))
  {
    CommitPaysFirstOwed(w.e, w.worker.p);
    SendMovesOneBody(w.e, w.worker.p, w.sent, Planned(w));
  }

  /** A successful send completes the transfer exactly when it is the last of the plan.
      The whole plan of the request has then been sent; for a full pull the receiver
      holds the snapshot, for a single chunk it holds that body of the full pull. */
  lemma CompletionSendsPlan(boot: World, w: World, run: seq<Event>)
    requires Reached(boot, w, run) && w.worker.Transmitting?
    ensures Enabled(w, Transmit(true))
    ensures var w' := Apply(w, Transmit(true));
      && (w'.worker.Clearing? <==> |w'.sent| == |Planned(w)|)
      && (w'.worker.Clearing? ==> BodiesOf(w'.sent) == PlanOf(w'.serving, w'.request))
      && (w'.worker.Clearing? && w'.request.chunkIndex < 0 ==> Rebuilds(BodiesOf(w'.sent), w'.serving))
      && (w'.worker.Clearing? && w'.request.chunkIndex >= 0 ==>
            var full := Rest(w'.serving, 0, |w'.serving|, 0);
            w'.request.chunkIndex < |full| && BodiesOf(w'.sent) == [full[w'.request.chunkIndex]])
  {
    ReachedIsGood(boot, w, run);
    CompletesWithLast(w);
    assert w.e.data == Some(w.serving) && w.serving != [];
    SentIsShort(w);
    if w.request.chunkIndex < 0 {
      FirmwarePullRebuilds(w.serving);
    } else {
      SingleChunkPullMatchesFull(w.serving, w.request);
    }
  }

  // ---- Where the chunks go -----------------------------------------------------------

  /** A chunk of a pull: to the requester, under one message id, in the group asked for or,
      when none was, in one named by the low half of that id. */
  predicate Labelled(c: Chunk, q: Request, via: u64, id: MessageId) {
    && c.dest == q.requester && c.nextHop == via && c.idHigh == id.high && c.idLow == id.low
    && c.group == (if q.group != 0 then q.group else id.low)
    && c.index == (c.sequence - 1) % WORD16
  }

  /** The target stands for the request installed last, named once its first chunk is out. */
  predicate TargetFits(t: Target, w: World) {
    && t.dest == w.request.requester && t.nextHop == w.via && t.group == w.request.group
    && (w.name.None? ==> t.idHigh == 0 && t.idLow == 0)
    && (w.name.Some? ==> t.idHigh == w.name.value.high && t.idLow == w.name.value.low && (t.idHigh != 0 || t.idLow != 0))
  }

  ghost predicate Addressed(w: World)
    requires |w.e.targets| == TARGETS
  {
    && (HolderStage(w).Scheduling? || InTransfer(w) ==> TargetFits(w.e.targets[0], w))
    && (w.worker.Transmitting? ==>
          w.worker.p.Send? && w.name.Some? && Labelled(w.worker.p.chunk, w.request, w.via, w.name.value))
    && (forall c :: c in w.sent ==> w.name.Some? && Labelled(c, w.request, w.via, w.name.value))
    && (w.e.active ==> w.e.requester == w.reserved.requester
                       && w.e.requestHigh == w.reserved.idHigh && w.e.requestLow == w.reserved.idLow)
  }

  lemma CopyKeepsAddressed(w: World, ev: Event)
    requires Good(w) && Addressed(w) && ev.Copy? && Enabled(w, ev)
    ensures Addressed(Apply(w, ev))
  {
    if ev.haveSelfMac {
      PrepareLabelsChunk(w.e, ev.high, ev.low);
    }
  }

  lemma TransmitKeepsAddressed(w: World, ev: Event)
    requires Good(w) && Addressed(w) && ev.Transmit? && Enabled(w, ev)
    ensures Addressed(Apply(w, ev))
  {
    if ev.ok {
      CommitPaysFirstOwed(w.e, w.worker.p);
    }
  }

  lemma JudgeKeepsAddressed(w: World, ev: Event)
    requires Good(w) && Addressed(w) && ev.Judge? && Enabled(w, ev)
    ensures Addressed(Apply(w, ev))
  {
  }

  lemma ArriveKeepsAddressed(w: World, ev: Event)
    requires Good(w) && Addressed(w) && ev.Arrive? && Enabled(w, ev)
    ensures Addressed(Apply(w, ev))
  {
  }

  /** The other steps of starters and publishers touch neither the target nor what was sent
      for it. */
  lemma StartersKeepAddressed(w: World, ev: Event)
    requires Good(w) && Addressed(w) && Enabled(w, ev)
    requires ev.Publish? || ev.Acquire? || ev.GiveBack? || ev.Abandon? || ev.StarterRelease? || ev.ScheduleFirst?
    ensures Addressed(Apply(w, ev))
  {
  }

  lemma WorkerKeepsAddressed(w: World, ev: Event)
    requires Good(w) && Addressed(w) && Enabled(w, ev)
    requires ev.Wake? || ev.Resume? || ev.Clear? || ev.WorkerRelease?
    ensures Addressed(Apply(w, ev))
  {
  }

  lemma StepKeepsAddressed(w: World, ev: Event)
    requires Good(w) && Addressed(w) && Enabled(w, ev)
    ensures |Apply(w, ev).e.targets| == TARGETS && Addressed(Apply(w, ev))
  {
    StepKeepsGood(w, ev);
    match ev
    case Copy(_, _, _) => CopyKeepsAddressed(w, ev);
    case Transmit(_) => TransmitKeepsAddressed(w, ev);
    case Judge(_, _) => JudgeKeepsAddressed(w, ev);
    case Arrive(_, _) => ArriveKeepsAddressed(w, ev);
    case Wake => WorkerKeepsAddressed(w, ev);
    case Resume => WorkerKeepsAddressed(w, ev);
    case Clear => WorkerKeepsAddressed(w, ev);
    case WorkerRelease => WorkerKeepsAddressed(w, ev);
    case _ => StartersKeepAddressed(w, ev);
  }

  lemma {:induction false} RunKeepsAddressed(w: World, run: seq<Event>)
    requires Good(w) && Addressed(w) && Possible(w, run)
    ensures Good(After(w, run)) && Addressed(After(w, run))
    decreases run
  {
    if run == [] {
    } else {
      StepKeepsGood(w, run[0]);
      StepKeepsAddressed(w, run[0]);
      RunKeepsAddressed(Apply(w, run[0]), run[1..]);
    }
  }

  /** In every interleaving each chunk sent for a request goes to its requester through the
      next hop looked up for it, under the message id drawn for the transfer, in the group
      the request names or, when it names none, in one named by the low half of that id. */
  lemma ChunksAreAddressed(boot: World, w: World, run: seq<Event>, c: Chunk)
    requires Reached(boot, w, run) && c in w.sent
    ensures w.name.Some? && c.dest == w.request.requester && c.nextHop == w.via
    ensures c.idHigh == w.name.value.high && c.idLow == w.name.value.low
    ensures c.group == if w.request.group != 0 then w.request.group else w.name.value.low
    ensures c.index == (c.sequence - 1) % WORD16
  {
    BootIsGood(boot);
    RunKeepsAddressed(boot, run);
  }

  /** What has gone out while a transfer runs is a proper prefix of what its request is
      to be served out of the pinned snapshot, all under one group id. */
  lemma SentIsPrefixOfPlan(boot: World, w: World, run: seq<Event>)
    requires Reached(boot, w, run) && InTransfer(w)
    ensures BodiesOf(w.sent) <= Planned(w) && |w.sent| < |Planned(w)|
    ensures forall c, d :: c in w.sent && d in w.sent ==> c.group == d.group
  {
    BootIsGood(boot);
    RunKeepsAddressed(boot, run);
    SentIsShort(w);
  }

  // ---- Who is served -------------------------------------------------------------------

  /** The slot is free exactly when no request holds it; a request that finds it taken is
      called a duplicate exactly when the one that holds it has its requester and id. */
  lemma VerdictIs(boot: World, w: World, run: seq<Event>, q: Request)
    requires Reached(boot, w, run)
    ensures Reserve(w.e, q).1.Reserved? <==> !w.e.active
    ensures Reserve(w.e, q).1.Duplicate? <==>
      w.e.active && (w.reserved.requester, w.reserved.idHigh, w.reserved.idLow) == (q.requester, q.idHigh, q.idLow)
    ensures w.e.active ==> Reserve(w.e, q).0 == w.e
  {
    BootIsGood(boot);
    RunKeepsAddressed(boot, run);
  }

  /** An arriving request reserves the slot exactly when its requester is a real address and
      the slot is free; otherwise its starter is done and the transfer untouched. */
  lemma ArrivalHoldsIff(w: World, id: nat, raw: Request)
    requires Enabled(w, Arrive(id, raw))
    ensures var w', to := Apply(w, Arrive(id, raw)), raw.requester % 0x1_0000_0000_0000;
      if to !in {0, 0xFFFF_FFFF_FFFF} && !w.e.active then
        && w'.starters[id] == Starter(raw.(requester := to), Holding) && w'.holder == Some(id)
        && w'.e == w.e.(active := true, requester := to, requestHigh := raw.idHigh, requestLow := raw.idLow)
      else w'.starters[id].stage.Done? && w'.e == w.e && w'.holder == w.holder
  {
  }

  /** A starter pins the published snapshot exactly when there is one and nobody has it
      pinned; otherwise it gives the slot back. */
  lemma AcquirePinsIff(w: World, id: nat, ready: bool)
    requires Enabled(w, Acquire(id, ready))
    ensures var w' := Apply(w, Acquire(id, ready));
      if ready && !w.taken && w.serving != [] then
        w'.starters[id].stage == Pinned(w.serving) && w'.taken && w'.e == w.e
      else w'.starters[id].stage.Abandoning? && w'.taken == w.taken && w'.e == w.e
  {
  }

  /** Nothing but a publication changes what is served, and it takes effect at once. */
  lemma OnlyPublishReplaces(w: World, ev: Event)
    requires Enabled(w, ev)
    ensures Apply(w, ev).serving == if ev.Publish? then ev.data else w.serving
    ensures ev.Publish? ==> !w.taken
  {
  }

  /** A send that fails, or a worker that does not know its own address, ends the transfer:
      after two steps of cleaning up slot and snapshot are free again. */
  lemma FailureFrees(w: World, ev: Event)
    requires Good(w) && Enabled(w, ev) && ((ev.Transmit? && !ev.ok) || (ev.Copy? && !ev.haveSelfMac))
    ensures var w1 := Apply(w, ev);
      && w1.sent == w.sent && Enabled(w1, Clear)
      && var w2 := Apply(w1, Clear);
      && Enabled(w2, WorkerRelease)
      && var w3 := Apply(w2, WorkerRelease);
      w3.worker.Resting? && !w3.taken && !w3.e.active && !w3.e.acquired && !w3.e.sendPending && w3.e.data.None?
  {
    StepKeepsGood(w, ev);
  }

  /** The snapshot has the length the request expects, and the chunk it asks for. */
  predicate Servable(q: Request, d: Snapshot) {
    && (q.expectedLength == 0 || q.expectedLength == |d|)
    && (q.chunkIndex < 0 || (q.group != 0 && 220 * q.chunkIndex < |d|))
  }

  /** A starter with a pinned snapshot installs its pull exactly when the snapshot can
      serve it, and otherwise gives the snapshot back and leaves the transfer alone. */
  lemma JudgeServesIff(w: World, id: nat, nextHop: u64)
    requires Enabled(w, Judge(id, nextHop))
    ensures var q, d, w' := w.starters[id].q, w.starters[id].stage.data, Apply(w, Judge(id, nextHop));
      && (w'.starters[id].stage.Scheduling? <==> Servable(q, d))
      && (Servable(q, d) ==>
            w'.request == q && w'.via == nextHop && w'.sent == [] && w'.e.acquired && w'.e.data == Some(d))
      && (!Servable(q, d) ==> w'.starters[id].stage.Unpinning? && w'.e == w.e && w'.request == w.request)
  {
  }

  /** The four steps of a starter that nobody interrupts. */
  function Start(id: nat, raw: Request, nextHop: u64): seq<Event> {
    [Arrive(id, raw), Acquire(id, true), Judge(id, nextHop), ScheduleFirst(id)]
  }

  lemma RunFrom(w: World, ev: Event, rest: seq<Event>)
    requires Enabled(w, ev) && Possible(Apply(w, ev), rest)
    ensures Possible(w, [ev] + rest) && After(w, [ev] + rest) == After(Apply(w, ev), rest)
  {
    assert ([ev] + rest)[1..] == rest;
  }

  /** What the last two steps lead to. */
  ghost predicate Starts(w: World, w': World, q: Request, nextHop: u64) {
    && w'.e.sendPending && w'.worker == w.worker && w'.serving == w.serving && w'.sent == []
    && w'.request == q && w'.via == nextHop
  }

  lemma PinnedStarterServes(w: World, id: nat, q: Request, nextHop: u64)
    requires id in w.starters && w.starters[id] == Starter(q, Pinned(w.serving)) && w.serving != [] && Servable(q, w.serving)
    ensures var run := [Judge(id, nextHop)] + ([ScheduleFirst(id)] + []);
      Possible(w, run) && Starts(w, After(w, run), q, nextHop)
  {
    JudgeServesIff(w, id, nextHop);
    var w1 := Apply(w, Judge(id, nextHop));
    RunFrom(w1, ScheduleFirst(id), []);
    RunFrom(w, Judge(id, nextHop), [ScheduleFirst(id)] + []);
  }

  /** A request that finds the slot and the snapshot free, and that the snapshot can serve,
      becomes the transfer that the worker serves. */
  lemma FreeSlotServes(w: World, id: nat, raw: Request, nextHop: u64)
    requires !w.e.active && !w.taken && w.serving != [] && id !in w.starters
    requires raw.requester % 0x1_0000_0000_0000 !in {0, 0xFFFF_FFFF_FFFF} && Servable(raw, w.serving)
    ensures Possible(w, Start(id, raw, nextHop))
    ensures Starts(w, After(w, Start(id, raw, nextHop)), raw.(requester := raw.requester % 0x1_0000_0000_0000), nextHop)
  {
    var q := raw.(requester := raw.requester % 0x1_0000_0000_0000);
    var w1 := Apply(w, Arrive(id, raw));
    ArrivalHoldsIff(w, id, raw);
    var w2 := Apply(w1, Acquire(id, true));
    PinnedStarterServes(w2, id, q, nextHop);
    var tail := [Judge(id, nextHop)] + ([ScheduleFirst(id)] + []);
    RunFrom(w1, Acquire(id, true), tail);
    RunFrom(w, Arrive(id, raw), [Acquire(id, true)] + tail);
    assert Start(id, raw, nextHop) == [Arrive(id, raw)] + ([Acquire(id, true)] + tail);
  }

  // ---- A transfer whose sends succeed ----------------------------------------------

  predicate Succeeds(ev: Event) {
    (ev.Copy? ==> ev.haveSelfMac) && (ev.Transmit? ==> ev.ok)
  }

  function Commits(run: seq<Event>): nat {
    if run == [] then 0 else (if run[0].Transmit? && run[0].ok then 1 else 0) + Commits(run[1..])
  }

  /** Nobody else can touch a transfer; a step of its own that is not a send keeps it
      going. */
  lemma ArrivalKeepsTransfer(w: World, ev: Event)
    requires Good(w) && InTransfer(w) && Enabled(w, ev) && ev.Arrive?
    ensures Continues(w, Apply(w, ev), |w.sent|)
  {
  }

  lemma CopyKeepsTransfer(w: World, ev: Event)
    requires Good(w) && Enabled(w, ev) && ev.Copy? && ev.haveSelfMac
    ensures Continues(w, Apply(w, ev), |w.sent|)
  {
    PrepareSendsFirstOwed(w.e, ev.high, ev.low);
  }

  lemma WorkerKeepsTransfer(w: World, ev: Event)
    requires Good(w) && InTransfer(w) && Enabled(w, ev) && (ev.Wake? || ev.Resume?)
    ensures Continues(w, Apply(w, ev), |w.sent|)
  {
  }

  /** No starter is between its steps, and the worker has nothing to clean up. */
  lemma OnlyTheseMove(w: World, ev: Event)
    requires Good(w) && InTransfer(w) && Enabled(w, ev)
    ensures ev.Arrive? || ev.Copy? || ev.Transmit? || ev.Wake? || ev.Resume?
  {
  }

  lemma StepKeepsTransfer(w: World, ev: Event)
    requires Good(w) && InTransfer(w) && Enabled(w, ev) && Succeeds(ev)
    requires ev.Transmit? ==> |w.sent| + 1 < |Planned(w)|
    ensures Continues(w, Apply(w, ev), |w.sent| + if ev.Transmit? then 1 else 0)
  {
    OnlyTheseMove(w, ev);
    match ev
    case Transmit(_) => CompletesWithLast(w);
    case Copy(_, _, _) => CopyKeepsTransfer(w, ev);
    case Arrive(_, _) => ArrivalKeepsTransfer(w, ev);
    case _ => WorkerKeepsTransfer(w, ev);
  }

  /** In any interleaving in which the copies and sends of the worker succeed, a transfer
      goes on until it has made as many sends as its plan has bodies. */
  lemma {:induction false} TransferGoesOn(w: World, run: seq<Event>)
    requires Good(w) && InTransfer(w) && Possible(w, run)
    requires forall i :: 0 <= i < |run| ==> Succeeds(run[i])
    requires |w.sent| + Commits(run) < |Planned(w)|
    ensures Good(After(w, run)) && Continues(w, After(w, run), |w.sent| + Commits(run))
    decreases run
  {
    if run == [] {
    } else {
      StepKeepsGood(w, run[0]);
      StepKeepsTransfer(w, run[0]);
      TransferGoesOn(Apply(w, run[0]), run[1..]);
    }
  }

  /** And it completes with exactly that send. */
  lemma TransferTakesPlanSends(w: World, run: seq<Event>)
    requires Good(w) && InTransfer(w) && Possible(w, run) && After(w, run).worker.Transmitting?
    requires forall i :: 0 <= i < |run| ==> Succeeds(run[i])
    requires |w.sent| + Commits(run) < |Planned(w)|
    ensures Enabled(After(w, run), Transmit(true))
    ensures var w' := Apply(After(w, run), Transmit(true));
      && (w'.worker.Clearing? <==> |w.sent| + Commits(run) + 1 == |Planned(w)|)
      && (w'.worker.Clearing? ==> BodiesOf(w'.sent) == Planned(w))
  {
    TransferGoesOn(w, run);
    CompletesWithLast(After(w, run));
  }
}
