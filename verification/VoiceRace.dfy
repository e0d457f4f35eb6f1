/** The realtime queue with any number of producers and one consumer, each
    queue operation one atomic step. */
module VoiceRace {
  import opened Words
  import opened VoiceQueue

  /** Where a producer stands between two queue operations; `d` says whether it
      has already shed a frame, `ok` whether its own was taken. */
  datatype Phase =
    | Measuring
    | Shedding
    | Offering(d: bool)
    | SheddingAgain
    | OfferingAgain
    | Counting(ok: bool)
    | Done(ok: bool)

  datatype Producer = Producer(frame: Frame, limit: nat, phase: Phase)

  /** `queue` and `drops` are the firmware's; the rest is history. `removed` lists
      what has left the head, shed or dequeued, in order. */
  datatype World = World(
    queue: seq<Frame>,
    drops: nat,
    producers: seq<Producer>,
    accepted: seq<Frame>,
    removed: seq<Frame>,
    dequeued: nat,
    shed: nat,
    refusedSpeed: nat,
    refusedVoice: nat)

  predicate IsBoot(w: World) {
    && w.queue == [] && w.drops == 0 && w.producers == [] && w.accepted == [] && w.removed == []
    && w.dequeued == 0 && w.shed == 0 && w.refusedSpeed == 0 && w.refusedVoice == 0
  }

  datatype Event = Arrive(frame: Frame, limit: nat) | Step(id: nat) | Consume

  predicate Enabled(w: World, ev: Event) {
    match ev
    case Arrive(_, _) => true
    case Step(id) => id < |w.producers| && !w.producers[id].phase.Done?
    case Consume => w.queue != []
  }

  function Move(w: World, id: nat, phase: Phase): World
    requires id < |w.producers|
  {
    w.(producers := w.producers[id := w.producers[id].(phase := phase)])
  }

  function ShedHead(w: World): World
    requires w.queue != []
  {
    w.(queue := w.queue[1..], removed := w.removed + [w.queue[0]], shed := w.shed + 1)
  }

  function TakeFrame(w: World, f: Frame): World {
    w.(queue := w.queue + [f], accepted := w.accepted + [f])
  }

  /** The next phase of a producer, given how full the queue is. */
  function NextPhase(p: Producer, waiting: nat): Phase {
    match p.phase
    case Measuring => if waiting >= p.limit then Shedding else Offering(false)
    case Shedding => Offering(waiting > 0)
    case Offering(d) =>
      if waiting < DEPTH then if d then Counting(true) else Done(true)
      else if IsSpeed(p.frame) || d then Counting(false)
      else SheddingAgain
    case SheddingAgain => if waiting > 0 then OfferingAgain else Done(false)
    case OfferingAgain => Counting(waiting < DEPTH)
    case Counting(ok) => Done(ok)
    case Done(ok) => Done(ok)
  }

  /** What the queue operation of a producer does to everything but its phase. */
  function Effect(w: World, p: Producer): World {
    match p.phase
    case Measuring => w
    case Shedding => if w.queue == [] then w else ShedHead(w)
    case Offering(d) =>
      if |w.queue| < DEPTH then TakeFrame(w, p.frame)
      else if IsSpeed(p.frame) then w.(refusedSpeed := w.refusedSpeed + 1)
      else if d then w.(refusedVoice := w.refusedVoice + 1)
      else w
    case SheddingAgain => if w.queue == [] then w.(refusedVoice := w.refusedVoice + 1) else ShedHead(w)
    case OfferingAgain =>
      if |w.queue| < DEPTH then TakeFrame(w, p.frame) else w.(refusedVoice := w.refusedVoice + 1)
    case Counting(_) => w.(drops := w.drops + 1)
    case Done(_) => w
  }

  function Apply(w: World, ev: Event): World
    requires Enabled(w, ev)
  {
    match ev
    case Arrive(f, limit) =>
      w.(producers := w.producers + [Producer(f, limit, if IsSpeed(f) then Offering(false) else Measuring)])
    case Consume => w.(queue := w.queue[1..], removed := w.removed + [w.queue[0]], dequeued := w.dequeued + 1)
    case Step(id) =>
      Move(Effect(w, w.producers[id]), id, NextPhase(w.producers[id], |w.queue|))
  }

  // ---- Conservation -------------------------------------------------------------------

  /** What is counted over the producers: those whose frame's fate is open, those whose
      frame was taken, and those that still have a loss to count. */
  datatype Tally = FateOpen | Taken | LossOwed

  function Of(p: Producer, what: Tally): nat {
    match what
    case FateOpen => if p.phase.Counting? || p.phase.Done? then 0 else 1
    case Taken => if p.phase == Counting(true) || p.phase == Done(true) then 1 else 0
    case LossOwed => if p.phase == Offering(true) || p.phase.OfferingAgain? || p.phase.Counting? then 1 else 0
  }

  function Total(ps: seq<Producer>, what: Tally): nat {
    if ps == [] then 0 else Total(ps[..|ps| - 1], what) + Of(ps[|ps| - 1], what)
  }

  lemma {:induction false} TotalOfUpdate(ps: seq<Producer>, what: Tally, i: nat, p: Producer)
    requires i < |ps|
    ensures Total(ps[i := p], what) == Total(ps, what) - Of(ps[i], what) + Of(p, what)
  {
    var n := |ps| - 1;
    if i == n {
      assert ps[i := p][..n] == ps[..n];
    } else {
      assert ps[i := p][..n] == ps[..n][i := p];
      TotalOfUpdate(ps[..n], what, i, p);
    }
  }

  lemma {:induction false} TotalIsZero(ps: seq<Producer>, what: Tally)
    requires forall i :: 0 <= i < |ps| ==> Of(ps[i], what) == 0
    ensures Total(ps, what) == 0
  {
    if ps == [] {
    } else {
      TotalIsZero(ps[..|ps| - 1], what);
    }
  }

  ghost predicate InOrder(w: World) {
    && |w.queue| <= DEPTH
    && w.removed + w.queue == w.accepted
    && |w.removed| == w.dequeued + w.shed
  }

  /** Speed frames are never shed for, voice frames are measured first. */
  predicate PhaseFits(p: Producer) {
    IsSpeed(p.frame) ==> p.phase == Offering(false) || p.phase.Counting? || p.phase.Done?
  }

  ghost predicate Counted(w: World) {
    && |w.producers| == |w.accepted| + w.refusedSpeed + w.refusedVoice + Total(w.producers, FateOpen)
    && |w.accepted| == Total(w.producers, Taken)
    && w.shed + w.refusedSpeed == w.drops + Total(w.producers, LossOwed)
    && forall i :: 0 <= i < |w.producers| ==> PhaseFits(w.producers[i])
  }

  lemma StepKeepsOrder(w: World, ev: Event)
    requires InOrder(w) && Enabled(w, ev)
    ensures InOrder(Apply(w, ev))
  {
    if w.queue != [] {
      assert w.removed + [w.queue[0]] + w.queue[1..] == w.removed + w.queue;
    }
    if ev.Step? {
      var f := w.producers[ev.id].frame;
      assert w.removed + (w.queue + [f]) == (w.removed + w.queue) + [f];
    }
  }

  /** A queue operation settles exactly what it changes in the producer's tallies. */
  lemma EffectBalances(w: World, p: Producer)
    requires PhaseFits(p) && !p.phase.Done?
    ensures var w', p' := Effect(w, p), p.(phase := NextPhase(p, |w.queue|));
      && PhaseFits(p')
      && |w'.accepted| + w'.refusedSpeed + w'.refusedVoice + Of(p', FateOpen)
         == |w.accepted| + w.refusedSpeed + w.refusedVoice + Of(p, FateOpen)
      && w'.shed + w'.refusedSpeed - w'.drops - Of(p', LossOwed) == w.shed + w.refusedSpeed - w.drops - Of(p, LossOwed)
      && |w'.accepted| - Of(p', Taken) == |w.accepted| - Of(p, Taken)
      && w'.producers == w.producers
  {
  }

  lemma ArriveKeepsCounted(w: World, ev: Event)
    requires Counted(w) && ev.Arrive?
    ensures Counted(Apply(w, ev))
  {
    var ps := Apply(w, ev).producers;
    assert ps[..|ps| - 1] == w.producers;
  }

  lemma OperationKeepsCounted(w: World, id: nat)
    requires Counted(w) && Enabled(w, Step(id))
    ensures Counted(Apply(w, Step(id)))
  {
    var p := w.producers[id];
    var p' := p.(phase := NextPhase(p, |w.queue|));
    EffectBalances(w, p);
    TotalOfUpdate(w.producers, FateOpen, id, p');
    TotalOfUpdate(w.producers, Taken, id, p');
    TotalOfUpdate(w.producers, LossOwed, id, p');
    var w1, w2 := Effect(w, p), Apply(w, Step(id));
    assert w2 == w1.(producers := w.producers[id := p']);
  }

  // ---- Whole runs --------------------------------------------------------------------------

  ghost predicate Possible(w: World, run: seq<Event>)
    decreases run
  {
    run != [] ==> Enabled(w, run[0]) && Possible(Apply(w, run[0]), run[1..])
  }

  ghost function After(w: World, run: seq<Event>): World
    requires Possible(w, run)
    decreases run
  {
    if run == [] then w else After(Apply(w, run[0]), run[1..])
  }

  lemma {:induction false} RunKeepsBalance(w: World, run: seq<Event>)
    requires InOrder(w) && Counted(w) && Possible(w, run)
    ensures InOrder(After(w, run)) && Counted(After(w, run))
    decreases run
  {
    if run == [] {
    } else {
      StepKeepsOrder(w, run[0]);
      match run[0] {
        case Arrive(_, _) => ArriveKeepsCounted(w, run[0]);
        case Step(id) => OperationKeepsCounted(w, id);
        case Consume =>
      }
      RunKeepsBalance(Apply(w, run[0]), run[1..]);
    }
  }

  predicate AtRest(w: World) {
    forall i :: 0 <= i < |w.producers| ==> w.producers[i].phase.Done?
  }

  lemma RestBalances(w: World)
    requires Counted(w) && AtRest(w)
    ensures |w.producers| == |w.accepted| + w.refusedSpeed + w.refusedVoice
    ensures w.drops == w.shed + w.refusedSpeed
  {
    TotalIsZero(w.producers, FateOpen);
    TotalIsZero(w.producers, LossOwed);
  }

  lemma BootIsCounted(boot: World)
    requires IsBoot(boot)
    ensures InOrder(boot) && Counted(boot)
  {
    TotalIsZero(boot.producers, FateOpen);
    TotalIsZero(boot.producers, Taken);
    TotalIsZero(boot.producers, LossOwed);
  }

  lemma ReachedIsCounted(boot: World, run: seq<Event>)
    requires IsBoot(boot) && Possible(boot, run)
    ensures InOrder(After(boot, run)) && Counted(After(boot, run))
  {
    BootIsCounted(boot);
    RunKeepsBalance(boot, run);
  }

  lemma FatesBalance(w: World)
    requires InOrder(w) && Counted(w) && AtRest(w)
    ensures |w.producers| == w.dequeued + |w.queue| + w.shed + w.refusedSpeed + w.refusedVoice
    ensures w.drops == w.shed + w.refusedSpeed
  {
    RestBalances(w);
    assert |w.removed + w.queue| == |w.removed| + |w.queue|;
  }

  /** In every interleaving frames leave in the order they were accepted and at
      most 32 wait. At rest every offered frame was dequeued, is waiting, was shed
      or was refused, and the drop counter is what was shed plus the speed frames
      refused. */
  lemma FramesAreConserved(boot: World, run: seq<Event>, w: World)
    requires IsBoot(boot) && Possible(boot, run) && w == After(boot, run)
    ensures w.removed + w.queue == w.accepted && |w.queue| <= 32
    ensures AtRest(w) ==> |w.producers| == w.dequeued + |w.queue| + w.shed + w.refusedSpeed + w.refusedVoice
    ensures AtRest(w) ==> w.drops == w.shed + w.refusedSpeed
    ensures Total(w.producers, Taken) == |w.accepted|
  {
    ReachedIsCounted(boot, run);
    if AtRest(w) {
      FatesBalance(w);
    }
  }

  // ---- When a voice frame is refused ---------------------------------------------------------

  /** A voice frame has shed and finds the queue full again, or was about to shed after
      a full queue and finds it empty. */
  predicate Refuses(w: World, ev: Event)
    requires Enabled(w, ev)
  {
    ev.Step? &&
    var p := w.producers[ev.id];
    || (p.phase == Offering(true) && !IsSpeed(p.frame) && |w.queue| >= DEPTH)
    || (p.phase.SheddingAgain? && w.queue == [])
    || (p.phase.OfferingAgain? && |w.queue| >= DEPTH)
  }

  ghost function Refusals(w: World, run: seq<Event>): nat
    requires Possible(w, run)
    decreases run
  {
    if run == [] then 0 else (if Refuses(w, run[0]) then 1 else 0) + Refusals(Apply(w, run[0]), run[1..])
  }

  lemma {:induction false} RefusalsAreCounted(w: World, run: seq<Event>)
    requires Possible(w, run)
    ensures After(w, run).refusedVoice == w.refusedVoice + Refusals(w, run)
    decreases run
  {
    if run == [] {
    } else {
      RefusalsAreCounted(Apply(w, run[0]), run[1..]);
    }
  }

  /** At rest the drop counter tells every loss if and only if no voice frame found, in
      its turn, the queue filled again after its shed or emptied before its second. */
  lemma CounterIsCompleteIff(boot: World, run: seq<Event>, w: World)
    requires IsBoot(boot) && Possible(boot, run) && w == After(boot, run) && AtRest(w)
    ensures w.drops == w.shed + w.refusedSpeed + w.refusedVoice <==> Refusals(boot, run) == 0
  {
    ReachedIsCounted(boot, run);
    FatesBalance(w);
    RefusalsAreCounted(boot, run);
  }

  /** What an event adds to the queue and takes from it. */
  function Gain(w: World, ev: Event): int
    requires Enabled(w, ev)
  {
    match ev
    case Arrive(_, _) => 0
    case Consume => -1
    case Step(id) =>
      var phase := w.producers[id].phase;
      if phase.Offering? || phase.OfferingAgain? then if |w.queue| < DEPTH then 1 else 0
      else if phase.Shedding? || phase.SheddingAgain? then if w.queue != [] then -1 else 0
      else 0
  }

  ghost function NetGain(w: World, run: seq<Event>): int
    requires Possible(w, run)
    decreases run
  {
    if run == [] then 0 else Gain(w, run[0]) + NetGain(Apply(w, run[0]), run[1..])
  }

  predicate ByOthers(run: seq<Event>, id: nat) {
    forall i :: 0 <= i < |run| ==> run[i] != Step(id)
  }

  /** What the others do meanwhile: a producer keeps its place, the queue grows by their
      net insertions. */
  lemma {:induction false} OthersMeanwhile(w: World, run: seq<Event>, id: nat)
    requires InOrder(w) && Possible(w, run) && id < |w.producers| && ByOthers(run, id)
    ensures var w' := After(w, run);
      && InOrder(w') && id < |w'.producers| && w'.producers[id] == w.producers[id]
      && |w'.queue| == |w.queue| + NetGain(w, run)
    decreases run
  {
    if run == [] {
    } else {
      StepKeepsOrder(w, run[0]);
      OthersMeanwhile(Apply(w, run[0]), run[1..], id);
    }
  }

  /** A voice frame that has shed is refused exactly when, by the time it is offered, the
      others' net insertions have filled the queue again. */
  lemma ShedFrameIsRefusedIff(w: World, run: seq<Event>, id: nat)
    requires InOrder(w) && Enabled(w, Step(id)) && !IsSpeed(w.producers[id].frame) && w.queue != []
    requires w.producers[id].phase.Shedding? || w.producers[id].phase.SheddingAgain?
    requires Possible(Apply(w, Step(id)), run) && ByOthers(run, id)
    ensures var w1 := Apply(w, Step(id));
      Enabled(After(w1, run), Step(id))
      && (Refuses(After(w1, run), Step(id)) <==> NetGain(w1, run) == DEPTH - |w.queue| + 1)
  {
    StepKeepsOrder(w, Step(id));
    OthersMeanwhile(Apply(w, Step(id)), run, id);
  }

  /** A voice frame that met a full queue without having shed is refused without a second
      offer exactly when the others have emptied the queue before its shed. */
  lemma UnshedFrameIsRefusedIff(w: World, run: seq<Event>, id: nat)
    requires InOrder(w) && Enabled(w, Step(id)) && !IsSpeed(w.producers[id].frame)
    requires w.producers[id].phase == Offering(false) && |w.queue| == DEPTH
    requires Possible(Apply(w, Step(id)), run) && ByOthers(run, id)
    ensures var w1 := Apply(w, Step(id));
      Enabled(After(w1, run), Step(id))
      && (Refuses(After(w1, run), Step(id)) <==> NetGain(w1, run) + DEPTH == 0)
  {
    StepKeepsOrder(w, Step(id));
    OthersMeanwhile(Apply(w, Step(id)), run, id);
  }

  // ---- The limit ---------------------------------------------------------------------------

  /** A voice frame goes on to shed first exactly when, at the moment it measured, at least
      `limit` frames were waiting. */
  lemma ShedsFirstIff(w: World, run: seq<Event>, id: nat)
    requires InOrder(w) && id < |w.producers| && w.producers[id].phase.Measuring?
    requires Possible(Apply(w, Step(id)), run) && ByOthers(run, id)
    ensures Apply(w, Step(id)).queue == w.queue && Apply(w, Step(id)).drops == w.drops
    ensures var w2 := After(Apply(w, Step(id)), run);
      && Enabled(w2, Step(id))
      && var w3 := Apply(w2, Step(id));
      if |w.queue| >= w.producers[id].limit then
        w3.queue == (if w2.queue == [] then [] else w2.queue[1..]) && !w3.producers[id].phase.Done?
      else
        w3.queue == (if |w2.queue| < 32 then w2.queue + [w.producers[id].frame] else w2.queue)
        && (w3.producers[id].phase == Done(true) <==> |w2.queue| < 32)
  {
    StepKeepsOrder(w, Step(id));
    OthersMeanwhile(Apply(w, Step(id)), run, id);
  }

  // ---- A producer that nobody interrupts -------------------------------------------------------

  function Left(phase: Phase): nat {
    match phase
    case Measuring => 6
    case Shedding => 5
    case Offering(_) => 4
    case SheddingAgain => 3
    case OfferingAgain => 2
    case Counting(_) => 1
    case Done(_) => 0
  }

  /** All remaining steps of one producer, one after the other. */
  function Finish(w: World, id: nat): (r: World)
    requires id < |w.producers|
    ensures id < |r.producers| && r.producers[id].phase.Done?
    decreases Left(w.producers[id].phase)
  {
    if w.producers[id].phase.Done? then w else Finish(Apply(w, Step(id)), id)
  }

  lemma FinishSteps(w: World, id: nat)
    requires id < |w.producers| && !w.producers[id].phase.Done?
    ensures Finish(w, id) == Finish(Apply(w, Step(id)), id)
  {
  }

  lemma OfferedFinishes(w: World, id: nat)
    requires InOrder(w) && id < |w.producers| && w.producers[id].phase == Offering(true) && |w.queue| < DEPTH
    ensures var w' := Finish(w, id);
      w'.queue == w.queue + [w.producers[id].frame] && w'.drops == w.drops + 1 && w'.producers[id].phase == Done(true)
  {
    FinishSteps(w, id);
    FinishSteps(Apply(w, Step(id)), id);
  }

  lemma SpeedAlone(w: World, id: nat)
    requires InOrder(w) && id < |w.producers| && w.producers[id].phase == Offering(false) && IsSpeed(w.producers[id].frame)
    ensures var w' := Finish(w, id);
      if |w.queue| < 32 then
        w'.producers[id].phase == Done(true) && w'.queue == w.queue + [w.producers[id].frame] && w'.drops == w.drops
      else w'.producers[id].phase == Done(false) && w'.queue == w.queue && w'.drops == w.drops + 1
  {
    var w1 := Apply(w, Step(id));
    FinishSteps(w, id);
    if |w.queue| >= DEPTH {
      FinishSteps(w1, id);
    }
  }

  lemma SecondShedFinishes(w: World, id: nat)
    requires InOrder(w) && id < |w.producers| && w.producers[id].phase.SheddingAgain? && w.queue != []
    ensures var w' := Finish(w, id);
      w'.queue == w.queue[1..] + [w.producers[id].frame] && w'.drops == w.drops + 1 && w'.producers[id].phase == Done(true)
  {
    var w1 := Apply(w, Step(id));
    FinishSteps(w, id);
    FinishSteps(w1, id);
    FinishSteps(Apply(w1, Step(id)), id);
  }

  lemma UnshedFinishes(w: World, id: nat)
    requires InOrder(w) && id < |w.producers| && w.producers[id].phase == Offering(false) && !IsSpeed(w.producers[id].frame)
    ensures var w', f := Finish(w, id), w.producers[id].frame;
      && w'.producers[id].phase == Done(true)
      && if |w.queue| < 32 then w'.queue == w.queue + [f] && w'.drops == w.drops
         else w'.queue == w.queue[1..] + [f] && w'.drops == w.drops + 1
  {
    FinishSteps(w, id);
    if |w.queue| >= DEPTH {
      SecondShedFinishes(Apply(w, Step(id)), id);
    }
  }

  lemma ShedFinishes(w: World, id: nat)
    requires InOrder(w) && id < |w.producers| && w.producers[id].phase.Shedding? && !IsSpeed(w.producers[id].frame)
    ensures var w', f := Finish(w, id), w.producers[id].frame;
      && w'.producers[id].phase == Done(true)
      && if w.queue == [] then w'.queue == [f] && w'.drops == w.drops
         else w'.queue == w.queue[1..] + [f] && w'.drops == w.drops + 1
  {
    StepKeepsOrder(w, Step(id));
    FinishSteps(w, id);
    if w.queue == [] {
      UnshedFinishes(Apply(w, Step(id)), id);
    } else {
      OfferedFinishes(Apply(w, Step(id)), id);
    }
  }

  lemma VoiceAlone(w: World, id: nat)
    requires InOrder(w) && id < |w.producers| && w.producers[id].phase.Measuring? && !IsSpeed(w.producers[id].frame)
    ensures var w', p := Finish(w, id), w.producers[id];
      && w'.producers[id].phase == Done(true)
      && if |w.queue| < Min(p.limit, 32) || w.queue == [] then w'.queue == w.queue + [p.frame] && w'.drops == w.drops
         else w'.queue == w.queue[1..] + [p.frame] && w'.drops == w.drops + 1
  {
    StepKeepsOrder(w, Step(id));
    FinishSteps(w, id);
    if |w.queue| >= w.producers[id].limit {
      ShedFinishes(Apply(w, Step(id)), id);
    } else {
      UnshedFinishes(Apply(w, Step(id)), id);
    }
  }

  /** Its steps give the queue, the drops and the answer of one whole enqueue. */
  lemma AloneIsEnqueue(w: World, f: Frame, limit: nat)
    requires InOrder(w)
    ensures var id, w' := |w.producers|, Finish(Apply(w, Arrive(f, limit)), |w.producers|);
      && (!IsSpeed(f) ==> w'.producers[id].phase == Done(true))
      && (!IsSpeed(f) ==>
            if |w.queue| < Min(limit, 32) || w.queue == [] then w'.queue == w.queue + [f] && w'.drops == w.drops
            else w'.queue == w.queue[1..] + [f] && w'.drops == w.drops + 1)
      && (IsSpeed(f) ==>
            if |w.queue| < 32 then w'.producers[id].phase == Done(true) && w'.queue == w.queue + [f] && w'.drops == w.drops
            else w'.producers[id].phase == Done(false) && w'.queue == w.queue && w'.drops == w.drops + 1)
  {
    var id := |w.producers|;
    var w0 := Apply(w, Arrive(f, limit));
    if IsSpeed(f) {
      SpeedAlone(w0, id);
    } else {
      VoiceAlone(w0, id);
    }
  }

  // ---- One producer at a time ------------------------------------------------------------------

  /** The next producer arrives only after the last one is done; the consumer
      runs whenever it likes. */
  ghost predicate Serialized(w: World, run: seq<Event>)
    requires Possible(w, run)
    decreases run
  {
    run != [] ==> (run[0].Arrive? ==> run[0].limit <= DEPTH && AtRest(w)) && Serialized(Apply(w, run[0]), run[1..])
  }

  ghost predicate OneActive(w: World) {
    && |w.queue| <= DEPTH && w.refusedVoice == 0
    && (forall i :: 0 <= i < |w.producers| - 1 ==> w.producers[i].phase.Done?)
    && forall i :: 0 <= i < |w.producers| ==>
         var p := w.producers[i];
         && PhaseFits(p) && p.limit <= DEPTH && !p.phase.SheddingAgain? && !p.phase.OfferingAgain?
         && (p.phase.Offering? && !IsSpeed(p.frame) ==> |w.queue| < DEPTH)
  }

  lemma TurnKeepsOneActive(w: World, ev: Event)
    requires OneActive(w) && Enabled(w, ev)
    requires ev.Arrive? ==> ev.limit <= DEPTH && AtRest(w)
    ensures OneActive(Apply(w, ev))
  {
  }

  /** As long as producers take turns no voice frame is ever refused, whatever
      the consumer takes in between. */
  lemma {:induction false} TurnsNeverRefuseVoice(w: World, run: seq<Event>)
    requires OneActive(w) && Possible(w, run) && Serialized(w, run)
    ensures After(w, run).refusedVoice == 0
    decreases run
  {
    if run == [] {
    } else {
      TurnKeepsOneActive(w, run[0]);
      TurnsNeverRefuseVoice(Apply(w, run[0]), run[1..]);
    }
  }

  /** Two producers that overlap can: the voice producer sheds the head of a full
      queue, a speed frame takes the free place, and the voice frame is refused.
      Two frames are lost and one loss is counted. */
  lemma OverlapRefusesVoice(w: World, voice: nat, speed: nat)
    requires |w.queue| == DEPTH && voice != speed && voice < |w.producers| && speed < |w.producers|
    requires w.producers[voice].phase.Shedding? && !IsSpeed(w.producers[voice].frame)
    requires w.producers[speed].phase == Offering(false) && IsSpeed(w.producers[speed].frame)
    ensures Enabled(w, Step(voice))
    ensures var w1 := Apply(w, Step(voice));
      Enabled(w1, Step(speed))
      && var w2 := Apply(w1, Step(speed));
      Enabled(w2, Step(voice))
      && var w3 := Apply(w2, Step(voice));
      Enabled(w3, Step(voice))
      && var w4 := Apply(w3, Step(voice));
      && w4.producers[voice].phase.Done? && w4.producers[speed].phase.Done?
      && w4.shed == w.shed + 1 && w4.refusedVoice == w.refusedVoice + 1 && w4.drops == w.drops + 1
  {
  }

  // ---- The overlap, from boot ----------------------------------------------------------------------

  lemma RunFrom(w: World, ev: Event, rest: seq<Event>)
    requires Enabled(w, ev) && Possible(Apply(w, ev), rest)
    ensures Possible(w, [ev] + rest) && After(w, [ev] + rest) == After(Apply(w, ev), rest)
  {
    assert ([ev] + rest)[1..] == rest;
  }

  lemma {:induction false} RunsJoin(w: World, a: seq<Event>, b: seq<Event>)
    requires Possible(w, a) && Possible(After(w, a), b)
    ensures Possible(w, a + b) && After(w, a + b) == After(After(w, a), b)
    decreases a
  {
    if a == [] {
      assert a + b == b;
    } else {
      RunsJoin(Apply(w, a[0]), a[1..], b);
      assert (a + b)[1..] == a[1..] + b;
    }
  }

  /** Nothing lost so far, and `n` speed frames more in the queue. */
  ghost predicate Fills(w: World, w': World, n: nat) {
    && AtRest(w') && |w'.queue| == |w.queue| + n
    && w'.shed == w.shed && w'.drops == w.drops && w'.refusedVoice == w.refusedVoice && w'.refusedSpeed == w.refusedSpeed
  }

  lemma OneSpeedFrame(w: World, f: Frame)
    requires AtRest(w) && IsSpeed(f) && |w.queue| < DEPTH
    ensures var run := [Arrive(f, DEPTH), Step(|w.producers|)];
      Possible(w, run) && Fills(w, After(w, run), 1)
  {
    var k := |w.producers|;
    var w1 := Apply(w, Arrive(f, DEPTH));
    RunFrom(w1, Step(k), []);
    RunFrom(w, Arrive(f, DEPTH), [Step(k)] + []);
    assert [Arrive(f, DEPTH), Step(k)] == [Arrive(f, DEPTH)] + ([Step(k)] + []);
  }

  lemma {:induction false} FillQueue(w: World, f: Frame, n: nat) returns (run: seq<Event>)
    requires AtRest(w) && IsSpeed(f) && |w.queue| + n <= DEPTH
    ensures Possible(w, run) && Fills(w, After(w, run), n)
    decreases n
  {
    if n == 0 {
      run := [];
    } else {
      var first := [Arrive(f, DEPTH), Step(|w.producers|)];
      OneSpeedFrame(w, f);
      var rest := FillQueue(After(w, first), f, n - 1);
      RunsJoin(w, first, rest);
      run := first + rest;
    }
  }

  /** A voice and a speed producer over a full queue. */
  lemma OverlapOverFullQueue(w: World, voice: Frame, speed: Frame, limit: nat) returns (run: seq<Event>)
    requires AtRest(w) && |w.queue| == DEPTH && !IsSpeed(voice) && IsSpeed(speed) && limit <= DEPTH
    ensures Possible(w, run) && AtRest(After(w, run))
    ensures After(w, run).refusedVoice == w.refusedVoice + 1
    ensures After(w, run).shed == w.shed + 1 && After(w, run).drops == w.drops + 1
  {
    var v, s := |w.producers|, |w.producers| + 1;
    var w1 := Apply(w, Arrive(voice, limit));
    var w2 := Apply(w1, Arrive(speed, limit));
    var w3 := Apply(w2, Step(v));
    assert w3.producers[v].phase.Shedding? && w3.producers[s].phase == Offering(false);
    OverlapRefusesVoice(w3, v, s);
    var w4 := Apply(w3, Step(v));
    var w5 := Apply(w4, Step(s));
    var w6 := Apply(w5, Step(v));
    RunFrom(w6, Step(v), []);
    RunFrom(w5, Step(v), [Step(v)] + []);
    RunFrom(w4, Step(s), [Step(v)] + ([Step(v)] + []));
    RunFrom(w3, Step(v), [Step(s)] + ([Step(v)] + ([Step(v)] + [])));
    var tail := [Step(v)] + ([Step(s)] + ([Step(v)] + ([Step(v)] + [])));
    RunFrom(w2, Step(v), tail);
    RunFrom(w1, Arrive(speed, limit), [Step(v)] + tail);
    RunFrom(w, Arrive(voice, limit), [Arrive(speed, limit)] + ([Step(v)] + tail));
    run := [Arrive(voice, limit)] + ([Arrive(speed, limit)] + ([Step(v)] + tail));
    OnlyTheTwoMoved(w, After(w, run));
  }

  lemma OnlyTheTwoMoved(w: World, w': World)
    requires AtRest(w) && |w'.producers| == |w.producers| + 2
    requires forall i :: 0 <= i < |w.producers| ==> w'.producers[i] == w.producers[i]
    requires w'.producers[|w.producers|].phase.Done? && w'.producers[|w.producers| + 1].phase.Done?
    ensures AtRest(w')
  {
  }

  /** From boot: 32 speed frames fill the queue, then a voice and a speed producer
      overlap. Two frames are lost and one loss is counted. */
  lemma OverlapIsReachable(boot: World, voice: Frame, speed: Frame, limit: nat) returns (run: seq<Event>)
    requires IsBoot(boot) && !IsSpeed(voice) && IsSpeed(speed) && limit <= DEPTH
    ensures Possible(boot, run) && AtRest(After(boot, run))
    ensures After(boot, run).shed == 1 && After(boot, run).refusedVoice == 1 && After(boot, run).drops == 1
  {
    var fill := FillQueue(boot, speed, DEPTH);
    var rest := OverlapOverFullQueue(After(boot, fill), voice, speed, limit);
    RunsJoin(boot, fill, rest);
    run := fill + rest;
  }
}
