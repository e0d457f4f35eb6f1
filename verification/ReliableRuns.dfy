/** Store, ACK, scan, liveness check and send in every interleaving. */
module ReliableRuns {
  import opened Words
  import opened Scan
  import opened Reliable

  /** The history of one store: its packet, when it was attempted, and how often it
      went out on the radio, the first transmission included. */
  datatype Log = Log(key: Key, packet: Packet, timeout: u32, times: seq<nat>, sent: nat)

  /** The retry task between two shared steps; `store` indexes the logs. */
  datatype Worker =
    | Idle
    | Copied(key: Key, packet: Packet, store: nat)
    | Cleared(key: Key, packet: Packet, store: nat)

  /** `owner[i]` is the store that wrote entry `i`; it and the logs are history. */
  datatype World = World(table: seq<Entry>, owner: seq<nat>, logs: seq<Log>, worker: Worker, clock: nat)

  /** `reading` is a clock reading taken some time before the critical section. */
  datatype Event =
    | Tick
    | Store(key: Key, packet: Packet, reading: nat, routedHops: Option<byte>)
    | AckArrives(key: Key)
    | Pass(reading: nat)
    | Check
    | Send

  function Boot(): World {
    World(seq(SLOTS, _ => BLANK), seq(SLOTS, _ => 0), [], Idle, 0)
  }

  predicate Storable(p: Packet) {
    0 < |p.payload| <= MAX_PACKET
  }

  predicate Enabled(w: World, ev: Event) {
    match ev
    case Tick => true
    case Store(_, p, reading, _) => Storable(p) && reading <= w.clock
    case AckArrives(_) => true
    case Pass(reading) => w.worker.Idle? && reading <= w.clock
    case Check => w.worker.Copied?
    case Send => w.worker.Cleared?
  }

  predicate Shaped(w: World) {
    |w.table| == SLOTS && |w.owner| == SLOTS
    && (w.worker.Idle? || w.worker.store < |w.logs|)
    && forall i :: 0 <= i < SLOTS && w.table[i].valid ==> w.owner[i] < |w.logs|
  }

  /** The scan has selected entry `i` and copied its packet. */
  function Retried(w: World, i: nat, reading: nat): World
    requires Shaped(w) && i < SLOTS && w.table[i].valid
  {
    var g := w.owner[i];
    w.(table := w.table[i := Selected(w.table[i], reading)],
       logs := w.logs[g := w.logs[g].(times := w.logs[g].times + [reading])],
       worker := Copied(w.table[i].key, w.table[i].packet, g))
  }

  function Apply(w: World, ev: Event): World
    requires Shaped(w) && Enabled(w, ev)
  {
    match ev
    case Tick => w.(clock := w.clock + 1)
    case Store(key, p, reading, hops) =>
      var i := StoreAt(w.table, key);
      w.(table := w.table[i := Stored(key, p, reading, AckTimeout(hops))],
         owner := w.owner[i := |w.logs|],
         logs := w.logs + [Log(key, p, AckTimeout(hops), [reading], 1)])
    case AckArrives(key) => w.(table := Ack(w.table, key))
    case Pass(reading) =>
      var i := DueAt(w.table, reading);
      if i == SLOTS then w
      else if ScanResult(w.table[i]).Retry? then Retried(w, i, reading)
      else w.(table := w.table[i := Selected(w.table[i], reading)])
    case Check =>
      w.(worker := if Lookup(w.table, w.worker.key) < SLOTS then Cleared(w.worker.key, w.worker.packet, w.worker.store)
                   else Idle)
    case Send =>
      var g := w.worker.store;
      w.(logs := w.logs[g := w.logs[g].(sent := w.logs[g].sent + 1)], worker := Idle)
  }

  // ---- One entry per message, three transmissions per store ----------------------

  ghost predicate UniqueKeys(t: seq<Entry>) {
    forall i, j :: 0 <= i < j < |t| && t[i].valid && t[j].valid ==> t[i].key != t[j].key
  }

  /** Transmissions made or already decided on for a store. */
  function Committed(w: World, g: nat): nat
    requires g < |w.logs|
  {
    w.logs[g].sent + if !w.worker.Idle? && w.worker.store == g then 1 else 0
  }

  ghost predicate EntryMatchesLog(e: Entry, log: Log) {
    && e.key == log.key && e.packet == log.packet && e.ackTimeout == log.timeout && 250 <= e.ackTimeout <= 1200
    && Storable(e.packet)
    && log.times != [] && e.attempts == |log.times| && e.lastSend == log.times[|log.times| - 1]
  }

  ghost predicate DistinctOwners(w: World)
    requires Shaped(w)
  {
    forall i, j :: 0 <= i < j < SLOTS && w.table[i].valid && w.table[j].valid ==> w.owner[i] != w.owner[j]
  }

  ghost predicate EntriesMatch(w: World)
    requires Shaped(w)
  {
    forall i :: 0 <= i < SLOTS && w.table[i].valid ==> EntryMatchesLog(w.table[i], w.logs[w.owner[i]])
  }

  /** Every attempt of a pending message has been sent or decided on. */
  ghost predicate AllCommitted(w: World)
    requires Shaped(w)
  {
    forall i :: 0 <= i < SLOTS && w.table[i].valid ==> Committed(w, w.owner[i]) == w.table[i].attempts
  }

  ghost predicate Inv(w: World) {
    && Shaped(w) && UniqueKeys(w.table)
    && DistinctOwners(w) && EntriesMatch(w)
    && (forall g :: 0 <= g < |w.logs| ==> 1 <= w.logs[g].sent && Committed(w, g) <= |w.logs[g].times| <= MAX_ATTEMPTS)
    && (!w.worker.Idle? ==> w.worker.key == w.logs[w.worker.store].key && w.worker.packet == w.logs[w.worker.store].packet)
    && AllCommitted(w)
  }

  lemma StoreKeepsUnique(t: seq<Entry>, key: Key, e: Entry)
    requires t != [] && UniqueKeys(t) && e.key == key
    ensures UniqueKeys(t[StoreAt(t, key) := e])
  {
    var i := Lookup(t, key);
    if i < |t| {
      assert StoreAt(t, key) == i && t[i].key == key;
    } else {
      assert forall j :: 0 <= j < |t| ==> !Is(t[j], key);
    }
  }

  lemma StoreKeepsEntries(w: World, ev: Event)
    requires Inv(w) && ev.Store? && Enabled(w, ev)
    ensures Shaped(Apply(w, ev)) && DistinctOwners(Apply(w, ev)) && EntriesMatch(Apply(w, ev))
  {
    var w' := Apply(w, ev);
    forall k | 0 <= k < SLOTS && w'.table[k].valid
      ensures EntryMatchesLog(w'.table[k], w'.logs[w'.owner[k]])
    {
      if k != StoreAt(w.table, ev.key) {
        assert EntryMatchesLog(w.table[k], w.logs[w.owner[k]]);
      }
    }
  }

  lemma StoreKeepsCommitted(w: World, ev: Event)
    requires Inv(w) && ev.Store? && Enabled(w, ev)
    ensures Shaped(Apply(w, ev)) && AllCommitted(Apply(w, ev))
  {
    var w' := Apply(w, ev);
    forall k | 0 <= k < SLOTS && w'.table[k].valid
      ensures Committed(w', w'.owner[k]) == w'.table[k].attempts
    {
      if k != StoreAt(w.table, ev.key) {
        assert Committed(w, w.owner[k]) == w.table[k].attempts;
      }
    }
  }

  lemma StoreKeepsInv(w: World, ev: Event)
    requires Inv(w) && ev.Store? && Enabled(w, ev)
    ensures Inv(Apply(w, ev))
  {
    StoreKeepsUnique(w.table, ev.key, Stored(ev.key, ev.packet, ev.reading, AckTimeout(ev.routedHops)));
    StoreKeepsEntries(w, ev);
    StoreKeepsCommitted(w, ev);
  }

  lemma AckKeepsInv(w: World, ev: Event)
    requires Inv(w) && ev.AckArrives? && Enabled(w, ev)
    ensures Inv(Apply(w, ev))
  {
  }

  lemma DiscardKeepsInv(w: World, i: nat)
    requires Inv(w) && i < SLOTS
    ensures Inv(w.(table := w.table[i := w.table[i].(valid := false)]))
  {
  }

  lemma RetryKeepsInv(w: World, i: nat, reading: nat)
    requires Inv(w) && w.worker.Idle? && i < SLOTS && w.table[i].valid && w.table[i].attempts < MAX_ATTEMPTS
    ensures Inv(Retried(w, i, reading))
  {
    var w', g := Retried(w, i, reading), w.owner[i];
    var e', log' := w'.table[i], w'.logs[g];
    assert EntryMatchesLog(w.table[i], w.logs[g]);
    assert EntryMatchesLog(e', log');
    forall k | 0 <= k < SLOTS && w'.table[k].valid
      ensures EntryMatchesLog(w'.table[k], w'.logs[w'.owner[k]])
    {
      if k != i {
        assert w.owner[k] != g;
        assert EntryMatchesLog(w.table[k], w.logs[w.owner[k]]);
      }
    }
    assert UniqueKeys(w'.table);
  }

  lemma PassKeepsInv(w: World, ev: Event)
    requires Inv(w) && ev.Pass? && Enabled(w, ev)
    ensures Inv(Apply(w, ev))
  {
    var i := DueAt(w.table, ev.reading);
    if i < SLOTS {
      assert EntryMatchesLog(w.table[i], w.logs[w.owner[i]]);
      if w.table[i].attempts < MAX_ATTEMPTS {
        RetryKeepsInv(w, i, ev.reading);
      } else {
        DiscardKeepsInv(w, i);
      }
    }
  }

  /** A retry whose entry is still there is never cancelled. */
  lemma CheckKeepsInv(w: World)
    requires Inv(w) && Enabled(w, Check)
    ensures Inv(Apply(w, Check))
  {
    var w' := Apply(w, Check);
    forall i | 0 <= i < SLOTS && w'.table[i].valid
      ensures Committed(w', w'.owner[i]) == w'.table[i].attempts
    {
      assert EntryMatchesLog(w.table[i], w.logs[w.owner[i]]);
      assert w.owner[i] == w.worker.store ==> Is(w.table[i], w.worker.key);
    }
  }

  lemma SendKeepsInv(w: World)
    requires Inv(w) && Enabled(w, Send)
    ensures Inv(Apply(w, Send))
  {
  }

  /** The scan of the state machine is the scan of the table. */
  lemma PassIsScan(w: World, reading: nat)
    requires Shaped(w) && Enabled(w, Pass(reading))
    ensures Apply(w, Pass(reading)).table == ScanOnce(w.table, reading).0
    ensures var r := ScanOnce(w.table, reading).1;
      r.Retry? ==> Apply(w, Pass(reading)).worker.Copied? && Apply(w, Pass(reading)).worker.key == r.key
                   && Apply(w, Pass(reading)).worker.packet == r.packet
  {
  }

  lemma StepKeepsInv(w: World, ev: Event)
    requires Inv(w) && Enabled(w, ev)
    ensures Inv(Apply(w, ev))
  {
    match ev
    case Store(_, _, _, _) => StoreKeepsInv(w, ev);
    case AckArrives(_) => AckKeepsInv(w, ev);
    case Pass(_) => PassKeepsInv(w, ev);
    case Check => CheckKeepsInv(w);
    case Send => SendKeepsInv(w);
    case Tick =>
  }

  // ---- Whole runs -----------------------------------------------------------------

  ghost predicate Possible(w: World, run: seq<Event>)
    decreases run
  {
    run != [] ==> Shaped(w) && Enabled(w, run[0]) && Possible(Apply(w, run[0]), run[1..])
  }

  ghost function After(w: World, run: seq<Event>): World
    requires Possible(w, run)
    decreases run
  {
    if run == [] then w else After(Apply(w, run[0]), run[1..])
  }

  lemma {:induction false} RunKeepsInv(w: World, run: seq<Event>)
    requires Inv(w) && Possible(w, run)
    ensures Inv(After(w, run))
    decreases run
  {
    if run == [] {
    } else {
      StepKeepsInv(w, run[0]);
      RunKeepsInv(Apply(w, run[0]), run[1..]);
    }
  }

  /** In every interleaving at most one valid entry tracks a (message, sequence),
      and no store leads to more than three transmissions. */
  lemma OneEntryThreeTransmissions(run: seq<Event>)
    requires Possible(Boot(), run)
    ensures UniqueKeys(After(Boot(), run).table)
    ensures forall g :: 0 <= g < |After(Boot(), run).logs| ==> 1 <= After(Boot(), run).logs[g].sent <= 3
  {
    RunKeepsInv(Boot(), run);
  }

  /** A store into a full table replaces the entry sent least recently, as long as no
      clock wrap lies between the stamps. */
  lemma StoreEvictsOldest(t: seq<Entry>, key: Key, j: nat)
    requires |t| == SLOTS && j < SLOTS && Lookup(t, key) == SLOTS && FreeAt(t) == SLOTS
    requires t[StoreAt(t, key)].lastSend / WORD32 == t[j].lastSend / WORD32
    ensures t[StoreAt(t, key)].lastSend <= t[j].lastSend
  {
    assert Stamps(t)[StoreAt(t, key)] <= Stamps(t)[j];
    TicksKeepOrder(t[StoreAt(t, key)].lastSend, t[j].lastSend);
  }

  function Times(t: seq<Entry>): (r: seq<nat>)
    ensures |r| == |t|
    ensures forall i :: 0 <= i < |t| ==> r[i] == t[i].lastSend
  {
    seq(|t|, i requires 0 <= i < |t| => t[i].lastSend)
  }

  /** It replaces that entry if and only if no clock wrap lies between the 24 stamps. */
  lemma StoreEvictsOldestIff(t: seq<Entry>, key: Key, now: nat)
    requires |t| == SLOTS && Lookup(t, key) == SLOTS && FreeAt(t) == SLOTS
    requires forall i :: 0 <= i < |t| ==> t[i].lastSend <= now < t[i].lastSend + WORD32
    ensures Least(Times(t), StoreAt(t, key)) <==> OneEpoch(Times(t))
  {
    assert Stamps(t) == TicksOf(Times(t));
    SmallestStampIsEarliestIff(Times(t), now);
  }

  // ---- Three transmissions before an entry is given up ------------------------------------

  /** A copied retry goes out exactly when its message is still pending: it is cleared, and
      the next send adds one transmission of the stored packet; otherwise it is cancelled. */
  lemma RetryGoesOutIff(w: World)
    requires Inv(w) && w.worker.Copied?
    ensures var g, w' := w.worker.store, Apply(w, Check);
      if Pending(w.table, w.worker.key) then
        && w'.worker == Cleared(w.logs[g].key, w.logs[g].packet, g) && Enabled(w', Send)
        && Apply(w', Send).logs == w.logs[g := w.logs[g].(sent := w.logs[g].sent + 1)]
        && Apply(w', Send).worker.Idle? && Apply(w', Send).table == w.table
      else w' == w.(worker := Idle)
  {
    if Pending(w.table, w.worker.key) {
      var i :| 0 <= i < |w.table| && w.table[i].valid && w.table[i].key == w.worker.key;
      assert Is(w.table[i], w.worker.key);
    } else {
      assert Lookup(w.table, w.worker.key) == SLOTS;
    }
  }

  /** The entry at `i` was written by store `g` and is still there. */
  predicate Tracks(w: World, i: nat, g: nat) {
    Shaped(w) && i < SLOTS && w.table[i].valid && w.owner[i] == g
  }

  /** An entry that a pass gives up has been sent exactly three times, whatever happened in
      between. */
  lemma GivenUpAfterThree(w: World, ev: Event, i: nat, g: nat)
    requires Inv(w) && Tracks(w, i, g) && Enabled(w, ev) && ev.Pass?
    ensures Tracks(Apply(w, ev), i, g) || (w.logs[g].sent == 3 && Apply(w, ev).logs[g].sent == 3)
  {
    assert EntryMatchesLog(w.table[i], w.logs[g]);
  }

  /** A store makes its message pending and starts its history with one transmission. */
  lemma StoreStartsTrack(w: World, ev: Event)
    requires Inv(w) && ev.Store? && Enabled(w, ev)
    ensures var w', g := Apply(w, ev), |w.logs|;
      && Tracks(w', StoreAt(w.table, ev.key), g) && w'.table[StoreAt(w.table, ev.key)].key == ev.key
      && w'.logs == w.logs + [Log(ev.key, ev.packet, AckTimeout(ev.routedHops), [ev.reading], 1)]
  {
  }

  /** The event acknowledges the message of this entry, or stores over it. */
  predicate Ends(w: World, ev: Event, i: nat)
    requires Shaped(w) && i < SLOTS
  {
    match ev
    case AckArrives(a) =>
      var key := w.table[i].key;
      a.high == key.high && a.low == key.low && (a.sequence == key.sequence || a.sequence == 0)
    case Store(key, _, _, _) => StoreAt(w.table, key) == i
    case _ => false
  }

  ghost predicate EverEnds(w: World, run: seq<Event>, i: nat, g: nat)
    requires Possible(w, run)
    decreases run
  {
    run != [] && ((Tracks(w, i, g) && Ends(w, run[0], i)) || EverEnds(Apply(w, run[0]), run[1..], i, g))
  }

  lemma StepKeepsTrack(w: World, ev: Event, i: nat, g: nat)
    requires Inv(w) && Enabled(w, ev) && Tracks(w, i, g) && !Ends(w, ev, i)
    ensures Tracks(Apply(w, ev), i, g) || Apply(w, ev).logs[g].sent == 3
  {
    if ev.Pass? {
      GivenUpAfterThree(w, ev, i, g);
    }
  }

  /** In every interleaving a stored message that is neither acknowledged nor stored over is
      pending, or has been sent exactly three times. */
  lemma {:induction false} KeptUntilSentThrice(w: World, run: seq<Event>, i: nat, g: nat)
    requires Inv(w) && Possible(w, run) && g < |w.logs| && (Tracks(w, i, g) || w.logs[g].sent == 3)
    requires !EverEnds(w, run, i, g)
    ensures g < |After(w, run).logs| && (Tracks(After(w, run), i, g) || After(w, run).logs[g].sent == 3)
    decreases run
  {
    if run == [] {
    } else {
      var w' := Apply(w, run[0]);
      StepKeepsInv(w, run[0]);
      if w.logs[g].sent == 3 {
        assert Committed(w', g) <= MAX_ATTEMPTS;
      } else {
        StepKeepsTrack(w, run[0], i, g);
      }
      KeptUntilSentThrice(w', run[1..], i, g);
    }
  }

  // ---- Spacing of attempts ----------------------------------------------------------

  predicate Spaced(log: Log) {
    forall k :: 0 <= k < |log.times| - 1 ==> log.times[k] + log.timeout <= log.times[k + 1]
  }

  ghost predicate AllSpaced(w: World) {
    forall g :: 0 <= g < |w.logs| ==> Spaced(w.logs[g])
  }

  /** The scan selects an entry for another transmission. */
  predicate Retries(w: World, ev: Event)
    requires Shaped(w)
  {
    ev.Pass? && DueAt(w.table, ev.reading) < SLOTS && ScanResult(w.table[DueAt(w.table, ev.reading)]).Retry?
  }

  /** Attempts stay at least one timeout apart exactly when the clock reading of
      the scan is not older than the stamp of the entry it selects. */
  lemma SpacingKeptIff(w: World, ev: Event)
    requires Inv(w) && AllSpaced(w) && Enabled(w, ev)
    ensures AllSpaced(Apply(w, ev))
            <==> (Retries(w, ev) ==> w.table[DueAt(w.table, ev.reading)].lastSend <= ev.reading)
  {
    if Retries(w, ev) {
      var i := DueAt(w.table, ev.reading);
      var e, log := w.table[i], w.logs[w.owner[i]];
      var log' := Apply(w, ev).logs[w.owner[i]];
      assert log'.times[|log.times| - 1] == e.lastSend && log'.times[|log.times|] == ev.reading;
      if e.lastSend <= ev.reading {
        ElapsedNeverExceedsAge(ev.reading, e.lastSend);
      }
    }
  }

  /** Every scan reads a clock no older than any stamp in the table: reading and
      scanning are one step. */
  ghost predicate Timely(w: World, run: seq<Event>)
    requires Possible(w, run)
    decreases run
  {
    run != [] ==>
      && (run[0].Pass? ==> forall i :: 0 <= i < SLOTS && w.table[i].valid ==> w.table[i].lastSend <= run[0].reading)
      && Timely(Apply(w, run[0]), run[1..])
  }

  lemma {:induction false} TimelyRunIsSpaced(w: World, run: seq<Event>)
    requires Inv(w) && AllSpaced(w) && Possible(w, run) && Timely(w, run)
    ensures AllSpaced(After(w, run))
    decreases run
  {
    if run == [] {
    } else {
      SpacingKeptIff(w, run[0]);
      StepKeepsInv(w, run[0]);
      TimelyRunIsSpaced(Apply(w, run[0]), run[1..]);
    }
  }

  /** For every clock reading: whether an entry counts as due is right exactly when
      the reading does not misread its stamp. */
  lemma DueIsRightIff(e: Entry, reading: nat)
    requires e.valid
    ensures var timeout := if e.ackTimeout != 0 then e.ackTimeout else 240;
      (Due(e, reading) <==> reading - e.lastSend >= timeout) <==> !Misread(reading, e.lastSend, timeout - 1)
  {
    WindowIsRightIff(reading, e.lastSend, TimeoutOf(e) - 1);
  }

  /** A reading taken before a store makes that store's entry due at once. */
  lemma StaleReadingIsDueAtOnce(e: Entry, reading: nat)
    requires e.valid && 250 <= e.ackTimeout <= 1200
    requires reading < e.lastSend <= reading + WORD32 - 1200
    ensures Due(e, reading)
  {
    ElapsedOfStaleReading(reading, e.lastSend);
  }

  // ---- After an acknowledgement --------------------------------------------------------

  predicate Sends(w: World, ev: Event, key: Key) {
    ev.Send? && w.worker.Cleared? && w.worker.key == key
  }

  function SendsOf(w: World, run: seq<Event>, key: Key): nat
    requires Possible(w, run)
    decreases run
  {
    if run == [] then 0
    else (if Sends(w, run[0], key) then 1 else 0) + SendsOf(Apply(w, run[0]), run[1..], key)
  }

  predicate StoresKey(ev: Event, key: Key) {
    ev.Store? && ev.key == key
  }

  lemma AckClearsKey(w: World, key: Key, acked: Key)
    requires Shaped(w)
    requires acked.high == key.high && acked.low == key.low && (acked.sequence == key.sequence || acked.sequence == 0)
    ensures Lookup(Apply(w, AckArrives(acked)).table, key) == SLOTS
  {
    assert forall i :: 0 <= i < SLOTS && Is(w.table[i], key) ==> Acked(w.table[i], acked);
  }

  /** With nothing stored for `key`, its entry does not come back. */
  lemma KeyStaysCleared(w: World, ev: Event, key: Key)
    requires Shaped(w) && Enabled(w, ev) && Lookup(w.table, key) == SLOTS && !StoresKey(ev, key)
    ensures Lookup(Apply(w, ev).table, key) == SLOTS
    ensures Apply(w, ev).worker.Cleared? && Apply(w, ev).worker.key == key ==>
              w.worker.Cleared? && w.worker.key == key && !Sends(w, ev, key)
  {
    var t' := Apply(w, ev).table;
    forall i | 0 <= i < SLOTS
      ensures !Is(t'[i], key)
    {
      assert !Is(w.table[i], key);
    }
  }

  /** From an ACK on, until the message is stored again, it is transmitted at most
      once more, and only if its liveness check had already passed. */
  lemma {:induction false} AtMostOneSendAfterAck(w: World, run: seq<Event>, key: Key)
    requires Possible(w, run) && Shaped(w) && Lookup(w.table, key) == SLOTS
    requires forall i :: 0 <= i < |run| ==> !StoresKey(run[i], key)
    ensures SendsOf(w, run, key) <= if w.worker.Cleared? && w.worker.key == key then 1 else 0
    decreases run
  {
    if run == [] {
    } else {
      var w' := Apply(w, run[0]);
      KeyStaysCleared(w, run[0], key);
      assert Shaped(w');
      AtMostOneSendAfterAck(w', run[1..], key);
    }
  }

  // ---- The table empties ------------------------------------------------------------------

  function WeightOf(e: Entry): nat {
    if e.valid && e.attempts <= MAX_ATTEMPTS then MAX_ATTEMPTS + 1 - e.attempts else 0
  }

  function Weight(t: seq<Entry>): nat {
    if t == [] then 0 else Weight(t[..|t| - 1]) + WeightOf(t[|t| - 1])
  }

  lemma {:induction false} WeightOfUpdate(t: seq<Entry>, i: nat, e: Entry)
    requires i < |t|
    ensures Weight(t[i := e]) == Weight(t) - WeightOf(t[i]) + WeightOf(e)
  {
    var n := |t| - 1;
    if i == n {
      assert t[i := e][..n] == t[..n];
    } else {
      assert t[i := e][..n] == t[..n][i := e];
      WeightOfUpdate(t[..n], i, e);
    }
  }

  lemma {:induction false} WeightIsMonotone(t: seq<Entry>, u: seq<Entry>)
    requires |t| == |u| && forall i :: 0 <= i < |t| ==> WeightOf(u[i]) <= WeightOf(t[i])
    ensures Weight(u) <= Weight(t)
  {
    if t == [] {
    } else {
      WeightIsMonotone(t[..|t| - 1], u[..|u| - 1]);
    }
  }

  lemma {:induction false} WeightBounds(t: seq<Entry>)
    requires forall i :: 0 <= i < |t| && t[i].valid ==> 1 <= t[i].attempts <= MAX_ATTEMPTS
    ensures Weight(t) <= MAX_ATTEMPTS * |t|
    ensures Weight(t) == 0 <==> forall i :: 0 <= i < |t| ==> !t[i].valid
  {
    if t == [] {
    } else {
      WeightBounds(t[..|t| - 1]);
      assert forall i :: 0 <= i < |t| - 1 ==> t[..|t| - 1][i] == t[i];
    }
  }

  lemma TableWeight(w: World)
    requires Inv(w)
    ensures Weight(w.table) <= 72
    ensures Weight(w.table) == 0 <==> forall e :: e in w.table ==> !e.valid
  {
    forall i | 0 <= i < SLOTS && w.table[i].valid
      ensures 1 <= w.table[i].attempts <= MAX_ATTEMPTS
    {
      assert EntryMatchesLog(w.table[i], w.logs[w.owner[i]]);
    }
    WeightBounds(w.table);
  }

  predicate Selects(w: World, ev: Event)
    requires |w.table| == SLOTS
  {
    ev.Pass? && DueAt(w.table, ev.reading) < SLOTS
  }

  /** Every selecting pass takes at least one off the weight; nothing but a store
      adds to it. */
  lemma StepWeighsLess(w: World, ev: Event)
    requires Inv(w) && Enabled(w, ev) && !ev.Store?
    ensures Weight(Apply(w, ev).table) + (if Selects(w, ev) then 1 else 0) <= Weight(w.table)
  {
    if Selects(w, ev) {
      var i := DueAt(w.table, ev.reading);
      assert EntryMatchesLog(w.table[i], w.logs[w.owner[i]]);
      WeightOfUpdate(w.table, i, Selected(w.table[i], ev.reading));
    } else {
      WeightIsMonotone(w.table, Apply(w, ev).table);
    }
  }

  function SelectingPasses(w: World, run: seq<Event>): nat
    requires Possible(w, run)
    decreases run
  {
    if run == [] then 0
    else (if Selects(w, run[0]) then 1 else 0) + SelectingPasses(Apply(w, run[0]), run[1..])
  }

  lemma {:induction false} PassesConsumeWeight(w: World, run: seq<Event>)
    requires Inv(w) && Possible(w, run)
    requires forall i :: 0 <= i < |run| ==> !run[i].Store?
    ensures Weight(After(w, run).table) + SelectingPasses(w, run) <= Weight(w.table)
    decreases run
  {
    if run == [] {
    } else {
      StepWeighsLess(w, run[0]);
      StepKeepsInv(w, run[0]);
      PassesConsumeWeight(Apply(w, run[0]), run[1..]);
    }
  }

  /** Without further stores there are at most 72 selecting passes, and after as
      many as the table weighs it is empty, whatever ACKs come in between. */
  lemma TableEmpties(w: World, run: seq<Event>)
    requires Inv(w) && Possible(w, run)
    requires forall i :: 0 <= i < |run| ==> !run[i].Store?
    ensures SelectingPasses(w, run) <= Weight(w.table) <= 72
    ensures SelectingPasses(w, run) == Weight(w.table) ==> forall e :: e in After(w, run).table ==> !e.valid
  {
    PassesConsumeWeight(w, run);
    RunKeepsInv(w, run);
    TableWeight(w);
    TableWeight(After(w, run));
  }

  /** A pass over a table whose oldest valid stamp is 1200 ms back selects. */
  lemma OldEntryIsSelected(w: World, i: nat, reading: nat)
    requires Inv(w) && i < SLOTS && w.table[i].valid
    requires w.table[i].lastSend + 1200 <= reading < w.table[i].lastSend + WORD32
    ensures Selects(w, Pass(reading))
  {
    assert EntryMatchesLog(w.table[i], w.logs[w.owner[i]]);
    ElapsedIsTrueAge(reading, w.table[i].lastSend);
    assert Due(w.table[i], reading);
  }
}
