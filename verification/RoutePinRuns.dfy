/** Calls for a waypoint from several tasks: the get and the put of a call are two
    critical sections, each with its own reading of the clock. */
module RoutePinRuns {
  import opened Words
  import opened Scan
  import opened RoutePins

  /** A call between its get and its put, or at its end. */
  datatype Stage = Looking(key: Key) | Answered(key: Key, waypoint: Option<u64>)

  datatype World = World(pins: seq<Pin>, calls: seq<Stage>)

  /** `Get` starts a call; `Settle` is the rest of it: the route lookup and, when that
      offers a waypoint, the put. */
  datatype Event = Get(key: Key, reading: nat) | Settle(id: nat, route: Route, reading: nat)

  predicate Enabled(w: World, ev: Event) {
    w.pins != [] && (ev.Settle? ==> ev.id < |w.calls| && w.calls[ev.id].Looking?)
  }

  function Apply(w: World, ev: Event): World
    requires Enabled(w, ev)
  {
    match ev
    case Get(key, reading) =>
      var found := GetResult(w.pins, key, reading);
      World(GetTable(w.pins, key, reading), w.calls + [if found.Some? then Answered(key, found) else Looking(key)])
    case Settle(id, route, reading) =>
      var key := w.calls[id].key;
      World(if Selected(route).Some? then Put(w.pins, key, Selected(route).value, reading) else w.pins,
            w.calls[id := Answered(key, Selected(route))])
  }

  ghost predicate Possible(w: World, run: seq<Event>)
    decreases run
  {
    run != [] ==> Enabled(w, run[0]) && Possible(Apply(w, run[0]), run[1..])
  }

  ghost function After(w: World, run: seq<Event>): World
    requires Possible(w, run)
    decreases run
  {
    if run == [] then w else After(Apply(w, run[0]), run[1..])
  }

  /** A call that nobody interrupts is the call of the specification. */
  lemma UninterruptedCall(w: World, key: Key, r: Route, now: nat, later: nat)
    requires w.pins != []
    ensures var w1 := Apply(w, Get(key, now));
      var id := |w.calls|;
      if w1.calls[id].Answered? then
        (w1.pins, w1.calls[id].waypoint) == Waypoint(w.pins, key, r, now, later)
      else
        Enabled(w1, Settle(id, r, later))
        && var w2 := Apply(w1, Settle(id, r, later));
        (w2.pins, w2.calls[id].waypoint) == Waypoint(w.pins, key, r, now, later)
  {
  }

  // ---- At most one pin per transfer --------------------------------------------------------

  /** The event puts a pin while one of its key lies behind a free slot. */
  ghost predicate PutsTwice(w: World, ev: Event)
    requires Enabled(w, ev)
  {
    ev.Settle? && Selected(ev.route).Some? && Overtakes(w.pins, w.calls[ev.id].key)
  }

  lemma StepKeepsUniqueIff(w: World, ev: Event)
    requires Enabled(w, ev) && Unique(w.pins)
    ensures Unique(Apply(w, ev).pins) <==> !PutsTwice(w, ev)
  {
    if ev.Settle? && Selected(ev.route).Some? {
      PutKeepsUniqueIff(w.pins, w.calls[ev.id].key, Selected(ev.route).value, ev.reading);
    }
  }

  ghost predicate NeverTwice(w: World, run: seq<Event>)
    requires Possible(w, run)
    decreases run
  {
    run != [] ==> !PutsTwice(w, run[0]) && NeverTwice(Apply(w, run[0]), run[1..])
  }

  ghost predicate UniqueThroughout(w: World, run: seq<Event>)
    requires Possible(w, run)
    decreases run
  {
    Unique(w.pins) && (run != [] ==> UniqueThroughout(Apply(w, run[0]), run[1..]))
  }

  /** A run has at most one valid pin per transfer at all times if and only if none of
      its puts finds a pin of its key behind a free slot. */
  lemma {:induction false} RunKeepsUniqueIff(w: World, run: seq<Event>)
    requires Unique(w.pins) && Possible(w, run)
    ensures UniqueThroughout(w, run) <==> NeverTwice(w, run)
    decreases run
  {
    if run == [] {
    } else {
      var w' := Apply(w, run[0]);
      StepKeepsUniqueIff(w, run[0]);
      if Unique(w'.pins) {
        RunKeepsUniqueIff(w', run[1..]);
      } else {
        assert !UniqueThroughout(w', run[1..]);
      }
    }
  }

  /** Two calls for one transfer overlap when the second gets before the first has
      settled. */
  predicate Overlaps(w: World, ev: Event) {
    ev.Get? && exists i :: 0 <= i < |w.calls| && w.calls[i] == Looking(ev.key)
  }

  ghost predicate TakeTurns(w: World, run: seq<Event>)
    requires Possible(w, run)
    decreases run
  {
    run != [] ==> !Overlaps(w, run[0]) && TakeTurns(Apply(w, run[0]), run[1..])
  }

  /** A call that is looking is the only one for its key, and no pin of the key is
      left. */
  ghost predicate OneLooker(w: World) {
    && (forall i, j :: 0 <= i < j < |w.calls| && w.calls[i].Looking? && w.calls[j].Looking? ==>
          w.calls[i].key != w.calls[j].key)
    && (forall i, k :: 0 <= i < |w.calls| && 0 <= k < |w.pins| && w.calls[i].Looking? && w.pins[k].valid ==>
          w.pins[k].key != w.calls[i].key)
  }

  lemma GetKeepsOneLooker(w: World, ev: Event)
    requires Enabled(w, ev) && OneLooker(w) && ev.Get? && !Overlaps(w, ev)
    ensures OneLooker(Apply(w, ev))
  {
    if GetResult(w.pins, ev.key, ev.reading).None? {
      MissClearsKey(w.pins, ev.key, ev.reading);
    }
    var w' := Apply(w, ev);
    assert forall i :: 0 <= i < |w.calls| ==> w'.calls[i] == w.calls[i];
    assert forall k :: 0 <= k < |w.pins| && w'.pins[k].valid ==> w.pins[k].valid && w'.pins[k].key == w.pins[k].key;
  }

  lemma SettleKeepsOneLooker(w: World, ev: Event)
    requires Enabled(w, ev) && OneLooker(w) && ev.Settle?
    ensures OneLooker(Apply(w, ev)) && !PutsTwice(w, ev)
  {
    var w', key := Apply(w, ev), w.calls[ev.id].key;
    assert forall i :: 0 <= i < |w.calls| && i != ev.id ==> w'.calls[i] == w.calls[i];
    assert forall k :: 0 <= k < |w.pins| && w'.pins[k].valid ==> w'.pins[k] == w.pins[k] || w'.pins[k].key == key;
  }

  /** Tasks that never overlap in calls for one transfer never pin it twice. */
  lemma {:induction false} TurnsKeepUnique(w: World, run: seq<Event>)
    requires Unique(w.pins) && OneLooker(w) && Possible(w, run) && TakeTurns(w, run)
    ensures UniqueThroughout(w, run)
    decreases run
  {
    if run == [] {
    } else {
      if run[0].Get? {
        GetKeepsOneLooker(w, run[0]);
      } else {
        SettleKeepsOneLooker(w, run[0]);
      }
      StepKeepsUniqueIff(w, run[0]);
      TurnsKeepUnique(Apply(w, run[0]), run[1..]);
    }
  }

  // ---- What an overlap can do ----------------------------------------------------------------

  predicate HasPin(t: seq<Pin>, key: Key) {
    exists i :: 0 <= i < |t| && t[i].valid && t[i].key == key
  }

  lemma NoPinNoHit(t: seq<Pin>, key: Key, now: nat)
    requires !HasPin(t, key)
    ensures HitAt(t, key, now) == |t|
  {
  }

  /** Slot 0 is somebody else's, slot 1 is free: the first put for `key` takes it. */
  lemma FirstPutTakesSlotOne(t: seq<Pin>, key: Key, nextHop: u64, now: nat)
    requires |t| == SLOTS && t[0].valid && !t[1].valid && t[0].key != key
    ensures Put(t, key, nextHop, now) == t[1 := Pin(true, key, nextHop, now)]
  {
    assert TakeAt(t, key) == 1;
  }

  /** A get for a transfer without a pin expires slot 0 and keeps what was just put. */
  lemma GetFreesSlotZero(t: seq<Pin>, third: Key, at: nat)
    requires |t| == SLOTS && !HasPin(t, third)
    requires t[0].valid && at == t[0].lastUsed + TTL_MS && t[1].valid && t[1].lastUsed == at
    ensures var t' := GetTable(t, third, at); !t'[0].valid && t'[1] == t[1]
  {
    NoPinNoHit(t, third, at);
    ElapsedIsModular(at, t[0].lastUsed);
    ElapsedIsModular(at, at);
  }

  lemma RunFrom(w: World, ev: Event, rest: seq<Event>)
    requires Enabled(w, ev) && Possible(Apply(w, ev), rest)
    ensures Possible(w, [ev] + rest) && After(w, [ev] + rest) == After(Apply(w, ev), rest)
  {
    assert ([ev] + rest)[1..] == rest;
  }

  lemma RunOfThree(w: World, e0: Event, e1: Event, e2: Event)
    requires Enabled(w, e0) && Enabled(Apply(w, e0), e1) && Enabled(Apply(Apply(w, e0), e1), e2)
    ensures Possible(w, [e0, e1, e2]) && After(w, [e0, e1, e2]) == Apply(Apply(Apply(w, e0), e1), e2)
  {
    var w1, w2 := Apply(w, e0), Apply(Apply(w, e0), e1);
    RunFrom(w2, e2, []);
    RunFrom(w1, e1, [e2] + []);
    RunFrom(w, e0, [e1] + ([e2] + []));
    assert [e0, e1, e2] == [e0] + ([e1] + ([e2] + []));
  }

  /** Two calls for `key` are looking when slot 0 holds somebody else's pin and slot 1 is
      free: the first put takes slot 1, a get for a third transfer expires slot 0, and
      the second put takes that. */
  lemma OverlapPinsTwice(w: World, a: nat, b: nat, key: Key, third: Key, r: Route)
    requires |w.pins| == SLOTS && a < |w.calls| && b < |w.calls| && a != b
    requires w.calls[a] == Looking(key) && w.calls[b] == Looking(key)
    requires w.pins[0].valid && !w.pins[1].valid && w.pins[0].key != key && third != key && Selected(r).Some?
    requires !HasPin(w.pins, key) && !HasPin(w.pins, third)
    ensures var at := w.pins[0].lastUsed + TTL_MS;
      var run := [Settle(a, r, at), Get(third, at), Settle(b, r, at)];
      Possible(w, run) && !Unique(After(w, run).pins)
  {
    var at := w.pins[0].lastUsed + TTL_MS;
    var hop := Selected(r).value;
    FirstPutTakesSlotOne(w.pins, key, hop, at);
    var w1 := Apply(w, Settle(a, r, at));
    assert w1.pins[0] == w.pins[0] && w1.pins[1] == Pin(true, key, hop, at);
    assert !HasPin(w1.pins, third);
    GetFreesSlotZero(w1.pins, third, at);
    var w2 := Apply(w1, Get(third, at));
    assert w2.calls[b] == w1.calls[b] == w.calls[b];
    PutAloneDuplicates(w2.pins, key, hop, at);
    RunOfThree(w, Settle(a, r, at), Get(third, at), Settle(b, r, at));
  }

  /** Such a state is three calls away from an empty table. */
  lemma OverlapIsReachable(boot: World, key: Key, first: Key, third: Key, r: Route) returns (run: seq<Event>)
    requires |boot.pins| == SLOTS && boot.calls == [] && forall i :: 0 <= i < SLOTS ==> !boot.pins[i].valid
    requires key != first && key != third && first != third && Selected(r).Some?
    ensures Possible(boot, run) && !Unique(After(boot, run).pins)
  {
    var e0, e1, e2, e3 := Get(first, 0), Settle(0, r, 0), Get(key, 0), Get(key, 0);
    NoPinNoHit(boot.pins, first, 0);
    var w1 := Apply(boot, e0);
    assert w1.pins == boot.pins && w1.calls == [Looking(first)];
    var w2 := Apply(w1, e1);
    assert TakeAt(w1.pins, first) == 0;
    assert w2.pins == boot.pins[0 := Pin(true, first, Selected(r).value, 0)];
    NoPinNoHit(w2.pins, key, 0);
    var w3 := Apply(w2, e2);
    ElapsedIsModular(0, 0);
    assert w3.pins == w2.pins;
    var w4 := Apply(w3, e3);
    assert w4.pins == w2.pins && w4.calls == w2.calls + [Looking(key)] + [Looking(key)];
    OverlapPinsTwice(w4, 1, 2, key, third, r);
    var rest := [Settle(1, r, TTL_MS), Get(third, TTL_MS), Settle(2, r, TTL_MS)];
    RunFrom(w3, e3, rest);
    RunFrom(w2, e2, [e3] + rest);
    RunFrom(w1, e1, [e2] + ([e3] + rest));
    RunFrom(boot, e0, [e1] + ([e2] + ([e3] + rest)));
    run := [e0] + ([e1] + ([e2] + ([e3] + rest)));
  }

  // ---- Stickiness -----------------------------------------------------------------------------

  /** The event leaves the pin of `key`, last used at `last`, in place: a reading that
      meets it is not older than the stamp and less than 90 s later, and a put neither
      evicts it nor belongs to an overlapping call for the same transfer. */
  ghost predicate Spares(w: World, ev: Event, key: Key, last: nat)
    requires Enabled(w, ev)
  {
    match ev
    case Get(_, reading) => last <= reading < last + TTL_MS
    case Settle(id, route, reading) =>
      Selected(route).Some? ==> w.calls[id].key != key && !Evicts(w.pins, w.calls[id].key, reading, key)
  }

  function LastUse(ev: Event, key: Key, last: nat): nat {
    if ev.Get? && ev.key == key then ev.reading else last
  }

  lemma SparedPinStays(w: World, ev: Event, key: Key, waypoint: u64, last: nat)
    requires Enabled(w, ev) && Unique(w.pins) && Pinned(w.pins, key, waypoint, last) && Spares(w, ev, key, last)
    ensures Pinned(Apply(w, ev).pins, key, waypoint, LastUse(ev, key, last))
    ensures ev.Get? && ev.key == key ==> Apply(w, ev).calls[|w.calls|] == Answered(key, Some(waypoint))
  {
    match ev
    case Get(k, reading) =>
      if k == key {
        PinAnswers(w.pins, key, waypoint, last, reading);
      } else {
        var i :| 0 <= i < |w.pins| && w.pins[i] == Pin(true, key, waypoint, last);
        ElapsedIsTrueAge(reading, last);
        GetKeepsOtherIff(w.pins, k, reading, i);
        assert Apply(w, ev).pins[i] == w.pins[i];
      }
    case Settle(id, route, reading) =>
      if Selected(route).Some? {
        PinSurvivesUnlessEvicted(w.pins, w.calls[id].key, Selected(route).value, reading, key, waypoint, last);
      }
  }

  /** The get's scan comes by the pin. */
  ghost predicate Meets(t: seq<Pin>, other: Key, reading: nat, key: Key) {
    other == key || forall i :: 0 <= i < |t| && t[i].valid && t[i].key == key ==> i < HitAt(t, other, reading)
  }

  /** For any reading within a wrap: after a get the pin is in place, and has answered if
      it was asked, exactly when the scan does not come by it or the reading is neither
      older than its stamp nor 90 s later. */
  lemma GetKeepsPinIff(w: World, other: Key, reading: nat, key: Key, waypoint: u64, last: nat)
    requires w.pins != [] && Unique(w.pins) && Pinned(w.pins, key, waypoint, last)
    requires reading < last + WORD32 && last <= reading + (WORD32 - TTL_MS)
    ensures Pinned(Apply(w, Get(other, reading)).pins, key, waypoint, LastUse(Get(other, reading), key, last))
            <==> (Meets(w.pins, other, reading, key) ==> last <= reading < last + TTL_MS)
  {
    var t, t' := w.pins, GetTable(w.pins, other, reading);
    var i :| 0 <= i < |t| && t[i] == Pin(true, key, waypoint, last);
    WindowIsRightIff(reading, last, TTL_MS - 1);
    MisreadWithinWrap(reading, last, TTL_MS - 1);
    assert Stale(t[i], reading) <==> !(last <= reading < last + TTL_MS);
    if other == key {
      PinAnswersIff(t, key, waypoint, last, reading);
      if GetResult(t, key, reading).Some? {
        HitPins(t, key, reading);
      } else {
        MissClearsKey(t, key, reading);
      }
    } else {
      GetKeepsOtherIff(t, other, reading, i);
      assert forall j :: 0 <= j < |t| && j != i && t[j].valid ==> t[j].key != key;
      assert t'[i] == t[i] || !t'[i].valid;
      assert Meets(t, other, reading, key) <==> i < HitAt(t, other, reading);
    }
  }

  /** After a put for another transfer it is in place exactly when it was not evicted. */
  lemma SettleKeepsPinIff(w: World, id: nat, route: Route, reading: nat, key: Key, waypoint: u64, last: nat)
    requires Enabled(w, Settle(id, route, reading)) && Unique(w.pins) && Pinned(w.pins, key, waypoint, last)
    requires w.calls[id].key != key && Selected(route).Some?
    ensures Pinned(Apply(w, Settle(id, route, reading)).pins, key, waypoint, last)
            <==> !Evicts(w.pins, w.calls[id].key, reading, key)
  {
    if !Evicts(w.pins, w.calls[id].key, reading, key) {
      PinSurvivesUnlessEvicted(w.pins, w.calls[id].key, Selected(route).value, reading, key, waypoint, last);
    } else {
      var t' := Apply(w, Settle(id, route, reading)).pins;
      assert forall j :: 0 <= j < |t'| && t'[j].valid ==> t'[j].key != key;
    }
  }

  ghost predicate AllSpare(w: World, run: seq<Event>, key: Key, last: nat)
    requires Possible(w, run)
    decreases run
  {
    run != [] ==>
      Spares(w, run[0], key, last) && !PutsTwice(w, run[0])
      && AllSpare(Apply(w, run[0]), run[1..], key, LastUse(run[0], key, last))
  }

  /** Every get of the transfer is answered with the waypoint. */
  ghost predicate AlwaysAnswers(w: World, run: seq<Event>, key: Key, waypoint: u64)
    requires Possible(w, run)
    decreases run
  {
    run != [] ==>
      var w' := Apply(w, run[0]);
      && (run[0].Get? && run[0].key == key ==> w'.calls[|w.calls|] == Answered(key, Some(waypoint)))
      && AlwaysAnswers(w', run[1..], key, waypoint)
  }

  /** In any interleaving of calls that spares its pin, a transfer stays on the waypoint
      it was given. */
  lemma {:induction false} TransferStaysOnWaypoint(w: World, run: seq<Event>, key: Key, waypoint: u64, last: nat)
    requires Unique(w.pins) && Pinned(w.pins, key, waypoint, last) && Possible(w, run) && AllSpare(w, run, key, last)
    ensures AlwaysAnswers(w, run, key, waypoint)
    decreases run
  {
    if run == [] {
    } else {
      SparedPinStays(w, run[0], key, waypoint, last);
      StepKeepsUniqueIff(w, run[0]);
      TransferStaysOnWaypoint(Apply(w, run[0]), run[1..], key, waypoint, LastUse(run[0], key, last));
    }
  }

  // ---- Exactly when it stays, for calls that take turns ----------------------------------------

  /** What an event must satisfy to leave the pin in place. */
  ghost predicate Keeps(w: World, ev: Event, key: Key, last: nat)
    requires Enabled(w, ev)
  {
    match ev
    case Get(other, reading) => Meets(w.pins, other, reading, key) ==> last <= reading < last + TTL_MS
    case Settle(id, route, reading) => Selected(route).Some? ==> !Evicts(w.pins, w.calls[id].key, reading, key)
  }

  predicate Near(ev: Event, last: nat) {
    ev.Get? ==> ev.reading < last + WORD32 && last <= ev.reading + (WORD32 - TTL_MS)
  }

  ghost predicate AllKeep(w: World, run: seq<Event>, key: Key, last: nat)
    requires Possible(w, run)
    decreases run
  {
    run != [] ==> Keeps(w, run[0], key, last) && AllKeep(Apply(w, run[0]), run[1..], key, LastUse(run[0], key, last))
  }

  ghost predicate AllNear(run: seq<Event>, key: Key, last: nat)
    decreases run
  {
    run != [] ==> Near(run[0], last) && AllNear(run[1..], key, LastUse(run[0], key, last))
  }

  ghost predicate StaysThroughout(w: World, run: seq<Event>, key: Key, waypoint: u64, last: nat)
    requires Possible(w, run)
    decreases run
  {
    Pinned(w.pins, key, waypoint, last)
    && (run != [] ==> StaysThroughout(Apply(w, run[0]), run[1..], key, waypoint, LastUse(run[0], key, last)))
  }

  lemma StepStaysIff(w: World, ev: Event, key: Key, waypoint: u64, last: nat)
    requires Enabled(w, ev) && Unique(w.pins) && OneLooker(w) && Pinned(w.pins, key, waypoint, last) && Near(ev, last)
    ensures Pinned(Apply(w, ev).pins, key, waypoint, LastUse(ev, key, last)) <==> Keeps(w, ev, key, last)
  {
    match ev
    case Get(other, reading) => GetKeepsPinIff(w, other, reading, key, waypoint, last);
    case Settle(id, route, reading) =>
      assert w.calls[id].key != key;
      if Selected(route).Some? {
        SettleKeepsPinIff(w, id, route, reading, key, waypoint, last);
      }
  }

  lemma TurnKeepsInv(w: World, ev: Event)
    requires Enabled(w, ev) && Unique(w.pins) && OneLooker(w) && !Overlaps(w, ev)
    ensures Unique(Apply(w, ev).pins) && OneLooker(Apply(w, ev))
  {
    if ev.Get? {
      GetKeepsOneLooker(w, ev);
    } else {
      SettleKeepsOneLooker(w, ev);
    }
    StepKeepsUniqueIff(w, ev);
  }

  /** Among calls that take turns, with readings within a wrap: the pin of a transfer
      stays for the whole run if and only if no reading that meets it is older than
      its stamp or 90 s later, and no put evicts it. */
  lemma {:induction false} PinStaysIff(w: World, run: seq<Event>, key: Key, waypoint: u64, last: nat)
    requires Unique(w.pins) && OneLooker(w) && Pinned(w.pins, key, waypoint, last)
    requires Possible(w, run) && TakeTurns(w, run) && AllNear(run, key, last)
    ensures StaysThroughout(w, run, key, waypoint, last) <==> AllKeep(w, run, key, last)
    decreases run
  {
    if run == [] {
    } else {
      var w', last' := Apply(w, run[0]), LastUse(run[0], key, last);
      StepStaysIff(w, run[0], key, waypoint, last);
      TurnKeepsInv(w, run[0]);
      if Keeps(w, run[0], key, last) {
        PinStaysIff(w', run[1..], key, waypoint, last');
      } else {
        assert !StaysThroughout(w', run[1..], key, waypoint, last');
      }
    }
  }
}
