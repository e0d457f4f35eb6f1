/** The pinned waypoints of speed-test transfers: a 24-slot table with expiry
    that must keep a transfer on the waypoint it started with. */
module RoutePins {
  import opened Words
  import opened Scan

  const SLOTS: nat := 24
  const TTL_MS: nat := 90_000

  datatype Key = Key(source: u64, target: u64, transfer: u64, requestedHops: byte, completedHop: byte)
  datatype Pin = Pin(valid: bool, key: Key, nextHop: u64, lastUsed: nat)

  predicate Stale(p: Pin, now: nat) {
    p.valid && Elapsed(now, p.lastUsed) >= TTL_MS
  }

  function Expire(p: Pin, now: nat): Pin {
    if Stale(p, now) then p.(valid := false) else p
  }

  predicate Hits(p: Pin, key: Key, now: nat) {
    p.valid && !Stale(p, now) && p.key == key
  }

  function HitAt(t: seq<Pin>, key: Key, now: nat): (i: nat)
    ensures i <= |t|
    ensures i < |t| ==> Hits(t[i], key, now)
    ensures forall j :: 0 <= j < i ==> !Hits(t[j], key, now)
  {
    FirstWhere(t, (p: Pin) => Hits(p, key, now))
  }

  /** Expires every pin it passes on the way to the hit. */
  function GetTable(t: seq<Pin>, key: Key, now: nat): (r: seq<Pin>)
    ensures |r| == |t|
    ensures forall j :: 0 <= j < |t| ==>
      r[j] == if j < HitAt(t, key, now) then Expire(t[j], now)
              else if j == HitAt(t, key, now) then t[j].(lastUsed := now)
              else t[j]
  {
    var i := HitAt(t, key, now);
    seq(|t|, j requires 0 <= j < |t| =>
      if j < i then Expire(t[j], now) else if j == i then t[j].(lastUsed := now) else t[j])
  }

  function GetResult(t: seq<Pin>, key: Key, now: nat): Option<u64> {
    var i := HitAt(t, key, now);
    if i < |t| then Some(t[i].nextHop) else None
  }

  predicate Takes(p: Pin, key: Key) {
    !p.valid || p.key == key
  }

  function TakeAt(t: seq<Pin>, key: Key): (i: nat)
    ensures i <= |t|
    ensures i < |t| ==> Takes(t[i], key)
    ensures forall j :: 0 <= j < i ==> !Takes(t[j], key)
  {
    FirstWhere(t, (p: Pin) => Takes(p, key))
  }

  /** Last index of the greatest age, as the running maximum `>=` finds it. */
  function LastMax(ages: seq<u32>): (i: nat)
    requires ages != []
    ensures i < |ages|
    ensures forall j :: 0 <= j < |ages| ==> ages[j] <= ages[i]
    ensures forall j :: i < j < |ages| ==> ages[j] < ages[i]
  {
    var n := |ages| - 1;
    if n == 0 then 0
    else
      var m := LastMax(ages[..n]);
      if ages[n] >= ages[m] then n else m
  }

  function Ages(t: seq<Pin>, now: nat): (r: seq<u32>)
    ensures |r| == |t|
    ensures forall i :: 0 <= i < |t| ==> r[i] == Elapsed(now, t[i].lastUsed)
  {
    seq(|t|, i requires 0 <= i < |t| => Elapsed(now, t[i].lastUsed))
  }

  function PutAt(t: seq<Pin>, key: Key, now: nat): (i: nat)
    requires t != []
    ensures i < |t|
  {
    if TakeAt(t, key) < |t| then TakeAt(t, key) else LastMax(Ages(t, now))
  }

  function Put(t: seq<Pin>, key: Key, nextHop: u64, now: nat): (r: seq<Pin>)
    requires t != []
    ensures |r| == |t|
  {
    t[PutAt(t, key, now) := Pin(true, key, nextHop, now)]
  }

  class PinTable {
    const pins: array<Pin>

    constructor ()
      ensures fresh(pins) && pins.Length == 24
      ensures forall p :: p in pins[..] ==> !p.valid
    {
      pins := new Pin[SLOTS](_ => Pin(false, Key(0, 0, 0, 0, 0), 0, 0));
    }

    method Get(key: Key, now: nat) returns (found: Option<u64>)
      requires pins.Length == SLOTS
      modifies pins
      ensures pins[..] == GetTable(old(pins[..]), key, now)
      ensures found == GetResult(old(pins[..]), key, now)
    {
      ghost var t := pins[..];
      for i := 0 to SLOTS
        invariant forall j :: 0 <= j < i ==> pins[j] == Expire(t[j], now) && !Hits(t[j], key, now)
        invariant forall j :: i <= j < SLOTS ==> pins[j] == t[j]
      {
        if pins[i].valid && Elapsed(now, pins[i].lastUsed) >= TTL_MS {
          pins[i] := pins[i].(valid := false);
        }
        if pins[i].valid && pins[i].key == key {
          assert Hits(t[i], key, now) && HitAt(t, key, now) == i;
          pins[i] := pins[i].(lastUsed := now);
          return Some(pins[i].nextHop);
        }
      }
      assert HitAt(t, key, now) == SLOTS;
      return None;
    }

    method PutPin(key: Key, nextHop: u64, now: nat)
      requires pins.Length == SLOTS
      modifies pins
      ensures pins[..] == Put(old(pins[..]), key, nextHop, now)
    {
      ghost var t, ages := pins[..], Ages(pins[..], now);
      var slot, oldestAge := 0, 0;
      var i := 0;
      while i < SLOTS && !(!pins[i].valid || pins[i].key == key)
        invariant i <= SLOTS && slot < SLOTS && pins[..] == t
        invariant forall j :: 0 <= j < i ==> !Takes(t[j], key)
        invariant i == 0 ==> slot == 0 && oldestAge == 0
        invariant i > 0 ==> slot < i && oldestAge == ages[slot]
        invariant forall j :: 0 <= j < i ==> ages[j] <= oldestAge
        invariant forall j :: slot < j < i ==> ages[j] < oldestAge
      {
        var age := Elapsed(now, pins[i].lastUsed);
        if age >= oldestAge {
          oldestAge := age;
          slot := i;
        }
        i := i + 1;
      }
      assert TakeAt(t, key) == i;
      assert i == SLOTS ==> LastMax(ages) == slot;
      if i < SLOTS {
        slot := i;
      }
      pins[slot] := Pin(true, key, nextHop, now);
    }
  }

  // ---- Choosing a waypoint -----------------------------------------------------------

  /** The route the mesh offers to a target: the next hop and how many relays lie
      behind it, and a direct peer to detour over, when there is one. */
  datatype Route = NoRoute | Route(nextHop: u64, hop: byte, directPeer: Option<u64>)

  function Selected(r: Route): Option<u64> {
    if r.NoRoute? then None
    else if r.hop == 1 then Some(r.nextHop)
    else if r.hop == 0 then r.directPeer
    else None
  }

  function PinKey(source: u64, target: u64, transfer: u64): Key {
    Key(source, target, transfer, 2, 0)
  }

  /** One call that nobody interrupts: get, and when nothing is pinned select and put.
      Each of the two reads the clock for itself. */
  function Waypoint(t: seq<Pin>, key: Key, r: Route, now: nat, later: nat): (res: (seq<Pin>, Option<u64>))
    requires t != []
    ensures |res.0| == |t|
  {
    var got := GetTable(t, key, now);
    if GetResult(t, key, now).Some? then (got, GetResult(t, key, now))
    else if Selected(r).Some? then (Put(got, key, Selected(r).value, later), Selected(r))
    else (got, None)
  }

  method ChooseWaypoint(table: PinTable, source: u64, target: u64, transfer: u64, r: Route, now: nat, later: nat)
    returns (waypoint: Option<u64>)
    requires table.pins.Length == SLOTS
    modifies table.pins
    ensures (table.pins[..], waypoint) == Waypoint(old(table.pins[..]), PinKey(source, target, transfer), r, now, later)
  {
    waypoint := table.Get(PinKey(source, target, transfer), now);
    if waypoint.Some? || r.NoRoute? {
      return;
    }
    if r.hop == 1 {
      waypoint := Some(r.nextHop);
    } else if r.hop == 0 {
      waypoint := r.directPeer;
    }
    if waypoint.Some? {
      table.PutPin(PinKey(source, target, transfer), waypoint.value, later);
    }
  }

  // ---- What one call chooses ------------------------------------------------------------

  /** Some slot answers a get for the key. */
  ghost predicate Answers(t: seq<Pin>, key: Key, now: nat) {
    exists i :: 0 <= i < |t| && t[i].valid && t[i].key == key && Elapsed(now, t[i].lastUsed) < 90_000
  }

  ghost predicate Pinned(t: seq<Pin>, key: Key, waypoint: u64, at: nat) {
    exists i :: 0 <= i < |t| && t[i] == Pin(true, key, waypoint, at)
  }

  /** A put pins its waypoint. */
  lemma PutPins(t: seq<Pin>, key: Key, nextHop: u64, now: nat)
    requires t != []
    ensures Pinned(Put(t, key, nextHop, now), key, nextHop, now)
  {
    assert Put(t, key, nextHop, now)[PutAt(t, key, now)] == Pin(true, key, nextHop, now);
  }

  lemma MissIs(t: seq<Pin>, key: Key, now: nat)
    requires !Answers(t, key, now)
    ensures GetResult(t, key, now).None?
    ensures forall i :: 0 <= i < |t| && GetTable(t, key, now)[i].valid ==> GetTable(t, key, now)[i] == t[i] && t[i].key != key
  {
    forall i | 0 <= i < |t|
      ensures !Hits(t[i], key, now)
    {
      assert !(t[i].valid && t[i].key == key && Elapsed(now, t[i].lastUsed) < 90_000);
    }
  }

  /** Nothing answers: a target two links away is reached through its next hop, one that is
      a link away through a direct peer, and that is pinned; otherwise nothing is chosen and
      nothing pinned. */
  lemma MissTakesRoute(t: seq<Pin>, key: Key, r: Route, now: nat, later: nat)
    requires t != [] && !Answers(t, key, now)
    ensures var (t', w) := Waypoint(t, key, r, now, later);
      && (r.Route? && r.hop == 1 ==> w == Some(r.nextHop) && Pinned(t', key, r.nextHop, later))
      && (r.Route? && r.hop == 0 ==> w == r.directPeer)
      && (r.Route? && r.hop == 0 && r.directPeer.Some? ==> Pinned(t', key, r.directPeer.value, later))
      && (r.NoRoute? || r.hop > 1 || (r.hop == 0 && r.directPeer.None?) ==>
            w.None? && forall i :: 0 <= i < |t| && t'[i].valid ==> t'[i] == t[i] && t[i].key != key)
  {
    MissIs(t, key, now);
    if Selected(r).Some? {
      PutPins(GetTable(t, key, now), key, Selected(r).value, later);
    }
  }

  /** Something does: its waypoint is kept, whatever the route is now. */
  lemma HitKeepsWaypoint(t: seq<Pin>, key: Key, r: Route, now: nat, later: nat)
    requires t != [] && Answers(t, key, now)
    ensures var (t', w) := Waypoint(t, key, r, now, later);
      && w.Some? && Pinned(t', key, w.value, now)
      && exists i :: 0 <= i < |t| && t[i].valid && t[i].key == key && t[i].nextHop == w.value
  {
    var i :| 0 <= i < |t| && t[i].valid && t[i].key == key && Elapsed(now, t[i].lastUsed) < 90_000;
    assert Hits(t[i], key, now);
    var h := HitAt(t, key, now);
    assert GetTable(t, key, now)[h] == Pin(true, key, t[h].nextHop, now);
  }

  /** Different sources, targets or transfers never share a pin. */
  lemma KeysDiffer(s: u64, d: u64, x: u64, s': u64, d': u64, x': u64)
    ensures PinKey(s, d, x) == PinKey(s', d', x') <==> (s, d, x) == (s', d', x')
    ensures PinKey(s, d, x).source == s && PinKey(s, d, x).target == d && PinKey(s, d, x).transfer == x
    ensures PinKey(s, d, x).requestedHops == 2 && PinKey(s, d, x).completedHop == 0
  {
  }

  // ---- At most one pin per transfer ---------------------------------------------------

  ghost predicate Unique(t: seq<Pin>) {
    forall i, j :: 0 <= i < j < |t| && t[i].valid && t[j].valid ==> t[i].key != t[j].key
  }

  lemma PutKeepsUnique(t: seq<Pin>, key: Key, nextHop: u64, now: nat)
    requires t != [] && Unique(t) && forall i :: 0 <= i < |t| && t[i].valid ==> t[i].key != key
    ensures Unique(Put(t, key, nextHop, now))
  {
  }

  /** After a miss no valid pin for the key is left. */
  lemma MissClearsKey(t: seq<Pin>, key: Key, now: nat)
    requires GetResult(t, key, now).None?
    ensures forall i :: 0 <= i < |t| && GetTable(t, key, now)[i].valid ==> t[i].valid && t[i].key != key
  {
    assert forall i :: 0 <= i < |t| ==> !Hits(t[i], key, now);
  }

  /** An uninterrupted call leaves at most one valid pin per transfer. */
  lemma WaypointKeepsUnique(t: seq<Pin>, key: Key, r: Route, now: nat, later: nat)
    requires t != [] && Unique(t)
    ensures Unique(Waypoint(t, key, r, now, later).0)
  {
    var got := GetTable(t, key, now);
    assert Unique(got);
    if GetResult(t, key, now).None? && Selected(r).Some? {
      MissClearsKey(t, key, now);
      PutKeepsUnique(got, key, Selected(r).value, later);
    }
  }

  /** Put alone does not: it stops at a free slot before it meets the pin. */
  lemma PutAloneDuplicates(t: seq<Pin>, key: Key, nextHop: u64, now: nat)
    requires |t| >= 2 && !t[0].valid && t[1].valid && t[1].key == key
    ensures !Unique(Put(t, key, nextHop, now))
  {
    assert TakeAt(t, key) == 0;
    var t' := Put(t, key, nextHop, now);
    assert t'[0].valid && t'[1].valid && t'[0].key == t'[1].key;
  }

  /** A valid pin of the key behind a free slot. */
  ghost predicate Overtakes(t: seq<Pin>, key: Key) {
    exists i, j :: 0 <= i < j < |t| && !t[i].valid && t[j].valid && t[j].key == key
  }

  /** A put keeps the table unique exactly when no pin of its key lies behind a free
      slot. */
  lemma PutKeepsUniqueIff(t: seq<Pin>, key: Key, nextHop: u64, now: nat)
    requires t != [] && Unique(t)
    ensures Unique(Put(t, key, nextHop, now)) <==> !Overtakes(t, key)
  {
    var t', at := Put(t, key, nextHop, now), PutAt(t, key, now);
    if Overtakes(t, key) {
      var i, j :| 0 <= i < j < |t| && !t[i].valid && t[j].valid && t[j].key == key;
      assert Takes(t[i], key) && at <= i;
      assert t'[at].valid && t'[j].valid && t'[at].key == t'[j].key;
    } else {
      forall j | 0 <= j < |t| && j != at && t[j].valid
        ensures t[j].key != key
      {
        assert t[j].key == key ==> Takes(t[j], key);
      }
    }
  }

  // ---- Stickiness ------------------------------------------------------------------------

  /** A get that answers pins its waypoint. */
  lemma HitPins(t: seq<Pin>, key: Key, now: nat)
    requires GetResult(t, key, now).Some?
    ensures Pinned(GetTable(t, key, now), key, GetResult(t, key, now).value, now)
  {
    assert GetTable(t, key, now)[HitAt(t, key, now)] == Pin(true, key, GetResult(t, key, now).value, now);
  }

  /** A waypoint that is handed out is pinned at that moment. */
  lemma HandedOutIsPinned(t: seq<Pin>, key: Key, r: Route, now: nat, later: nat)
    requires t != [] && Waypoint(t, key, r, now, later).1.Some?
    ensures var (t', w) := Waypoint(t, key, r, now, later);
      Pinned(t', key, w.value, if GetResult(t, key, now).Some? then now else later)
  {
    if GetResult(t, key, now).Some? {
      HitPins(t, key, now);
    } else {
      PutPins(GetTable(t, key, now), key, Selected(r).value, later);
    }
  }

  /** For every clock reading: a get answers with the pin, or does not, as it should
      exactly when the reading does not misread the stamp of the pin. */
  lemma PinAnswersIff(t: seq<Pin>, key: Key, waypoint: u64, at: nat, now: nat)
    requires Unique(t) && Pinned(t, key, waypoint, at)
    ensures GetResult(t, key, now) == if Elapsed(now, at) < TTL_MS then Some(waypoint) else None
    ensures (GetResult(t, key, now) == Some(waypoint) <==> now - at < TTL_MS) <==> !Misread(now, at, TTL_MS - 1)
  {
    var i :| 0 <= i < |t| && t[i] == Pin(true, key, waypoint, at);
    if Elapsed(now, at) < TTL_MS {
      assert Hits(t[i], key, now) && HitAt(t, key, now) == i;
    }
    WindowIsRightIff(now, at, TTL_MS - 1);
  }

  /** Less than 90 s after its last use a pin answers, whatever the route is now. */
  lemma PinAnswers(t: seq<Pin>, key: Key, waypoint: u64, at: nat, now: nat)
    requires Unique(t) && Pinned(t, key, waypoint, at) && at <= now < at + TTL_MS
    ensures GetResult(t, key, now) == Some(waypoint)
    ensures Pinned(GetTable(t, key, now), key, waypoint, now)
  {
    PinAnswersIff(t, key, waypoint, at, now);
    HitPins(t, key, now);
  }

  /** A reading older than the stamp drops the pin, and the transfer moves. */
  lemma StaleReadingMovesTransfer(t: seq<Pin>, key: Key, r: Route)
    requires t != [] && Unique(t) && t[0] == Pin(true, key, 1, 10) && Selected(r) == Some(2)
    ensures Waypoint(t, key, r, 9, 9).1 == Some(2)
  {
    assert Pinned(t, key, 1, 10);
    ElapsedOfStaleReading(9, 10);
    PinAnswersIff(t, key, 1, 10, 9);
  }

  /** A get for another transfer drops a pin exactly when it passes it and the reading
      makes it look stale. */
  lemma GetKeepsOtherIff(t: seq<Pin>, other: Key, now: nat, i: nat)
    requires i < |t| && t[i].valid && t[i].key != other
    ensures GetTable(t, other, now)[i] == t[i] <==> HitAt(t, other, now) < i || Elapsed(now, t[i].lastUsed) < TTL_MS
  {
  }

  ghost predicate Evicts(t: seq<Pin>, other: Key, now: nat, key: Key)
    requires t != []
  {
    other != key && t[PutAt(t, other, now)].valid && t[PutAt(t, other, now)].key == key
  }

  /** A put for another transfer keeps a pin unless it evicts it. */
  lemma PinSurvivesUnlessEvicted(t: seq<Pin>, other: Key, nextHop: u64, now: nat, key: Key, waypoint: u64, at: nat)
    requires t != [] && Pinned(t, key, waypoint, at) && other != key && !Evicts(t, other, now, key)
    ensures Pinned(Put(t, other, nextHop, now), key, waypoint, at)
  {
    var i :| 0 <= i < |t| && t[i] == Pin(true, key, waypoint, at);
    assert Put(t, other, nextHop, now)[i] == t[i];
  }

  ghost predicate Young(t: seq<Pin>, now: nat) {
    forall i :: 0 <= i < |t| && t[i].valid ==> t[i].lastUsed <= now < t[i].lastUsed + WORD32
  }

  /** Eviction needs every slot taken; when no stamp is newer than the reading it takes a pin
      that no other is older than. */
  lemma EvictionTakesOldestOfFull(t: seq<Pin>, other: Key, now: nat, key: Key)
    requires t != [] && Young(t, now) && Evicts(t, other, now, key)
    ensures forall j :: 0 <= j < |t| ==> t[j].valid && t[PutAt(t, other, now)].lastUsed <= t[j].lastUsed
  {
    var at := PutAt(t, other, now);
    assert TakeAt(t, other) == |t|;
    forall j | 0 <= j < |t|
      ensures t[j].valid && t[at].lastUsed <= t[j].lastUsed
    {
      assert !Takes(t[j], other) && !Takes(t[at], other);
      ElapsedIsTrueAge(now, t[j].lastUsed);
      ElapsedIsTrueAge(now, t[at].lastUsed);
      assert Ages(t, now)[j] <= Ages(t, now)[at];
    }
  }

  /** Stamps of a table, any two less than a wrap apart. */
  ghost predicate Close(t: seq<Pin>) {
    forall i, j :: 0 <= i < |t| && 0 <= j < |t| ==> t[i].lastUsed < t[j].lastUsed + WORD32
  }

  /** No stamp is newer than the reading, or all are. */
  ghost predicate OneSide(t: seq<Pin>, now: nat) {
    (forall i :: 0 <= i < |t| ==> t[i].lastUsed <= now) || (forall i :: 0 <= i < |t| ==> now < t[i].lastUsed)
  }

  ghost predicate LeastRecent(t: seq<Pin>, at: nat)
    requires at < |t|
  {
    forall j :: 0 <= j < |t| ==> t[at].lastUsed <= t[j].lastUsed
  }

  predicate Near(stamp: nat, now: nat) {
    stamp < now + WORD32 && now < stamp + WORD32
  }

  lemma AgeNear(now: nat, stamp: nat)
    requires Near(stamp, now)
    ensures Elapsed(now, stamp) == if stamp <= now then now - stamp else WORD32 - (stamp - now)
  {
    if stamp <= now {
      ElapsedIsTrueAge(now, stamp);
    } else {
      ElapsedOfStaleReading(now, stamp);
    }
  }

  /** Ages follow the stamps on either side of the reading; a stamp newer than the reading
      looks older than any other. */
  lemma OlderLooking(a: nat, b: nat, now: nat)
    requires a < b + WORD32 && b < a + WORD32 && Near(a, now) && Near(b, now)
    requires Elapsed(now, b) <= Elapsed(now, a)
    ensures ((a <= now <==> b <= now) ==> a <= b) && (b > now ==> a > now)
  {
    AgeNear(now, a);
    AgeNear(now, b);
  }

  ghost predicate NearReading(t: seq<Pin>, now: nat) {
    forall i :: 0 <= i < |t| ==> Near(t[i].lastUsed, now)
  }

  lemma VictimLooksOldest(t: seq<Pin>, key: Key, now: nat, j: nat)
    requires t != [] && TakeAt(t, key) == |t| && j < |t|
    ensures Elapsed(now, t[j].lastUsed) <= Elapsed(now, t[PutAt(t, key, now)].lastUsed)
  {
    assert Ages(t, now)[j] <= Ages(t, now)[PutAt(t, key, now)];
  }

  /** The victim of a full table next to any other pin. */
  lemma VictimIsOldestOnItsSide(t: seq<Pin>, key: Key, now: nat, j: nat)
    requires t != [] && TakeAt(t, key) == |t| && j < |t| && Close(t) && NearReading(t, now)
    ensures var a, b := t[PutAt(t, key, now)].lastUsed, t[j].lastUsed;
      && ((a <= now <==> b <= now) ==> a <= b)
      && (b > now ==> a > now)
  {
    VictimLooksOldest(t, key, now, j);
    OlderLooking(t[PutAt(t, key, now)].lastUsed, t[j].lastUsed, now);
  }

  /** A put that finds no room replaces the pin used least recently exactly when no stamp is
      newer than its reading, or all are. */
  lemma PutEvictsOldestIff(t: seq<Pin>, key: Key, now: nat)
    requires t != [] && TakeAt(t, key) == |t| && Close(t) && NearReading(t, now)
    ensures LeastRecent(t, PutAt(t, key, now)) <==> OneSide(t, now)
  {
    var at := PutAt(t, key, now);
    if OneSide(t, now) {
      forall j | 0 <= j < |t|
        ensures t[at].lastUsed <= t[j].lastUsed
      {
        VictimIsOldestOnItsSide(t, key, now, j);
      }
    } else {
      var newer: nat, older: nat :| newer < |t| && older < |t| && t[older].lastUsed <= now < t[newer].lastUsed;
      VictimIsOldestOnItsSide(t, key, now, newer);
      assert t[older].lastUsed < t[at].lastUsed;
    }
  }

  /** A pin refreshed after another call read its clock is the one that call evicts. */
  lemma StaleReadingEvictsNewest(t: seq<Pin>, other: Key, k: nat)
    requires |t| == 24 && k < 24
    requires forall j :: 0 <= j < 24 ==> t[j].valid && t[j].key != other && t[j].lastUsed == if j == k then 10 else 5
    ensures PutAt(t, other, 9) == k && Evicts(t, other, 9, t[k].key)
  {
    var at := PutAt(t, other, 9);
    assert Ages(t, 9)[k] <= Ages(t, 9)[at];
    ElapsedOfStaleReading(9, 10);
    ElapsedIsTrueAge(9, 5);
  }

  /** After the get of the same call every one of them was also in use. */
  lemma EvictionFollowsExpiry(t: seq<Pin>, key: Key, now: nat, later: nat, victim: Key)
    requires t != [] && Young(t, now) && GetResult(t, key, now).None?
    requires Evicts(GetTable(t, key, now), key, later, victim)
    ensures forall j :: 0 <= j < |t| ==> t[j].valid && now - t[j].lastUsed < TTL_MS
  {
    var got := GetTable(t, key, now);
    assert TakeAt(got, key) == |got|;
    forall j | 0 <= j < |t|
      ensures t[j].valid && now - t[j].lastUsed < TTL_MS
    {
      assert !Takes(got[j], key);
      ElapsedIsTrueAge(now, t[j].lastUsed);
    }
  }
}
