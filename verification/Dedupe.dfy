/** The time-windowed delivery dedupe: 32 slots that should behave like an
    unbounded map from checksum to the time it was last presented. */
module Dedupe {
  import opened Words
  import opened Scan

  const SLOTS: nat := 32
  const WINDOW_MS: nat := 5000

  datatype Slot = Slot(valid: bool, checksum: u64, lastSeen: nat)

  predicate Live(s: Slot, now: nat) {
    s.valid && Elapsed(now, s.lastSeen) <= WINDOW_MS
  }

  predicate Expired(s: Slot, now: nat) {
    s.valid && Elapsed(now, s.lastSeen) > WINDOW_MS
  }

  predicate Matches(s: Slot, checksum: u64, now: nat) {
    Live(s, now) && s.checksum == checksum
  }

  function Stamps(t: seq<Slot>): (r: seq<int>)
    ensures |r| == |t|
    ensures forall i :: 0 <= i < |t| ==> r[i] == Ticks(t[i].lastSeen)
  {
    seq(|t|, i requires 0 <= i < |t| => Ticks(t[i].lastSeen))
  }

  function MatchAt(t: seq<Slot>, checksum: u64, now: nat): (i: nat)
    ensures i <= |t|
    ensures i < |t| ==> Matches(t[i], checksum, now)
    ensures forall j :: 0 <= j < i ==> !Matches(t[j], checksum, now)
  {
    FirstWhere(t, (s: Slot) => Matches(s, checksum, now))
  }

  function ExpiredAt(t: seq<Slot>, now: nat): (i: nat)
    ensures i <= |t|
    ensures i < |t| ==> Expired(t[i], now)
    ensures forall j :: 0 <= j < i ==> !Expired(t[j], now)
  {
    FirstWhere(t, (s: Slot) => Expired(s, now))
  }

  function FreeAt(t: seq<Slot>): (i: nat)
    ensures i <= |t|
    ensures i < |t| ==> !t[i].valid
    ensures forall j :: 0 <= j < i ==> t[j].valid
  {
    FirstWhere(t, (s: Slot) => !s.valid)
  }

  /** Where a checksum that is not a live duplicate is written. */
  function VictimAt(t: seq<Slot>, now: nat): (i: nat)
    requires t != []
    ensures i < |t|
  {
    if ExpiredAt(t, now) < |t| then ExpiredAt(t, now)
    else if FreeAt(t) < |t| then FreeAt(t)
    else FirstMin(Stamps(t))
  }

  /** One call: the new table and the "duplicate" answer. */
  function Present(t: seq<Slot>, checksum: u64, now: nat): (r: (seq<Slot>, bool))
    requires |t| == SLOTS
    ensures |r.0| == SLOTS
  {
    var m := MatchAt(t, checksum, now);
    if m < |t| then (t[m := t[m].(lastSeen := now)], true)
    else (t[VictimAt(t, now) := Slot(true, checksum, now)], false)
  }

  /** What one pass over the first `n` slots has established; -1 means none. */
  ghost predicate Scanned(t: seq<Slot>, checksum: u64, now: nat, n: nat, free: int, expired: int) {
    && n <= |t| && -1 <= free < n && -1 <= expired < n
    && (forall j :: 0 <= j < n ==> !Matches(t[j], checksum, now))
    && (free >= 0 ==> !t[free].valid)
    && (forall j :: 0 <= j < (if free < 0 then n else free) ==> t[j].valid)
    && (expired >= 0 ==> Expired(t[expired], now))
    && (forall j :: 0 <= j < (if expired < 0 then n else expired) ==> !Expired(t[j], now))
  }

  lemma ScanDecides(t: seq<Slot>, checksum: u64, now: nat, free: int, expired: int, oldestSlot: nat, oldest: int)
    requires |t| == SLOTS && Scanned(t, checksum, now, SLOTS, free, expired)
    requires free < 0 ==> MinSoFar(Stamps(t), SLOTS, oldestSlot, oldest, WORD32 - 1)
    ensures MatchAt(t, checksum, now) == SLOTS
    ensures VictimAt(t, now) == if expired >= 0 then expired else if free >= 0 then free else oldestSlot
  {
  }

  class DedupeTable {
    const slots: array<Slot>

    ghost predicate Valid()
      reads this, slots
    {
      slots.Length == SLOTS
    }

    constructor ()
      ensures Valid() && fresh(slots)
      ensures forall s :: s in slots[..] ==> !s.valid
    {
      slots := new Slot[SLOTS](_ => Slot(false, 0, 0));
    }

    /** The scan: a live match, or the slot to write. */
    method Scan(checksum: u64, now: nat) returns (duplicate: bool, slot: nat)
      requires Valid()
      ensures slot < SLOTS && duplicate == (MatchAt(slots[..], checksum, now) < SLOTS)
      ensures slot == if duplicate then MatchAt(slots[..], checksum, now) else VictimAt(slots[..], now)
    {
      ghost var was, stamps := slots[..], Stamps(slots[..]);
      var freeSlot, expiredSlot, oldestSlot := -1, -1, 0;
      var oldest: int := WORD32 - 1;
      for i := 0 to SLOTS
        invariant Scanned(was, checksum, now, i, freeSlot, expiredSlot)
        invariant 0 <= oldestSlot < SLOTS
        invariant freeSlot < 0 ==> MinSoFar(stamps, i, oldestSlot, oldest, WORD32 - 1)
      {
        if !slots[i].valid {
          if freeSlot < 0 {
            freeSlot := i;
          }
          continue;
        }
        var age := Elapsed(now, slots[i].lastSeen);
        if age > WINDOW_MS {
          if expiredSlot < 0 {
            expiredSlot := i;
          }
        } else if slots[i].checksum == checksum {
          assert Matches(was[i], checksum, now);
          return true, i;
        }
        if Ticks(slots[i].lastSeen) < oldest {
          oldest := Ticks(slots[i].lastSeen);
          oldestSlot := i;
        }
      }
      ScanDecides(was, checksum, now, freeSlot, expiredSlot, oldestSlot, oldest);
      return false, if expiredSlot >= 0 then expiredSlot else if freeSlot >= 0 then freeSlot else oldestSlot;
    }

    /** `now` is the clock reading taken before the lock. */
    method CheckAndAdd(checksum: u64, now: nat) returns (duplicate: bool)
      requires Valid()
      modifies slots
      ensures Valid()
      ensures (slots[..], duplicate) == Present(old(slots[..]), checksum, now)
    {
      ghost var was := slots[..];
      var slot;
      duplicate, slot := Scan(checksum, now);
      slots[slot] := if duplicate then slots[slot].(lastSeen := now) else Slot(true, checksum, now);
      assert slots[..] == was[slot := if duplicate then was[slot].(lastSeen := now) else Slot(true, checksum, now)];
    }
  }

  // ---- Refinement of the unbounded map ------------------------------------

  predicate Recent(seen: map<u64, nat>, checksum: u64, now: nat) {
    checksum in seen && now - seen[checksum] <= 5000
  }

  ghost function LiveKeys(seen: map<u64, nat>, now: nat): set<u64> {
    set c | c in seen && Recent(seen, c, now)
  }

  /** No stored stamp has been left behind for a whole clock wrap. */
  ghost predicate Young(t: seq<Slot>, now: nat) {
    forall i :: 0 <= i < |t| && t[i].valid ==> t[i].lastSeen <= now < t[i].lastSeen + WORD32
  }

  predicate TrulyLive(s: Slot, now: nat) {
    s.valid && now - s.lastSeen <= 5000
  }

  ghost predicate Holds(t: seq<Slot>, checksum: u64, at: nat) {
    exists i :: 0 <= i < |t| && t[i] == Slot(true, checksum, at)
  }

  /** The table never contradicts the map. */
  ghost predicate Sound(t: seq<Slot>, seen: map<u64, nat>, now: nat) {
    && |t| == SLOTS
    && (forall c :: c in seen ==> seen[c] <= now)
    && (forall i :: 0 <= i < SLOTS && t[i].valid ==>
          t[i].checksum in seen && t[i].lastSeen <= seen[t[i].checksum])
    && (forall i :: 0 <= i < SLOTS && TrulyLive(t[i], now) ==> seen[t[i].checksum] == t[i].lastSeen)
    && (forall i, j :: 0 <= i < j < SLOTS && TrulyLive(t[i], now) && TrulyLive(t[j], now) ==>
          t[i].checksum != t[j].checksum)
  }

  /** The table has forgotten nothing that is still inside the window. */
  ghost predicate Complete(t: seq<Slot>, seen: map<u64, nat>, now: nat) {
    forall c :: c in LiveKeys(seen, now) ==> Holds(t, c, seen[c])
  }

  ghost function Checksums(t: seq<Slot>): (r: seq<u64>)
    ensures |r| == |t|
    ensures forall i :: 0 <= i < |t| ==> r[i] == t[i].checksum
  {
    seq(|t|, i requires 0 <= i < |t| => t[i].checksum)
  }

  lemma AgesAreTrue(t: seq<Slot>, now: nat)
    requires Young(t, now)
    ensures forall i :: 0 <= i < |t| && t[i].valid ==> Elapsed(now, t[i].lastSeen) == now - t[i].lastSeen
  {
    forall i | 0 <= i < |t| && t[i].valid
      ensures Elapsed(now, t[i].lastSeen) == now - t[i].lastSeen
    {
      ElapsedIsTrueAge(now, t[i].lastSeen);
    }
  }

  /** A duplicate answer is never wrong, and it is never missed while the table
      is complete. */
  lemma AnswerIsTheMaps(t: seq<Slot>, seen: map<u64, nat>, checksum: u64, now: nat)
    requires Sound(t, seen, now) && Young(t, now)
    ensures Present(t, checksum, now).1 ==> Recent(seen, checksum, now)
    ensures Complete(t, seen, now) ==> (Present(t, checksum, now).1 <==> Recent(seen, checksum, now))
  {
    AgesAreTrue(t, now);
    if Complete(t, seen, now) && Recent(seen, checksum, now) {
      assert checksum in LiveKeys(seen, now);
      var i :| 0 <= i < |t| && t[i] == Slot(true, checksum, seen[checksum]);
      assert Matches(t[i], checksum, now);
    }
  }

  /** Either way the call writes one slot, and no other slot is live with the
      presented checksum. */
  lemma PresentWritesOneSlot(t: seq<Slot>, seen: map<u64, nat>, checksum: u64, now: nat) returns (at: nat)
    requires Sound(t, seen, now) && Young(t, now)
    ensures at < SLOTS && Present(t, checksum, now).0 == t[at := Slot(true, checksum, now)]
    ensures Present(t, checksum, now).1 ==> TrulyLive(t[at], now) && t[at].checksum == checksum
    ensures !Present(t, checksum, now).1 ==> at == VictimAt(t, now)
    ensures forall i :: 0 <= i < SLOTS && i != at && TrulyLive(t[i], now) ==> t[i].checksum != checksum
  {
    AgesAreTrue(t, now);
    var m := MatchAt(t, checksum, now);
    at := if m < SLOTS then m else VictimAt(t, now);
    if m == SLOTS {
      forall i | 0 <= i < SLOTS && TrulyLive(t[i], now)
        ensures t[i].checksum != checksum
      {
        assert !Matches(t[i], checksum, now);
      }
    }
  }

  lemma PresentStaysSound(t: seq<Slot>, seen: map<u64, nat>, checksum: u64, now: nat)
    requires Sound(t, seen, now) && Young(t, now)
    ensures Sound(Present(t, checksum, now).0, seen[checksum := now], now)
    ensures Young(Present(t, checksum, now).0, now)
  {
    var at := PresentWritesOneSlot(t, seen, checksum, now);
  }

  /** A complete table has room for at most `SLOTS` live checksums. */
  lemma CompleteBoundsLive(t: seq<Slot>, seen: map<u64, nat>, now: nat)
    requires |t| == SLOTS && Complete(t, seen, now)
    ensures |LiveKeys(seen, now)| <= SLOTS
  {
    forall c | c in LiveKeys(seen, now)
      ensures c in Elements(Checksums(t))
    {
      assert Holds(t, c, seen[c]);
      var i :| 0 <= i < |t| && t[i] == Slot(true, c, seen[c]);
      assert Checksums(t)[i] == c;
    }
    SubsetCount(LiveKeys(seen, now), Elements(Checksums(t)));
    CountAtMostLength(Checksums(t));
  }

  /** A live slot is overwritten only when every slot is live. */
  lemma LiveVictimMeansFull(t: seq<Slot>, checksum: u64, now: nat)
    requires |t| == SLOTS && Young(t, now)
    requires !Present(t, checksum, now).1 && TrulyLive(t[VictimAt(t, now)], now)
    ensures forall i :: 0 <= i < SLOTS ==> TrulyLive(t[i], now) && t[i].checksum != checksum
  {
    AgesAreTrue(t, now);
    forall i | 0 <= i < SLOTS
      ensures TrulyLive(t[i], now) && t[i].checksum != checksum
    {
      assert !Expired(t[i], now) && t[i].valid && !Matches(t[i], checksum, now);
    }
  }

  /** And the one overwritten is the one presented least recently, as long as no
      clock wrap lies between the stamps. */
  lemma LiveVictimIsOldest(t: seq<Slot>, checksum: u64, now: nat, j: nat)
    requires |t| == SLOTS && j < SLOTS && Young(t, now)
    requires !Present(t, checksum, now).1 && TrulyLive(t[VictimAt(t, now)], now)
    requires t[VictimAt(t, now)].lastSeen / WORD32 == t[j].lastSeen / WORD32
    ensures t[VictimAt(t, now)].lastSeen <= t[j].lastSeen
  {
    LiveVictimMeansFull(t, checksum, now);
    AgesAreTrue(t, now);
    assert VictimAt(t, now) == FirstMin(Stamps(t));
    assert Stamps(t)[VictimAt(t, now)] <= Stamps(t)[j];
    TicksKeepOrder(t[VictimAt(t, now)].lastSeen, t[j].lastSeen);
  }

  function Times(t: seq<Slot>): (r: seq<nat>)
    ensures |r| == |t|
    ensures forall i :: 0 <= i < |t| ==> r[i] == t[i].lastSeen
  {
    seq(|t|, i requires 0 <= i < |t| => t[i].lastSeen)
  }

  /** It is that one if and only if no clock wrap lies between the 32 stamps. */
  lemma LiveVictimIsOldestIff(t: seq<Slot>, checksum: u64, now: nat)
    requires |t| == SLOTS && Young(t, now)
    requires !Present(t, checksum, now).1 && TrulyLive(t[VictimAt(t, now)], now)
    ensures Least(Times(t), VictimAt(t, now)) <==> OneEpoch(Times(t))
  {
    LiveVictimMeansFull(t, checksum, now);
    AgesAreTrue(t, now);
    assert VictimAt(t, now) == FirstMin(Stamps(t));
    assert Stamps(t) == TicksOf(Times(t));
    SmallestStampIsEarliestIff(Times(t), now);
  }

  /** When every slot is live and the presented checksum is not among them,
      one checksum too many is live. */
  lemma FullTableOverflows(t: seq<Slot>, seen: map<u64, nat>, checksum: u64, now: nat)
    requires Sound(t, seen, now) && Complete(t, seen, now)
    requires forall i :: 0 <= i < SLOTS ==> TrulyLive(t[i], now) && t[i].checksum != checksum
    ensures |LiveKeys(seen[checksum := now], now)| > SLOTS
  {
    var keys := Checksums(t);
    var more := keys + [checksum];
    DistinctCount(more);
    forall c | c in Elements(more)
      ensures c in LiveKeys(seen[checksum := now], now)
    {
      var i :| 0 <= i < |more| && more[i] == c;
      if i < SLOTS {
        assert TrulyLive(t[i], now);
      }
    }
    SubsetCount(Elements(more), LiveKeys(seen[checksum := now], now));
  }

  /** A call keeps the table complete exactly when at most 32 checksums are
      live after it: a live entry is lost only when every slot is live. */
  lemma PresentStaysCompleteIff(t: seq<Slot>, seen: map<u64, nat>, checksum: u64, now: nat)
    requires Sound(t, seen, now) && Complete(t, seen, now) && Young(t, now)
    ensures Complete(Present(t, checksum, now).0, seen[checksum := now], now)
            <==> |LiveKeys(seen[checksum := now], now)| <= 32
  {
    var t', after := Present(t, checksum, now).0, seen[checksum := now];
    if Complete(t', after, now) {
      CompleteBoundsLive(t', after, now);
    }
    if |LiveKeys(after, now)| <= SLOTS {
      var at := PresentWritesOneSlot(t, seen, checksum, now);
      assert t'[at] == Slot(true, checksum, now);
      if !Present(t, checksum, now).1 && TrulyLive(t[at], now) {
        LiveVictimMeansFull(t, checksum, now);
        FullTableOverflows(t, seen, checksum, now);
        assert false;
      }
      forall c | c in LiveKeys(after, now)
        ensures Holds(t', c, after[c])
      {
        if c != checksum {
          assert c in LiveKeys(seen, now);
          assert Holds(t, c, seen[c]);
          var i :| 0 <= i < |t| && t[i] == Slot(true, c, seen[c]);
          assert TrulyLive(t[i], now) && i != at;
          assert t'[i] == t[i];
        }
      }
    }
  }

  /** Time passing alone keeps the refinement. */
  lemma TimePasses(t: seq<Slot>, seen: map<u64, nat>, before: nat, now: nat)
    requires before <= now && Sound(t, seen, before) && Complete(t, seen, before)
    ensures Sound(t, seen, now) && Complete(t, seen, now)
  {
    forall c | c in LiveKeys(seen, now)
      ensures Holds(t, c, seen[c])
    {
      assert c in LiveKeys(seen, before);
    }
  }

  // ---- Whole runs ----------------------------------------------------------

  datatype Presentation = Presentation(checksum: u64, at: nat)

  function Answers(t: seq<Slot>, run: seq<Presentation>): seq<bool>
    requires |t| == SLOTS
    decreases run
  {
    if run == [] then []
    else
      var r := Present(t, run[0].checksum, run[0].at);
      [r.1] + Answers(r.0, run[1..])
  }

  function MapAnswers(seen: map<u64, nat>, run: seq<Presentation>): seq<bool>
    decreases run
  {
    if run == [] then []
    else [Recent(seen, run[0].checksum, run[0].at)] + MapAnswers(seen[run[0].checksum := run[0].at], run[1..])
  }

  /** Calls in clock order, never more than 32 checksums live at once, and
      no stored stamp older than one wrap of the clock. */
  ghost predicate Feasible(t: seq<Slot>, seen: map<u64, nat>, now: nat, run: seq<Presentation>)
    requires |t| == SLOTS
    decreases run
  {
    run != [] ==>
      var c, at := run[0].checksum, run[0].at;
      && now <= at
      && Young(t, at)
      && |LiveKeys(seen[c := at], at)| <= 32
      && Feasible(Present(t, c, at).0, seen[c := at], at, run[1..])
  }

  /** Every answer of a feasible run is the unbounded map's answer. */
  lemma {:induction false} RunRefinesMap(t: seq<Slot>, seen: map<u64, nat>, now: nat, run: seq<Presentation>)
    requires Sound(t, seen, now) && Complete(t, seen, now)
    requires Feasible(t, seen, now, run)
    ensures Answers(t, run) == MapAnswers(seen, run)
    decreases run
  {
    if run == [] {
    } else {
      var c, at := run[0].checksum, run[0].at;
      TimePasses(t, seen, now, at);
      AnswerIsTheMaps(t, seen, c, at);
      PresentStaysSound(t, seen, c, at);
      PresentStaysCompleteIff(t, seen, c, at);
      RunRefinesMap(Present(t, c, at).0, seen[c := at], at, run[1..]);
    }
  }

  lemma FreshTableRefinesMap(t: seq<Slot>, run: seq<Presentation>)
    requires |t| == SLOTS && forall s :: s in t ==> !s.valid
    requires Feasible(t, map[], 0, run)
    ensures Answers(t, run) == MapAnswers(map[], run)
  {
    RunRefinesMap(t, map[], 0, run);
  }

  // ---- Why the conditions are there ----------------------------------------

  /** With every slot live, one more checksum evicts a live one, and the evicted
      checksum is then delivered a second time inside its window. */
  lemma OverflowForgets(t: seq<Slot>, seen: map<u64, nat>, checksum: u64, now: nat)
    requires Sound(t, seen, now) && Complete(t, seen, now) && Young(t, now)
    requires |LiveKeys(seen[checksum := now], now)| > 32
    ensures exists c :: Recent(seen[checksum := now], c, now)
              && !Present(Present(t, checksum, now).0, c, now).1
  {
    var t', after := Present(t, checksum, now).0, seen[checksum := now];
    PresentStaysSound(t, seen, checksum, now);
    PresentStaysCompleteIff(t, seen, checksum, now);
    var c :| c in LiveKeys(after, now) && !Holds(t', c, after[c]);
    AgesAreTrue(t', now);
    forall i | 0 <= i < SLOTS
      ensures !Matches(t'[i], c, now)
    {
      assert t'[i] != Slot(true, c, after[c]);
    }
    assert Recent(after, c, now) && !Present(t', c, now).1;
  }

  /** The table remembers `checksum` from time `stored` and from no other time. */
  ghost predicate HeldAt(t: seq<Slot>, checksum: u64, stored: nat) {
    && Holds(t, checksum, stored)
    && forall i :: 0 <= i < |t| && t[i].valid && t[i].checksum == checksum ==> t[i].lastSeen == stored
  }

  /** For every clock reading, however old or late: the answer is right exactly when
      the reading does not misread the stored stamp. */
  lemma AnswerIsRightIff(t: seq<Slot>, checksum: u64, reading: nat, stored: nat)
    requires |t| == SLOTS && HeldAt(t, checksum, stored)
    ensures (Present(t, checksum, reading).1 <==> reading - stored <= 5000)
            <==> !Misread(reading, stored, 5000)
  {
    var i :| 0 <= i < |t| && t[i] == Slot(true, checksum, stored);
    assert Present(t, checksum, reading).1 <==> Elapsed(reading, stored) <= WINDOW_MS by {
      if Elapsed(reading, stored) <= WINDOW_MS {
        assert Matches(t[i], checksum, reading);
      }
    }
    WindowIsRightIff(reading, stored, WINDOW_MS);
  }

  /** So after a recent presentation the answer is "duplicate" exactly when the clock
      was not read before the stamp was written. */
  lemma RecentIsDuplicateIff(t: seq<Slot>, checksum: u64, reading: nat, stored: nat)
    requires |t| == SLOTS && HeldAt(t, checksum, stored)
    requires stored < reading + (WORD32 - WINDOW_MS) && reading <= stored + WINDOW_MS
    ensures Present(t, checksum, reading).1 <==> stored <= reading
  {
    AnswerIsRightIff(t, checksum, reading, stored);
    MisreadWithinWrap(reading, stored, WINDOW_MS);
  }

  // ---- What a stale reading overwrites ---------------------------------------

  predicate Newer(s: Slot, reading: nat) {
    s.valid && s.lastSeen > reading
  }

  /** Presented at most 5000 ms before the reading, or after it. */
  predicate LiveOrNewer(s: Slot, reading: nat) {
    s.valid && reading - s.lastSeen <= WINDOW_MS
  }

  ghost predicate NearReading(t: seq<Slot>, reading: nat) {
    forall i :: 0 <= i < |t| && t[i].valid ==>
      t[i].lastSeen < reading + (WORD32 - WINDOW_MS) && reading < t[i].lastSeen + WORD32
  }

  ghost predicate AllLive(t: seq<Slot>, reading: nat) {
    forall i :: 0 <= i < |t| ==> LiveOrNewer(t[i], reading) && !Newer(t[i], reading)
  }

  /** The first slot that looks expired was in fact written after the reading. */
  ghost predicate NewerComesFirst(t: seq<Slot>, reading: nat, i: nat)
    requires i < |t|
  {
    Newer(t[i], reading) && forall j :: 0 <= j < i ==> !t[j].valid || (LiveOrNewer(t[j], reading) && !Newer(t[j], reading))
  }

  lemma LooksExpiredIff(s: Slot, reading: nat)
    requires s.valid && s.lastSeen < reading + (WORD32 - WINDOW_MS) && reading < s.lastSeen + WORD32
    ensures Expired(s, reading) <==> Newer(s, reading) || !LiveOrNewer(s, reading)
  {
    WindowIsRightIff(reading, s.lastSeen, WINDOW_MS);
    MisreadWithinWrap(reading, s.lastSeen, WINDOW_MS);
  }

  /** A call that writes a new entry overwrites a live one exactly when all slots are
      live, or a slot newer than the reading comes before every expired slot. Without
      a stamp newer than the reading only the first can happen. */
  lemma LiveIsOverwrittenIff(t: seq<Slot>, checksum: u64, reading: nat)
    requires |t| == SLOTS && NearReading(t, reading) && !Present(t, checksum, reading).1
    ensures LiveOrNewer(t[VictimAt(t, reading)], reading)
            <==> AllLive(t, reading) || exists i :: 0 <= i < |t| && NewerComesFirst(t, reading, i)
  {
    forall i | 0 <= i < |t| && t[i].valid
      ensures Expired(t[i], reading) <==> Newer(t[i], reading) || !LiveOrNewer(t[i], reading)
    {
      LooksExpiredIff(t[i], reading);
    }
    var e := ExpiredAt(t, reading);
    if e < |t| && LiveOrNewer(t[e], reading) {
      assert NewerComesFirst(t, reading, e);
    }
  }

  /** A table with room everywhere else still loses a live entry: the clock reads 9,
      slot 0 was written at 10, and its checksum is then delivered a second time. */
  lemma StaleReadingEvictsLive(t: seq<Slot>, a: u64, b: u64)
    requires |t| == SLOTS && a != b
    requires t[0] == Slot(true, a, 10) && forall i :: 1 <= i < |t| ==> !t[i].valid
    ensures Present(t, b, 9).0 == t[0 := Slot(true, b, 9)]
    ensures !Present(Present(t, b, 9).0, a, 10).1
  {
    ElapsedOfStaleReading(9, 10);
    assert Expired(t[0], 9) && ExpiredAt(t, 9) == 0;
    assert MatchAt(t, b, 9) == |t|;
  }

  /** The clock is read before the lock. A reading older than the stored stamp
      makes a checksum presented a moment ago look expired. */
  lemma StaleReadingMissesDuplicate(t: seq<Slot>, checksum: u64, reading: nat, stored: nat)
    requires |t| == SLOTS
    requires reading < stored < reading + WORD32 - WINDOW_MS
    requires forall i :: 0 <= i < SLOTS && t[i].valid && t[i].checksum == checksum ==> t[i].lastSeen == stored
    ensures !Present(t, checksum, reading).1
  {
    ElapsedOfStaleReading(reading, stored);
  }

  /** A stamp left alone for exactly one wrap answers "duplicate" again. */
  lemma WrapRevivesStamp(t: seq<Slot>, checksum: u64, at: nat)
    requires |t| == SLOTS && t[0] == Slot(true, checksum, at)
    ensures Present(t, checksum, at + WORD32).1
  {
    ElapsedIsModular(at + WORD32, at);
    assert Matches(t[0], checksum, at + WORD32);
  }
}
