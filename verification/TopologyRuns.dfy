/** The topology table over whole runs of notes, against the plain history of what
    was noted about each peer. */
module TopologyRuns {
  import opened Words
  import opened Scan
  import opened Topology

  function Run(t: seq<Peer>, notes: seq<Note>): (r: seq<Peer>)
    requires |t| == MAX_PEERS
    ensures |r| == MAX_PEERS
  {
    if notes == [] then t else Record(Run(t, notes[..|notes| - 1]), notes[|notes| - 1])
  }

  ghost predicate Empty(t: seq<Peer>) {
    |t| == MAX_PEERS && forall i :: 0 <= i < |t| ==> !t[i].valid
  }

  predicate About(n: Note, id: nat) {
    Counts(n) && Key(n) == id
  }

  // ---- What the history says about one peer ----------------------------------------------

  function LastConnected(notes: seq<Note>, id: nat): Option<nat> {
    if notes == [] then None
    else
      var n := |notes| - 1;
      if About(notes[n], id) && notes[n].connected then Some(notes[n].now) else LastConnected(notes[..n], id)
  }

  function LastBeacon(notes: seq<Note>, id: nat): Option<nat> {
    if notes == [] then None
    else
      var n := |notes| - 1;
      if About(notes[n], id) && notes[n].heard then Some(notes[n].now) else LastBeacon(notes[..n], id)
  }

  /** The last measurement, encoded; the sentinel before the first one. */
  function LastRssi(notes: seq<Note>, id: nat): int {
    if notes == [] then RSSI_OFFSET
    else
      var n := |notes| - 1;
      if About(notes[n], id) && Measured(notes[n].rssi) then EncodeRssi(notes[n].rssi)
      else LastRssi(notes[..n], id)
  }

  /** The last strength between -999 and 0 dBm that was measured for a peer. */
  function LastMeasured(notes: seq<Note>, id: nat): Option<int> {
    if notes == [] then None
    else
      var n := |notes| - 1;
      if About(notes[n], id) && -1000 < notes[n].rssi <= 0 then Some(notes[n].rssi)
      else LastMeasured(notes[..n], id)
  }

  /** How the report codes it: 999 for 0 dBm, 1000 when there is none. */
  function Coded(rssi: Option<int>): int {
    match rssi
    case None => 1000
    case Some(dbm) => if dbm == 0 then 999 else 1000 + dbm
  }

  lemma {:induction false} LastRssiIsCoded(notes: seq<Note>, id: nat)
    ensures LastRssi(notes, id) == Coded(LastMeasured(notes, id))
  {
    if notes == [] {
    } else {
      LastRssiIsCoded(notes[..|notes| - 1], id);
    }
  }

  function Noted(notes: seq<Note>): (ids: set<nat>)
    ensures forall i :: 0 <= i < |notes| && Counts(notes[i]) ==> Key(notes[i]) in ids
  {
    if notes == [] then {}
    else
      var n := |notes| - 1;
      Noted(notes[..n]) + if Counts(notes[n]) then {Key(notes[n])} else {}
  }

  // ---- Soundness: every run ----------------------------------------------------------------

  /** A slot remembers the last connection and the last beacon of its peer, or
      nothing of the kind. */
  ghost predicate Recalls(p: Peer, notes: seq<Note>) {
    && (p.connected ==> LastConnected(notes, p.id) == Some(p.connectedAt))
    && (p.heard ==> LastBeacon(notes, p.id) == Some(p.beaconAt))
  }

  ghost predicate AllRecall(t: seq<Peer>, notes: seq<Note>) {
    forall i :: 0 <= i < |t| && t[i].valid ==> Recalls(t[i], notes)
  }

  /** One note moves the history of its own peer and of no other. */
  lemma HistoryStep(notes: seq<Note>, n: Note, id: nat)
    ensures LastConnected(notes + [n], id) ==
      if About(n, id) && n.connected then Some(n.now) else LastConnected(notes, id)
    ensures LastBeacon(notes + [n], id) ==
      if About(n, id) && n.heard then Some(n.now) else LastBeacon(notes, id)
    ensures LastRssi(notes + [n], id) ==
      if About(n, id) && Measured(n.rssi) then EncodeRssi(n.rssi) else LastRssi(notes, id)
  {
    assert (notes + [n])[..|notes|] == notes;
  }

  /** A slot that the note is not about keeps its history. */
  lemma OthersStay(t: seq<Peer>, notes: seq<Note>, n: Note, i: nat)
    requires Sound(t) && i < |t| && Record(t, n)[i].valid
    ensures var t' := Record(t, n);
      (Counts(n) && i == SlotFor(t, Key(n)) && t'[i].id == Key(n)) || (t'[i] == t[i] && !About(n, t[i].id))
  {
    if Counts(n) && i != SlotFor(t, Key(n)) {
      assert !Is(t[i], Key(n));
    }
  }

  lemma RecordKeepsRecall(t: seq<Peer>, notes: seq<Note>, n: Note)
    requires Sound(t) && AllRecall(t, notes)
    ensures AllRecall(Record(t, n), notes + [n])
  {
    var t' := Record(t, n);
    forall i: nat | i < |t'| && t'[i].valid
      ensures Recalls(t'[i], notes + [n])
    {
      OthersStay(t, notes, n, i);
      HistoryStep(notes, n, t'[i].id);
    }
  }

  lemma {:induction false} RunIsSound(t: seq<Peer>, notes: seq<Note>)
    requires Empty(t)
    ensures Sound(Run(t, notes)) && AllRecall(Run(t, notes), notes)
  {
    if notes == [] {
    } else {
      var n := |notes| - 1;
      RunIsSound(t, notes[..n]);
      RecordKeepsSound(Run(t, notes[..n]), notes[n]);
      RecordKeepsRecall(Run(t, notes[..n]), notes[..n], notes[n]);
      assert notes == notes[..n] + [notes[n]];
    }
  }

  /** Noted at most `limit` milliseconds before the reading, or after it, in true
      time. */
  ghost predicate Recent(at: Option<nat>, reading: nat, limit: nat) {
    at.Some? && reading - at.value <= limit
  }

  /** What the unsigned difference makes of it. */
  ghost predicate LooksRecent(at: Option<nat>, reading: nat, limit: nat) {
    at.Some? && Elapsed(reading, at.value) <= limit
  }

  ghost predicate MisreadAt(at: Option<nat>, reading: nat, limit: nat) {
    at.Some? && Misread(reading, at.value, limit)
  }

  lemma LooksAreRightIff(at: Option<nat>, reading: nat, limit: nat)
    requires limit < WORD32
    ensures (LooksRecent(at, reading, limit) <==> Recent(at, reading, limit)) <==> !MisreadAt(at, reading, limit)
  {
    if at.Some? {
      WindowIsRightIff(reading, at.value, limit);
    }
  }

  /** After any run, whoever the report lists as connected was last noted connected
      within the window, whoever it lists otherwise was last heard within its, unless
      that stamp is misread. */
  lemma ReportIsSound(t: seq<Peer>, notes: seq<Note>, reading: nat, id: nat)
    requires Empty(t)
    ensures Lists(Connected(Run(t, notes), reading), id) ==>
      Recent(LastConnected(notes, id), reading, 90_000) || MisreadAt(LastConnected(notes, id), reading, 90_000)
    ensures Lists(Beacons(Run(t, notes), reading), id) ==>
      Recent(LastBeacon(notes, id), reading, 300_000) || MisreadAt(LastBeacon(notes, id), reading, 300_000)
  {
    RunIsSound(t, notes);
    ConnectedLists(Run(t, notes), id, reading);
    BeaconsList(Run(t, notes), id, reading);
    LooksAreRightIff(LastConnected(notes, id), reading, CONNECTED_MS);
    LooksAreRightIff(LastBeacon(notes, id), reading, RECENT_MS);
  }

  // ---- Exactness: while at most six peers are about ------------------------------------------

  /** Slot `i` knows everything the history says about its peer. */
  ghost predicate Knows(p: Peer, notes: seq<Note>) {
    && p.connected == LastConnected(notes, p.id).Some?
    && p.heard == LastBeacon(notes, p.id).Some?
    && p.rssi == LastRssi(notes, p.id)
    && Recalls(p, notes)
  }

  ghost predicate HasPeer(t: seq<Peer>, id: nat) {
    exists i :: 0 <= i < |t| && Is(t[i], id)
  }

  ghost predicate Exact(t: seq<Peer>, notes: seq<Note>) {
    && (forall i :: 0 <= i < |t| && t[i].valid ==> Knows(t[i], notes) && t[i].id in Noted(notes))
    && (forall id :: id in Noted(notes) ==> HasPeer(t, id))
  }

  lemma NotedIsHit(t: seq<Peer>, notes: seq<Note>, id: nat)
    requires Exact(t, notes)
    ensures id in Noted(notes) ==> MatchAt(t, id) < |t|
  {
    assert id in Noted(notes) ==> HasPeer(t, id);
  }

  /** A table without a free slot holds six of the noted peers. */
  lemma FullTableNotes(t: seq<Peer>, notes: seq<Note>)
    requires Sound(t) && Exact(t, notes)
    ensures FreeAt(t) == |t| ==> |Noted(notes)| >= MAX_PEERS
  {
    if FreeAt(t) == |t| {
      var ids := seq(|t|, i requires 0 <= i < |t| => t[i].id);
      DistinctCount(ids);
      forall id | id in Elements(ids)
        ensures id in Noted(notes)
      {
        var i :| 0 <= i < |ids| && ids[i] == id;
        assert t[i].valid;
      }
      SubsetCount(Elements(ids), Noted(notes));
    }
  }

  /** With a new peer among at most six there is a free slot. */
  lemma RoomForNewPeer(t: seq<Peer>, notes: seq<Note>, n: Note)
    requires Sound(t) && Exact(t, notes) && Counts(n) && MatchAt(t, Key(n)) == |t|
    requires |Noted(notes) + {Key(n)}| <= MAX_PEERS
    ensures FreeAt(t) < |t| && Key(n) !in Noted(notes)
  {
    NotedIsHit(t, notes, Key(n));
    FullTableNotes(t, notes);
    assert |Noted(notes) + {Key(n)}| == |Noted(notes)| + 1;
  }

  /** No history before the first note about a peer. */
  lemma {:induction false} UnnotedHasNoHistory(notes: seq<Note>, id: nat)
    requires id !in Noted(notes)
    ensures LastConnected(notes, id) == None && LastBeacon(notes, id) == None && LastRssi(notes, id) == RSSI_OFFSET
  {
    if notes == [] {
    } else {
      UnnotedHasNoHistory(notes[..|notes| - 1], id);
    }
  }

  lemma NotedStep(notes: seq<Note>, n: Note)
    ensures Noted(notes + [n]) == Noted(notes) + if Counts(n) then {Key(n)} else {}
  {
    assert (notes + [n])[..|notes|] == notes;
  }

  /** The slot the note is about. */
  lemma OwnSlotKnows(t: seq<Peer>, notes: seq<Note>, n: Note)
    requires Sound(t) && Exact(t, notes) && Counts(n)
    requires |Noted(notes + [n])| <= MAX_PEERS
    ensures var i := SlotFor(t, Key(n)); Knows(Record(t, n)[i], notes + [n])
    ensures var i := SlotFor(t, Key(n)); !t[i].valid || t[i].id == Key(n)
  {
    var i := SlotFor(t, Key(n));
    NotedStep(notes, n);
    HistoryStep(notes, n, Key(n));
    if MatchAt(t, Key(n)) == |t| {
      RoomForNewPeer(t, notes, n);
      UnnotedHasNoHistory(notes, Key(n));
    }
  }

  lemma RecordKeepsKnows(t: seq<Peer>, notes: seq<Note>, n: Note, i: nat)
    requires Sound(t) && Exact(t, notes) && |Noted(notes + [n])| <= MAX_PEERS
    requires i < |t| && Record(t, n)[i].valid
    ensures Knows(Record(t, n)[i], notes + [n]) && Record(t, n)[i].id in Noted(notes + [n])
  {
    NotedStep(notes, n);
    OthersStay(t, notes, n, i);
    HistoryStep(notes, n, t[i].id);
    if Counts(n) && i == SlotFor(t, Key(n)) {
      OwnSlotKnows(t, notes, n);
    }
  }

  /** A note about somebody else leaves a held peer in its slot. */
  lemma HeldPeerStays(t: seq<Peer>, notes: seq<Note>, n: Note, i: nat)
    requires Sound(t) && Exact(t, notes) && |Noted(notes + [n])| <= MAX_PEERS
    requires i < |t| && t[i].valid && !About(n, t[i].id)
    ensures Record(t, n)[i] == t[i]
  {
    if Counts(n) {
      OwnSlotKnows(t, notes, n);
    }
  }

  lemma RecordKeepsPeer(t: seq<Peer>, notes: seq<Note>, n: Note, id: nat)
    requires Sound(t) && Exact(t, notes) && |Noted(notes + [n])| <= MAX_PEERS
    requires id in Noted(notes + [n])
    ensures HasPeer(Record(t, n), id)
  {
    NotedStep(notes, n);
    var t' := Record(t, n);
    if About(n, id) {
      assert Is(t'[SlotFor(t, Key(n))], id);
    } else {
      assert HasPeer(t, id);
      var i :| 0 <= i < |t| && Is(t[i], id);
      HeldPeerStays(t, notes, n, i);
      assert Is(t'[i], id);
    }
  }

  lemma {:induction false} NotedGrows(notes: seq<Note>, k: nat)
    requires k <= |notes|
    ensures Noted(notes[..k]) <= Noted(notes)
  {
    if k == |notes| {
      assert notes[..k] == notes;
    } else {
      assert notes[..|notes| - 1][..k] == notes[..k];
      NotedGrows(notes[..|notes| - 1], k);
    }
  }

  lemma {:induction false} RunIsExact(t: seq<Peer>, notes: seq<Note>)
    requires Empty(t) && |Noted(notes)| <= MAX_PEERS
    ensures Sound(Run(t, notes)) && Exact(Run(t, notes), notes)
  {
    RunIsSound(t, notes);
    if notes == [] {
    } else {
      var k := |notes| - 1;
      var n, before := notes[k], Run(t, notes[..k]);
      NotedGrows(notes, k);
      SubsetCount(Noted(notes[..k]), Noted(notes));
      RunIsExact(t, notes[..k]);
      assert notes == notes[..k] + [n];
      forall i: nat | i < |before| && Record(before, n)[i].valid
        ensures Knows(Record(before, n)[i], notes) && Record(before, n)[i].id in Noted(notes)
      {
        RecordKeepsKnows(before, notes[..k], n, i);
      }
      forall id | id in Noted(notes)
        ensures HasPeer(Record(before, n), id)
      {
        RecordKeepsPeer(before, notes[..k], n, id);
      }
    }
  }

  /** While no more than six peers have been noted, the report is what the unsigned
      differences make of the history. */
  lemma ReportFollowsHistory(t: seq<Peer>, notes: seq<Note>, reading: nat, id: nat)
    requires Empty(t) && |Noted(notes)| <= MAX_PEERS
    ensures Lists(Connected(Run(t, notes), reading), id) <==> LooksRecent(LastConnected(notes, id), reading, CONNECTED_MS)
    ensures Lists(Beacons(Run(t, notes), reading), id) <==>
      (LooksRecent(LastBeacon(notes, id), reading, RECENT_MS) && !LooksRecent(LastConnected(notes, id), reading, CONNECTED_MS))
  {
    var r := Run(t, notes);
    RunIsExact(t, notes);
    ConnectedLists(r, id, reading);
    BeaconsList(r, id, reading);
    OneListOnly(r, id, reading);
    if id in Noted(notes) {
      assert HasPeer(r, id);
    } else {
      UnnotedHasNoHistory(notes, id);
    }
  }

  /** And every entry carries the last strength measured for its peer. */
  lemma ReportCarriesRssi(t: seq<Peer>, notes: seq<Note>, reading: nat, e: Entry)
    requires Empty(t) && |Noted(notes)| <= MAX_PEERS && e in Report(Run(t, notes), reading)
    ensures e.id in Noted(notes) && e.rssi == Coded(LastMeasured(notes, e.id))
  {
    var r := Run(t, notes);
    RunIsExact(t, notes);
    EntriesOfSlots(r, e, reading);
    var i :| 0 <= i < |r| && r[i].valid && e.id == r[i].id && e.rssi == if r[i].rssi != 0 then r[i].rssi else 1000;
    assert Knows(r[i], notes);
    LastRssiIsCoded(notes, e.id);
  }

  /** For every reading: the connected list is right about a peer, in true time,
      exactly when the reading does not misread its last connection. */
  lemma ConnectedListIsRightIff(t: seq<Peer>, notes: seq<Note>, reading: nat, id: nat)
    requires Empty(t) && |Noted(notes)| <= MAX_PEERS
    ensures (Lists(Connected(Run(t, notes), reading), id) <==> Recent(LastConnected(notes, id), reading, 90_000))
            <==> !MisreadAt(LastConnected(notes, id), reading, 90_000)
  {
    ReportFollowsHistory(t, notes, reading, id);
    LooksAreRightIff(LastConnected(notes, id), reading, CONNECTED_MS);
  }

  /** And the list of beacons exactly when the last beacon is read well, or a
      connection hides it; a misread connection must do no harm either. */
  lemma BeaconListIsRightIff(t: seq<Peer>, notes: seq<Note>, reading: nat, id: nat)
    requires Empty(t) && |Noted(notes)| <= MAX_PEERS
    ensures var c, b := LastConnected(notes, id), LastBeacon(notes, id);
      (Lists(Beacons(Run(t, notes), reading), id) <==> (Recent(b, reading, 300_000) && !Recent(c, reading, 90_000)))
      <==>
        if !MisreadAt(c, reading, 90_000) then
          Recent(c, reading, 90_000) || !MisreadAt(b, reading, 300_000)
        else if Recent(c, reading, 90_000) then
          (Recent(b, reading, 300_000) <==> MisreadAt(b, reading, 300_000))
        else !Recent(b, reading, 300_000)
  {
    var c, b := LastConnected(notes, id), LastBeacon(notes, id);
    ReportFollowsHistory(t, notes, reading, id);
    LooksAreRightIff(c, reading, CONNECTED_MS);
    LooksAreRightIff(b, reading, RECENT_MS);
  }

  /** While no more than six peers have been noted and no stamp is misread, the report
      is exactly the history: connected peers first, then those only heard. */
  lemma ReportIsExact(t: seq<Peer>, notes: seq<Note>, reading: nat, id: nat)
    requires Empty(t) && |Noted(notes)| <= MAX_PEERS
    requires !MisreadAt(LastConnected(notes, id), reading, 90_000) && !MisreadAt(LastBeacon(notes, id), reading, 300_000)
    ensures Lists(Connected(Run(t, notes), reading), id) <==> Recent(LastConnected(notes, id), reading, 90_000)
    ensures Lists(Beacons(Run(t, notes), reading), id) <==>
      (Recent(LastBeacon(notes, id), reading, 300_000) && !Recent(LastConnected(notes, id), reading, 90_000))
  {
    ConnectedListIsRightIff(t, notes, reading, id);
    BeaconListIsRightIff(t, notes, reading, id);
  }

  // ---- Two readings that go wrong ----------------------------------------------------------

  lemma OneNote(t: seq<Peer>, n: Note)
    requires Empty(t) && Counts(n)
    ensures Noted([n]) == {Key(n)}
    ensures LastConnected([n], Key(n)) == if n.connected then Some(n.now) else None
  {
    assert [n][..0] == [];
    assert About(n, Key(n));
  }

  /** A whole wrap after its only note the peer is listed as connected again. */
  lemma WrapListsOldPeer(t: seq<Peer>)
    requires Empty(t)
    ensures Lists(Connected(Run(t, [Note(5, -40, false, true, 7)]), 7 + WORD32), 5)
  {
    var n := Note(5, -40, false, true, 7);
    OneNote(t, n);
    ElapsedIsModular(7 + WORD32, 7);
    ReportFollowsHistory(t, [n], 7 + WORD32, 5);
  }

  /** The report reads the clock before it takes the lock: a peer noted in between is
      left out. */
  lemma StaleReadingOmitsPeer(t: seq<Peer>)
    requires Empty(t)
    ensures !Lists(Connected(Run(t, [Note(5, -40, false, true, 8)]), 7), 5)
  {
    var n := Note(5, -40, false, true, 8);
    OneNote(t, n);
    ElapsedOfStaleReading(7, 8);
    ReportFollowsHistory(t, [n], 7, 5);
  }
}
