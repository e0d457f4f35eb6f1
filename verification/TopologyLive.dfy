/** The topology report while any number of peers come and go: the table forgets a peer noted
    within the last five minutes exactly when there are more than six of them. */
module TopologyLive {
  import opened Words
  import opened Scan
  import opened Topology
  import opened TopologyRuns

  function LastNoted(notes: seq<Note>, id: nat): Option<nat> {
    if notes == [] then None
    else
      var n := |notes| - 1;
      if About(notes[n], id) then Some(notes[n].now) else LastNoted(notes[..n], id)
  }

  ghost predicate Live(notes: seq<Note>, id: nat, now: nat) {
    Recent(LastNoted(notes, id), now, RECENT_MS)
  }

  ghost function LiveIds(notes: seq<Note>, now: nat): set<nat> {
    set id | id in Noted(notes) && Live(notes, id, now)
  }

  /** Notes in clock order. */
  ghost predicate Ordered(notes: seq<Note>) {
    forall i, j :: 0 <= i < j < |notes| ==> notes[i].now <= notes[j].now
  }

  lemma NotedStep(notes: seq<Note>, n: Note, id: nat)
    ensures LastNoted(notes + [n], id) == if About(n, id) then Some(n.now) else LastNoted(notes, id)
  {
    assert (notes + [n])[..|notes|] == notes;
  }

  lemma {:induction false} LiveIsNoted(notes: seq<Note>, id: nat)
    ensures LastNoted(notes, id).Some? <==> id in Noted(notes)
  {
    if notes == [] {
    } else {
      LiveIsNoted(notes[..|notes| - 1], id);
    }
  }

  /** A connection or a beacon is itself a note. */
  lemma {:induction false} NotesComeLast(notes: seq<Note>, id: nat)
    requires Ordered(notes)
    ensures LastConnected(notes, id).Some? ==>
      LastNoted(notes, id).Some? && LastConnected(notes, id).value <= LastNoted(notes, id).value
    ensures LastBeacon(notes, id).Some? ==>
      LastNoted(notes, id).Some? && LastBeacon(notes, id).value <= LastNoted(notes, id).value
    ensures LastNoted(notes, id).Some? ==> LastNoted(notes, id).value <= notes[|notes| - 1].now
  {
    if notes == [] {
    } else {
      NotesComeLast(notes[..|notes| - 1], id);
    }
  }

  // ---- The invariant --------------------------------------------------------------------

  ghost predicate Dated(t: seq<Peer>, notes: seq<Note>) {
    forall i :: 0 <= i < |t| && t[i].valid ==> LastNoted(notes, t[i].id) == Some(t[i].lastSeen)
  }

  /** The slot knows what still counts about its peer. */
  ghost predicate Current(p: Peer, notes: seq<Note>, now: nat) {
    && (Recent(LastConnected(notes, p.id), now, CONNECTED_MS) ==> p.connected)
    && (Recent(LastBeacon(notes, p.id), now, RECENT_MS) ==> p.heard)
  }

  ghost predicate Covered(t: seq<Peer>, notes: seq<Note>, now: nat, id: nat) {
    exists i :: 0 <= i < |t| && Is(t[i], id) && Current(t[i], notes, now)
  }

  ghost predicate Covers(t: seq<Peer>, notes: seq<Note>, now: nat) {
    forall id :: Live(notes, id, now) ==> Covered(t, notes, now, id)
  }

  /** A note that has to evict finds no clock wrap between the stamps. */
  ghost predicate EvictsInOneEpoch(t: seq<Peer>, n: Note)
    requires |t| == MAX_PEERS
  {
    Counts(n) && MatchAt(t, Key(n)) == |t| && FreeAt(t) == |t| ==> OneEpoch(Times(t))
  }

  /** With the new note at most six peers are live; a note that must evict finds no
      clock wrap between the stamps. */
  ghost predicate Admissible(t: seq<Peer>, notes: seq<Note>, n: Note)
    requires |t| == MAX_PEERS
  {
    && (notes != [] ==> notes[|notes| - 1].now <= n.now)
    && |LiveIds(notes + [n], n.now)| <= MAX_PEERS
    && EvictsInOneEpoch(t, n)
  }

  lemma DatedStep(t: seq<Peer>, notes: seq<Note>, n: Note)
    requires Sound(t) && Dated(t, notes)
    ensures Dated(Record(t, n), notes + [n])
  {
    var t' := Record(t, n);
    forall i: nat | i < |t'| && t'[i].valid
      ensures LastNoted(notes + [n], t'[i].id) == Some(t'[i].lastSeen)
    {
      OthersStay(t, notes, n, i);
      NotedStep(notes, n, t'[i].id);
    }
  }

  /** A full table whose least recent peer is live holds six live peers besides the
      new one. */
  lemma LiveVictimMakesSeven(t: seq<Peer>, notes: seq<Note>, n: Note)
    requires Sound(t) && Dated(t, notes) && Counts(n)
    requires MatchAt(t, Key(n)) == |t| && FreeAt(t) == |t| && OneEpoch(Times(t))
    requires n.now - t[SlotFor(t, Key(n))].lastSeen <= RECENT_MS
    ensures |LiveIds(notes + [n], n.now)| > MAX_PEERS
  {
    var ids := seq(|t|, i requires 0 <= i < |t| => t[i].id);
    var more := ids + [Key(n)];
    assert forall i :: 0 <= i < |t| ==> !Is(t[i], Key(n));
    DistinctCount(more);
    forall id | id in Elements(more)
      ensures id in LiveIds(notes + [n], n.now)
    {
      var i :| 0 <= i < |more| && more[i] == id;
      NotedStep(notes, n, id);
      LiveIsNoted(notes + [n], id);
      if i < |t| {
        assert Times(t)[SlotFor(t, Key(n))] / WORD32 == Times(t)[i] / WORD32;
        EvictionTakesLeastRecent(t, Key(n), i);
        assert LastNoted(notes, t[i].id) == Some(t[i].lastSeen);
      }
    }
    SubsetCount(Elements(more), LiveIds(notes + [n], n.now));
  }

  /** So a live peer keeps its slot. */
  lemma LivePeerStays(t: seq<Peer>, notes: seq<Note>, n: Note, i: nat)
    requires Sound(t) && Dated(t, notes) && Admissible(t, notes, n)
    requires i < |t| && t[i].valid && !About(n, t[i].id) && Live(notes, t[i].id, n.now)
    ensures Record(t, n)[i] == t[i]
  {
    if Counts(n) && i == SlotFor(t, Key(n)) {
      assert LastNoted(notes, t[i].id) == Some(t[i].lastSeen);
      assert MatchAt(t, Key(n)) == |t| && FreeAt(t) == |t|;
      LiveVictimMakesSeven(t, notes, n);
    }
  }

  lemma OtherStaysCovered(t: seq<Peer>, notes: seq<Note>, now: nat, n: Note, id: nat)
    requires Sound(t) && Dated(t, notes) && Admissible(t, notes, n) && now <= n.now
    requires !About(n, id) && Live(notes, id, n.now) && Covered(t, notes, now, id)
    ensures Covered(Record(t, n), notes + [n], n.now, id)
  {
    var i :| 0 <= i < |t| && Is(t[i], id) && Current(t[i], notes, now);
    LivePeerStays(t, notes, n, i);
    HistoryStep(notes, n, id);
    assert Is(Record(t, n)[i], id) && Current(Record(t, n)[i], notes + [n], n.now);
  }

  /** The peer of the note itself: what was known about it while it was live is
      still known, and what is older no longer counts. */
  lemma OwnIsCovered(t: seq<Peer>, notes: seq<Note>, now: nat, n: Note)
    requires Sound(t) && Ordered(notes) && Covers(t, notes, now) && now <= n.now && Counts(n)
    ensures Covered(Record(t, n), notes + [n], n.now, Key(n))
  {
    var id, i := Key(n), SlotFor(t, Key(n));
    HistoryStep(notes, n, id);
    NotesComeLast(notes, id);
    if Live(notes, id, now) {
      assert Covered(t, notes, now, id);
      var j :| 0 <= j < |t| && Is(t[j], id) && Current(t[j], notes, now);
      assert j == i;
    }
    assert Is(Record(t, n)[i], id) && Current(Record(t, n)[i], notes + [n], n.now);
  }

  lemma RecordKeepsCovers(t: seq<Peer>, notes: seq<Note>, now: nat, n: Note)
    requires Sound(t) && Dated(t, notes) && Ordered(notes) && Covers(t, notes, now) && now <= n.now
    requires Admissible(t, notes, n)
    ensures Covers(Record(t, n), notes + [n], n.now)
  {
    forall id | Live(notes + [n], id, n.now)
      ensures Covered(Record(t, n), notes + [n], n.now, id)
    {
      NotedStep(notes, n, id);
      if About(n, id) {
        OwnIsCovered(t, notes, now, n);
      } else {
        assert Live(notes, id, now);
        OtherStaysCovered(t, notes, now, n, id);
      }
    }
  }

  // ---- Whole runs ---------------------------------------------------------------------------

  ghost predicate AllAdmissible(t: seq<Peer>, notes: seq<Note>)
    requires |t| == MAX_PEERS
  {
    forall k :: 0 <= k < |notes| ==> Admissible(Run(t, notes[..k]), notes[..k], notes[k])
  }

  function Clock(notes: seq<Note>): nat {
    if notes == [] then 0 else notes[|notes| - 1].now
  }

  lemma AdmissibleUpTo(t: seq<Peer>, notes: seq<Note>, k: nat)
    requires |t| == MAX_PEERS && AllAdmissible(t, notes) && k <= |notes|
    ensures AllAdmissible(t, notes[..k])
  {
    forall i | 0 <= i < k
      ensures Admissible(Run(t, notes[..k][..i]), notes[..k][..i], notes[..k][i])
    {
      assert notes[..k][..i] == notes[..i] && notes[..k][i] == notes[i];
    }
  }

  lemma OrderedStep(notes: seq<Note>, n: Note)
    requires Ordered(notes) && (notes != [] ==> notes[|notes| - 1].now <= n.now)
    ensures Ordered(notes + [n])
  {
  }

  ghost predicate Tracks(t: seq<Peer>, notes: seq<Note>, now: nat) {
    Sound(t) && Ordered(notes) && Dated(t, notes) && Covers(t, notes, now)
  }

  lemma RecordTracks(t: seq<Peer>, notes: seq<Note>, n: Note)
    requires Tracks(t, notes, Clock(notes)) && Admissible(t, notes, n)
    ensures Tracks(Record(t, n), notes + [n], n.now)
  {
    OrderedStep(notes, n);
    RecordKeepsSound(t, n);
    DatedStep(t, notes, n);
    RecordKeepsCovers(t, notes, Clock(notes), n);
  }

  // ---- Exactly when a live peer is forgotten ---------------------------------------------------

  ghost predicate NoSlot(t: seq<Peer>, id: nat) {
    forall i :: 0 <= i < |t| ==> !Is(t[i], id)
  }

  /** Some live peer has no slot. */
  ghost predicate Forgets(t: seq<Peer>, notes: seq<Note>, now: nat) {
    exists id :: id in LiveIds(notes, now) && NoSlot(t, id)
  }

  /** Six slots cannot hold seven peers. */
  lemma SeventhHasNoSlot(t: seq<Peer>, peers: set<nat>)
    requires |t| == MAX_PEERS && |peers| > MAX_PEERS
    ensures exists id :: id in peers && NoSlot(t, id)
  {
    var ids := seq(|t|, i requires 0 <= i < |t| => t[i].id);
    CountAtMostLength(ids);
    if peers <= Elements(ids) {
      SubsetCount(peers, Elements(ids));
    }
    var id :| id in peers && id !in Elements(ids);
    forall i | 0 <= i < |t|
      ensures !Is(t[i], id)
    {
      assert ids[i] in Elements(ids);
    }
  }

  lemma CoveringForgetsNone(t: seq<Peer>, notes: seq<Note>, now: nat)
    requires Covers(t, notes, now)
    ensures !Forgets(t, notes, now)
  {
    forall id | id in LiveIds(notes, now)
      ensures !NoSlot(t, id)
    {
      assert Covered(t, notes, now, id);
    }
  }

  /** A note costs a live peer its slot exactly when more than six are live after it. */
  lemma NoteForgetsIff(t: seq<Peer>, notes: seq<Note>, n: Note)
    requires Tracks(t, notes, Clock(notes)) && (notes != [] ==> Clock(notes) <= n.now)
    requires EvictsInOneEpoch(t, n)
    ensures Forgets(Record(t, n), notes + [n], n.now) <==> |LiveIds(notes + [n], n.now)| > 6
    ensures Covers(Record(t, n), notes + [n], n.now) <==> |LiveIds(notes + [n], n.now)| <= 6
  {
    if |LiveIds(notes + [n], n.now)| > MAX_PEERS {
      RecordKeepsSound(t, n);
      SeventhHasNoSlot(Record(t, n), LiveIds(notes + [n], n.now));
      if Covers(Record(t, n), notes + [n], n.now) {
        CoveringForgetsNone(Record(t, n), notes + [n], n.now);
      }
    } else {
      RecordTracks(t, notes, n);
      CoveringForgetsNone(Record(t, n), notes + [n], n.now);
    }
  }

  /** A peer without a slot is in no report, whenever it is made. */
  lemma ForgottenIsOmitted(t: seq<Peer>, id: nat, reading: nat)
    requires Sound(t) && NoSlot(t, id)
    ensures !Lists(Connected(t, reading), id) && !Lists(Beacons(t, reading), id)
  {
    ConnectedLists(t, id, reading);
    BeaconsList(t, id, reading);
  }

  /** The peers a report should list. */
  ghost function DueIds(notes: seq<Note>, reading: nat): set<nat> {
    set id | id in Noted(notes)
             && (Recent(LastConnected(notes, id), reading, CONNECTED_MS) || Recent(LastBeacon(notes, id), reading, RECENT_MS))
  }

  /** When more than six peers should be listed, one of them is not. */
  lemma CrowdedReportOmits(t: seq<Peer>, notes: seq<Note>, reading: nat)
    requires Sound(t) && |DueIds(notes, reading)| > MAX_PEERS
    ensures exists id :: id in DueIds(notes, reading) && !Lists(Connected(t, reading), id) && !Lists(Beacons(t, reading), id)
  {
    SeventhHasNoSlot(t, DueIds(notes, reading));
    var id :| id in DueIds(notes, reading) && NoSlot(t, id);
    ForgottenIsOmitted(t, id, reading);
  }

  lemma LastNote(t: seq<Peer>, notes: seq<Note>)
    requires |t| == MAX_PEERS && notes != []
    ensures var k := |notes| - 1;
      && notes == notes[..k] + [notes[k]] && Clock(notes) == notes[k].now
      && Run(t, notes) == Record(Run(t, notes[..k]), notes[k])
  {
  }

  lemma {:induction false} RunCoversLive(t: seq<Peer>, notes: seq<Note>)
    requires Empty(t) && AllAdmissible(t, notes)
    ensures Tracks(Run(t, notes), notes, Clock(notes))
  {
    if notes == [] {
    } else {
      var k := |notes| - 1;
      AdmissibleUpTo(t, notes, k);
      RunCoversLive(t, notes[..k]);
      RecordTracks(Run(t, notes[..k]), notes[..k], notes[k]);
      LastNote(t, notes);
    }
  }

  ghost predicate NeverForgets(t: seq<Peer>, notes: seq<Note>)
    requires |t| == MAX_PEERS
  {
    forall k :: 0 <= k <= |notes| ==> !Forgets(Run(t, notes[..k]), notes[..k], Clock(notes[..k]))
  }

  ghost predicate NeverCrowded(notes: seq<Note>) {
    forall k :: 0 <= k <= |notes| ==> |LiveIds(notes[..k], Clock(notes[..k]))| <= 6
  }

  lemma PrefixStep(notes: seq<Note>, k: nat)
    requires k < |notes|
    ensures notes[..k + 1] == notes[..k] + [notes[k]] && Clock(notes[..k + 1]) == notes[k].now
  {
  }

  lemma UncrowdedIsAdmissible(r: seq<Peer>, notes: seq<Note>, k: nat)
    requires |r| == MAX_PEERS && Ordered(notes) && k < |notes| && EvictsInOneEpoch(r, notes[k])
    requires |LiveIds(notes[..k + 1], Clock(notes[..k + 1]))| <= MAX_PEERS
    ensures Admissible(r, notes[..k], notes[k])
  {
    PrefixStep(notes, k);
    assert notes[..k] != [] ==> notes[..k][|notes[..k]| - 1] == notes[k - 1];
  }

  /** Over a run of notes in clock order no live peer ever loses its slot if and only if never
      more than six are live. */
  lemma RunForgetsIff(t: seq<Peer>, notes: seq<Note>)
    requires Empty(t) && Ordered(notes)
    requires forall k :: 0 <= k < |notes| ==> EvictsInOneEpoch(Run(t, notes[..k]), notes[k])
    ensures NeverForgets(t, notes) <==> NeverCrowded(notes)
  {
    if NeverCrowded(notes) {
      forall k | 0 <= k < |notes|
        ensures Admissible(Run(t, notes[..k]), notes[..k], notes[k])
      {
        UncrowdedIsAdmissible(Run(t, notes[..k]), notes, k);
      }
      forall k | 0 <= k <= |notes|
        ensures !Forgets(Run(t, notes[..k]), notes[..k], Clock(notes[..k]))
      {
        AdmissibleUpTo(t, notes, k);
        RunCoversLive(t, notes[..k]);
        CoveringForgetsNone(Run(t, notes[..k]), notes[..k], Clock(notes[..k]));
      }
    } else {
      var k: nat :| k <= |notes| && |LiveIds(notes[..k], Clock(notes[..k]))| > MAX_PEERS;
      SeventhHasNoSlot(Run(t, notes[..k]), LiveIds(notes[..k], Clock(notes[..k])));
    }
  }

  /** However many peers come and go: as long as at most six are live at a time and no
      stamp is misread, a report made after the last note is exactly the history. */
  lemma LiveReportIsExact(t: seq<Peer>, notes: seq<Note>, reading: nat, id: nat)
    requires Empty(t) && AllAdmissible(t, notes) && Clock(notes) <= reading
    requires !MisreadAt(LastConnected(notes, id), reading, 90_000) && !MisreadAt(LastBeacon(notes, id), reading, 300_000)
    ensures Lists(Connected(Run(t, notes), reading), id) <==> Recent(LastConnected(notes, id), reading, 90_000)
    ensures Lists(Beacons(Run(t, notes), reading), id) <==>
      (Recent(LastBeacon(notes, id), reading, 300_000) && !Recent(LastConnected(notes, id), reading, 90_000))
  {
    var r := Run(t, notes);
    RunCoversLive(t, notes);
    RunIsSound(t, notes);
    NotesComeLast(notes, id);
    LooksAreRightIff(LastConnected(notes, id), reading, CONNECTED_MS);
    LooksAreRightIff(LastBeacon(notes, id), reading, RECENT_MS);
    ConnectedLists(r, id, reading);
    BeaconsList(r, id, reading);
    if Recent(LastConnected(notes, id), reading, CONNECTED_MS) || Recent(LastBeacon(notes, id), reading, RECENT_MS) {
      assert Live(notes, id, Clock(notes));
      assert Covered(r, notes, Clock(notes), id);
      var i :| 0 <= i < |r| && Is(r[i], id) && Current(r[i], notes, Clock(notes));
      assert Recalls(r[i], notes);
    }
  }
}
