/** The topology table: the last six peers heard, and the report made from it. */
module Topology {
  import opened Words
  import opened Scan

  const MAX_PEERS: nat := 6
  const RECENT_MS: nat := 300_000
  const CONNECTED_MS: nat := 90_000
  const RSSI_OFFSET: int := 1000
  const WORD48: nat := 0x1_0000_0000_0000
  const BROADCAST: nat := 0xFFFF_FFFF_FFFF

  datatype Peer = Peer(valid: bool, id: nat, heard: bool, connected: bool, rssi: int,
                       lastSeen: nat, beaconAt: nat, connectedAt: nat)

  const BLANK := Peer(false, 0, false, false, 0, 0, 0, 0)

  /** One call of the recorder. `rssi` is whatever the radio gave, valid or not. */
  datatype Note = Note(peer: u64, rssi: int, heard: bool, connected: bool, now: nat)

  function Key(n: Note): nat {
    n.peer % WORD48
  }

  predicate Counts(n: Note) {
    Key(n) != 0 && Key(n) != BROADCAST
  }

  lemma CountsIs(n: Note)
    ensures Counts(n) <==> n.peer % 0x1_0000_0000_0000 !in {0, 0xFFFF_FFFF_FFFF}
  {
  }

  predicate Measured(rssi: int) {
    -RSSI_OFFSET < rssi <= 0
  }

  function EncodeRssi(rssi: int): (e: int)
    ensures Measured(rssi) ==> 0 < e < RSSI_OFFSET && (rssi < 0 ==> e - RSSI_OFFSET == rssi)
    ensures !Measured(rssi) ==> e == RSSI_OFFSET
  {
    if rssi == 0 then RSSI_OFFSET - 1
    else if rssi < 0 && rssi > -RSSI_OFFSET then RSSI_OFFSET + rssi
    else RSSI_OFFSET
  }

  // ---- Recording a peer -------------------------------------------------------------------

  function Stamps(t: seq<Peer>): (r: seq<int>)
    ensures |r| == |t|
    ensures forall i :: 0 <= i < |t| ==> r[i] == Ticks(t[i].lastSeen)
  {
    seq(|t|, i requires 0 <= i < |t| => Ticks(t[i].lastSeen))
  }

  predicate Is(p: Peer, id: nat) {
    p.valid && p.id == id
  }

  function MatchAt(t: seq<Peer>, id: nat): (i: nat)
    ensures i <= |t|
    ensures i < |t| ==> Is(t[i], id)
    ensures forall j :: 0 <= j < i ==> !Is(t[j], id)
  {
    FirstWhere(t, (p: Peer) => Is(p, id))
  }

  function FreeAt(t: seq<Peer>): (i: nat)
    ensures i <= |t|
    ensures i < |t| ==> !t[i].valid
    ensures forall j :: 0 <= j < i ==> t[j].valid
  {
    FirstWhere(t, (p: Peer) => !p.valid)
  }

  /** Its own slot, else a free one, else the one with the smallest stamp. */
  function SlotFor(t: seq<Peer>, id: nat): (i: nat)
    requires t != []
    ensures i < |t|
  {
    if MatchAt(t, id) < |t| then MatchAt(t, id)
    else if FreeAt(t) < |t| then FreeAt(t)
    else FirstMin(Stamps(t))
  }

  function Updated(p: Peer, n: Note): Peer {
    Peer(true, Key(n), p.heard || n.heard, p.connected || n.connected,
         if Measured(n.rssi) then EncodeRssi(n.rssi) else if p.rssi == 0 then RSSI_OFFSET else p.rssi,
         n.now, if n.heard then n.now else p.beaconAt, if n.connected then n.now else p.connectedAt)
  }

  function Record(t: seq<Peer>, n: Note): (r: seq<Peer>)
    requires |t| == MAX_PEERS
    ensures |r| == MAX_PEERS
  {
    if !Counts(n) then t
    else
      var i := SlotFor(t, Key(n));
      t[i := Updated(if Is(t[i], Key(n)) then t[i] else BLANK, n)]
  }

  // ---- Making the report ------------------------------------------------------------------

  predicate ConnectedFresh(p: Peer, now: nat) {
    p.valid && p.connected && Elapsed(now, p.connectedAt) <= CONNECTED_MS
  }

  /** Recently heard, and not listed as connected. */
  predicate BeaconFresh(p: Peer, now: nat) {
    p.valid && !ConnectedFresh(p, now) && p.heard && Elapsed(now, p.beaconAt) <= RECENT_MS
  }

  datatype Entry = Entry(id: nat, rssi: int)

  function EntryOf(p: Peer): Entry {
    Entry(p.id, if p.rssi != 0 then p.rssi else RSSI_OFFSET)
  }

  function Connected(t: seq<Peer>, now: nat): seq<Entry> {
    if t == [] then []
    else
      var n := |t| - 1;
      Connected(t[..n], now) + if ConnectedFresh(t[n], now) then [EntryOf(t[n])] else []
  }

  function Beacons(t: seq<Peer>, now: nat): seq<Entry> {
    if t == [] then []
    else
      var n := |t| - 1;
      Beacons(t[..n], now) + if BeaconFresh(t[n], now) then [EntryOf(t[n])] else []
  }

  function Report(t: seq<Peer>, now: nat): seq<Entry> {
    Connected(t, now) + Beacons(t, now)
  }

  /** No slot is in both lists. */
  lemma {:induction false} ListsShareSlots(t: seq<Peer>, now: nat)
    ensures |Connected(t, now)| + |Beacons(t, now)| <= |t|
  {
    if t == [] {
    } else {
      ListsShareSlots(t[..|t| - 1], now);
    }
  }

  /** Going on from slot `n` adds a prefix-extension of at most one entry a slot. */
  lemma {:induction false} ListsGrow(t: seq<Peer>, n: nat, now: nat)
    requires n <= |t|
    ensures |Connected(t[..n], now)| <= |Connected(t, now)| <= |Connected(t[..n], now)| + |t| - n
    ensures Beacons(t[..n], now) <= Beacons(t, now)
  {
    if n == |t| {
      assert t[..n] == t;
    } else {
      assert t[..|t| - 1][..n] == t[..n];
      ListsGrow(t[..|t| - 1], n, now);
    }
  }

  /** There is room for every entry of the second list when its slot comes up. */
  lemma RoomForBeacon(t: seq<Peer>, n: nat, now: nat)
    requires n <= |t|
    ensures |Connected(t, now)| + |Beacons(t[..n], now)| <= |t|
    ensures n < |t| && BeaconFresh(t[n], now) ==> |Connected(t, now)| + |Beacons(t[..n], now)| < |t|
    ensures |Connected(t, now)| + |Beacons(t[..n], now)| == |t| ==> Beacons(t[..n], now) == Beacons(t, now)
  {
    ListsShareSlots(t, now);
    ListsGrow(t, n, now);
    if n < |t| {
      ListsGrow(t, n + 1, now);
      assert t[..n + 1][..n] == t[..n];
    }
  }

  class TopologyTable {
    const peers: array<Peer>

    ghost predicate Valid()
      reads this, peers
    {
      peers.Length == MAX_PEERS
    }

    constructor ()
      ensures Valid() && fresh(peers) && forall p :: p in peers[..] ==> p == BLANK
    {
      peers := new Peer[MAX_PEERS](_ => BLANK);
    }

    /** The scan: it leaves at the peer's own slot. */
    method ChooseSlot(id: nat) returns (slot: nat)
      requires Valid()
      ensures slot < MAX_PEERS && slot == SlotFor(peers[..], id)
    {
      ghost var was := peers[..];
      ghost var stamps := Stamps(was);
      var found, oldestSlot := -1, 0;
      var oldest: int := WORD32 - 1;
      for i := 0 to MAX_PEERS
        invariant -1 <= found < i && 0 <= oldestSlot < MAX_PEERS
        invariant forall j :: 0 <= j < i ==> !Is(was[j], id)
        invariant found >= 0 ==> !was[found].valid
        invariant forall j :: 0 <= j < (if found < 0 then i else found) ==> was[j].valid
        invariant MinSoFar(stamps, i, oldestSlot, oldest, WORD32 - 1)
      {
        if peers[i].valid && peers[i].id == id {
          return i;
        }
        if !peers[i].valid && found < 0 {
          found := i;
        }
        if Ticks(peers[i].lastSeen) < oldest {
          oldest := Ticks(peers[i].lastSeen);
          oldestSlot := i;
        }
      }
      slot := if found < 0 then oldestSlot else found;
    }

    method NotePeer(n: Note)
      requires Valid()
      modifies peers
      ensures Valid() && peers[..] == Record(old(peers[..]), n)
    {
      var id := Key(n);
      if id == 0 || id == BROADCAST {
        return;
      }
      ghost var was := peers[..];
      var slot := ChooseSlot(id);
      var p := peers[slot];
      if !p.valid || p.id != id {
        p := BLANK;
      }
      p := p.(valid := true, heard := p.heard || n.heard, connected := p.connected || n.connected, id := id);
      if n.rssi <= 0 && n.rssi > -RSSI_OFFSET {
        p := p.(rssi := EncodeRssi(n.rssi));
      } else if p.rssi == 0 {
        p := p.(rssi := RSSI_OFFSET);
      }
      p := p.(lastSeen := n.now);
      if n.heard {
        p := p.(beaconAt := n.now);
      }
      if n.connected {
        p := p.(connectedAt := n.now);
      }
      peers[slot] := p;
      assert peers[..] == was[slot := p];
    }

    /** Both loops stop at six entries; the limit never cuts an entry off. */
    method FillReport(now: nat) returns (report: seq<Entry>)
      requires Valid()
      ensures report == Report(peers[..], now)
    {
      ghost var t := peers[..];
      report := [];
      for i := 0 to MAX_PEERS
        invariant report == Connected(t[..i], now) && |report| <= i
      {
        assert t[..i + 1][..i] == t[..i];
        if ConnectedFresh(peers[i], now) && |report| < MAX_PEERS {
          report := report + [EntryOf(peers[i])];
        }
      }
      assert t[..MAX_PEERS] == t;
      var i := 0;
      while i < MAX_PEERS && |report| < MAX_PEERS
        invariant i <= MAX_PEERS && report == Connected(t, now) + Beacons(t[..i], now)
      {
        assert t[..i + 1][..i] == t[..i];
        if BeaconFresh(peers[i], now) {
          report := report + [EntryOf(peers[i])];
        }
        i := i + 1;
      }
      RoomForBeacon(t, i, now);
    }
  }

  // ---- Every run keeps the table sound --------------------------------------------------------

  ghost predicate SoundPeer(p: Peer) {
    p.valid ==> 0 < p.id < BROADCAST && 0 < p.rssi <= RSSI_OFFSET
  }

  ghost predicate DistinctIds(t: seq<Peer>) {
    forall i, j :: 0 <= i < j < |t| && t[i].valid && t[j].valid ==> t[i].id != t[j].id
  }

  ghost predicate Sound(t: seq<Peer>) {
    |t| == MAX_PEERS && DistinctIds(t) && forall i :: 0 <= i < |t| ==> SoundPeer(t[i])
  }

  lemma RecordKeepsSound(t: seq<Peer>, n: Note)
    requires Sound(t)
    ensures Sound(Record(t, n))
  {
    if Counts(n) {
      var i := SlotFor(t, Key(n));
      assert forall j :: 0 <= j < |t| && j != i ==> !Is(t[j], Key(n));
    }
  }

  /** A full table gives up the peer seen least recently, as long as no clock wrap
      lies between the stamps. */
  lemma EvictionTakesLeastRecent(t: seq<Peer>, id: nat, j: nat)
    requires |t| == MAX_PEERS && j < MAX_PEERS
    requires MatchAt(t, id) == MAX_PEERS && FreeAt(t) == MAX_PEERS
    requires t[SlotFor(t, id)].lastSeen / WORD32 == t[j].lastSeen / WORD32
    ensures t[SlotFor(t, id)].lastSeen <= t[j].lastSeen
  {
    assert Stamps(t)[SlotFor(t, id)] <= Stamps(t)[j];
    TicksKeepOrder(t[SlotFor(t, id)].lastSeen, t[j].lastSeen);
  }

  function Times(t: seq<Peer>): (r: seq<nat>)
    ensures |r| == |t|
    ensures forall i :: 0 <= i < |t| ==> r[i] == t[i].lastSeen
  {
    seq(|t|, i requires 0 <= i < |t| => t[i].lastSeen)
  }

  /** It gives up the peer seen least recently if and only if no clock wrap lies
      between the six stamps. */
  lemma EvictionTakesLeastRecentIff(t: seq<Peer>, id: nat, now: nat)
    requires |t| == MAX_PEERS && MatchAt(t, id) == MAX_PEERS && FreeAt(t) == MAX_PEERS
    requires forall i :: 0 <= i < |t| ==> t[i].lastSeen <= now < t[i].lastSeen + WORD32
    ensures Least(Times(t), SlotFor(t, id)) <==> OneEpoch(Times(t))
  {
    assert Stamps(t) == TicksOf(Times(t));
    SmallestStampIsEarliestIff(Times(t), now);
  }

  /** Right after a wrap it gives up the peer seen last. */
  lemma WrapEvictsNewest(t: seq<Peer>, id: nat, k: nat)
    requires |t| == MAX_PEERS && k < MAX_PEERS
    requires MatchAt(t, id) == MAX_PEERS && FreeAt(t) == MAX_PEERS
    requires t[k].lastSeen == WORD32 && forall j :: 0 <= j < MAX_PEERS && j != k ==> 0 < t[j].lastSeen < WORD32
    ensures SlotFor(t, id) == k
  {
    assert Stamps(t)[k] == 0 && forall j :: 0 <= j < MAX_PEERS && j != k ==> Stamps(t)[j] > 0;
  }

  // ---- The report against the table -----------------------------------------------------------

  ghost predicate Lists(s: seq<Entry>, id: nat) {
    exists k :: 0 <= k < |s| && s[k].id == id
  }

  lemma {:induction false} EntriesOfSlots(t: seq<Peer>, e: Entry, now: nat)
    requires e in Connected(t, now) || e in Beacons(t, now)
    ensures exists i :: 0 <= i < |t| && t[i].valid && e.id == t[i].id && e.rssi == if t[i].rssi != 0 then t[i].rssi else 1000
  {
    var n := |t| - 1;
    if e in Connected(t[..n], now) || e in Beacons(t[..n], now) {
      EntriesOfSlots(t[..n], e, now);
      var i :| 0 <= i < n && t[i].valid && e.id == t[i].id && e.rssi == if t[i].rssi != 0 then t[i].rssi else 1000;
    } else {
      assert e == EntryOf(t[n]) && t[n].valid;
    }
  }

  ghost predicate NoRepeats(s: seq<Entry>) {
    forall i, j :: 0 <= i < j < |s| ==> s[i].id != s[j].id
  }

  ghost predicate HasConnected(t: seq<Peer>, id: nat, now: nat) {
    exists i :: 0 <= i < |t| && t[i].id == id && ConnectedFresh(t[i], now)
  }

  ghost predicate HasBeacon(t: seq<Peer>, id: nat, now: nat) {
    exists i :: 0 <= i < |t| && t[i].id == id && BeaconFresh(t[i], now)
  }

  lemma ListsAppend(s: seq<Entry>, s': seq<Entry>, id: nat)
    ensures Lists(s + s', id) <==> Lists(s, id) || Lists(s', id)
  {
    if Lists(s, id) {
      var k :| 0 <= k < |s| && s[k].id == id;
      assert (s + s')[k].id == id;
    }
    if Lists(s', id) {
      var k :| 0 <= k < |s'| && s'[k].id == id;
      assert (s + s')[|s| + k].id == id;
    }
  }

  lemma NoRepeatsAppend(s: seq<Entry>, s': seq<Entry>)
    requires NoRepeats(s) && NoRepeats(s')
    requires forall id :: Lists(s, id) ==> !Lists(s', id)
    ensures NoRepeats(s + s')
  {
    forall i, j | 0 <= i < j < |s + s'|
      ensures (s + s')[i].id != (s + s')[j].id
    {
      if i < |s| <= j {
        assert Lists(s, s[i].id);
        assert s'[j - |s|].id != s[i].id;
      }
    }
  }

  /** The first list has the ids of exactly the connected-fresh slots. */
  lemma {:induction false} ConnectedLists(t: seq<Peer>, id: nat, now: nat)
    ensures Lists(Connected(t, now), id) <==> HasConnected(t, id, now)
  {
    if t == [] {
    } else {
      var n := |t| - 1;
      var last := if ConnectedFresh(t[n], now) then [EntryOf(t[n])] else [];
      ConnectedLists(t[..n], id, now);
      ListsAppend(Connected(t[..n], now), last, id);
      assert forall i :: 0 <= i < n ==> t[..n][i] == t[i];
      assert Lists(last, id) <==> t[n].id == id && ConnectedFresh(t[n], now) by {
        assert last != [] ==> last[0].id == t[n].id;
      }
    }
  }

  lemma {:induction false} BeaconsList(t: seq<Peer>, id: nat, now: nat)
    ensures Lists(Beacons(t, now), id) <==> HasBeacon(t, id, now)
  {
    if t == [] {
    } else {
      var n := |t| - 1;
      var last := if BeaconFresh(t[n], now) then [EntryOf(t[n])] else [];
      BeaconsList(t[..n], id, now);
      ListsAppend(Beacons(t[..n], now), last, id);
      assert forall i :: 0 <= i < n ==> t[..n][i] == t[i];
      assert Lists(last, id) <==> t[n].id == id && BeaconFresh(t[n], now) by {
        assert last != [] ==> last[0].id == t[n].id;
      }
    }
  }

  lemma {:induction false} ListsDoNotRepeat(t: seq<Peer>, now: nat)
    requires DistinctIds(t)
    ensures NoRepeats(Connected(t, now)) && NoRepeats(Beacons(t, now))
  {
    if t == [] {
    } else {
      var n := |t| - 1;
      ListsDoNotRepeat(t[..n], now);
      ConnectedLists(t[..n], t[n].id, now);
      BeaconsList(t[..n], t[n].id, now);
      assert forall i :: 0 <= i < n ==> t[..n][i] == t[i];
      if ConnectedFresh(t[n], now) {
        NoRepeatsAppend(Connected(t[..n], now), [EntryOf(t[n])]);
      }
      if BeaconFresh(t[n], now) {
        NoRepeatsAppend(Beacons(t[..n], now), [EntryOf(t[n])]);
      }
    }
  }

  /** The report lists every fresh peer exactly once, those connected first. */
  lemma ReportListsFreshOnce(t: seq<Peer>, now: nat)
    requires Sound(t)
    ensures NoRepeats(Report(t, now)) && |Report(t, now)| <= 6
    ensures forall id :: Lists(Connected(t, now), id) <==> HasConnected(t, id, now)
    ensures forall id :: Lists(Beacons(t, now), id) <==> HasBeacon(t, id, now)
  {
    ListsShareSlots(t, now);
    ListsDoNotRepeat(t, now);
    forall id: nat
      ensures Lists(Connected(t, now), id) <==> HasConnected(t, id, now)
      ensures Lists(Beacons(t, now), id) <==> HasBeacon(t, id, now)
      ensures Lists(Connected(t, now), id) ==> !Lists(Beacons(t, now), id)
    {
      ConnectedLists(t, id, now);
      BeaconsList(t, id, now);
      OneListOnly(t, id, now);
    }
    NoRepeatsAppend(Connected(t, now), Beacons(t, now));
  }

  lemma OneListOnly(t: seq<Peer>, id: nat, now: nat)
    requires DistinctIds(t)
    ensures !(HasConnected(t, id, now) && HasBeacon(t, id, now))
  {
  }

  lemma WhereListed(s: seq<Entry>, s': seq<Entry>, k: nat)
    requires k < |s + s'|
    ensures k < |s| ==> Lists(s, (s + s')[k].id)
    ensures k >= |s| ==> Lists(s', (s + s')[k].id)
  {
  }

  /** Peers connected come before those only heard. */
  lemma ConnectedComeFirst(t: seq<Peer>, now: nat, i: nat, j: nat)
    requires Sound(t) && i < |Report(t, now)| && j < |Report(t, now)|
    requires HasConnected(t, Report(t, now)[i].id, now) && HasBeacon(t, Report(t, now)[j].id, now)
    ensures i < j
  {
    var r := Report(t, now);
    OneListOnly(t, r[i].id, now);
    OneListOnly(t, r[j].id, now);
    ConnectedLists(t, r[j].id, now);
    BeaconsList(t, r[i].id, now);
    WhereListed(Connected(t, now), Beacons(t, now), i);
    WhereListed(Connected(t, now), Beacons(t, now), j);
  }

  lemma ReportLists(t: seq<Peer>, now: nat, id: nat)
    ensures Lists(Report(t, now), id) <==> HasConnected(t, id, now) || HasBeacon(t, id, now)
  {
    ListsAppend(Connected(t, now), Beacons(t, now), id);
    ConnectedLists(t, id, now);
    BeaconsList(t, id, now);
  }
}
