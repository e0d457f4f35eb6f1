/** The reliable pending table: what store, ACK, liveness check and the retry
    scan do to its 24 entries. */
module Reliable {
  import opened Words
  import opened Scan

  const SLOTS: nat := 24
  const MAX_ATTEMPTS: nat := 3
  const DEFAULT_TIMEOUT_MS: u32 := 240
  const MAX_PACKET: nat := 702

  datatype Key = Key(high: u64, low: u64, sequence: u32)

  datatype Packet = Packet(from: u64, to: u64, nextHop: u64, maxHop: u32, payload: seq<byte>)

  datatype Entry = Entry(
    valid: bool,
    key: Key,
    packet: Packet,
    attempts: nat,
    lastSend: nat,
    ackTimeout: u32)

  const BLANK := Entry(false, Key(0, 0, 0), Packet(0, 0, 0, 0, []), 0, 0, 0)

  predicate Is(e: Entry, key: Key) {
    e.valid && e.key == key
  }

  /** 250 ms plus 180 ms per additional radio hop, at most 1200 ms. */
  function AckTimeout(routedHops: Option<byte>): u32 {
    Min(250 + (if routedHops.Some? then routedHops.value * 180 else 0), 1200)
  }

  function Stamps(t: seq<Entry>): (r: seq<int>)
    ensures |r| == |t|
    ensures forall i :: 0 <= i < |t| ==> r[i] == Ticks(t[i].lastSend)
  {
    seq(|t|, i requires 0 <= i < |t| => Ticks(t[i].lastSend))
  }

  function Lookup(t: seq<Entry>, key: Key): (i: nat)
    ensures i <= |t|
    ensures i < |t| ==> Is(t[i], key)
    ensures forall j :: 0 <= j < i ==> !Is(t[j], key)
  {
    FirstWhere(t, (e: Entry) => Is(e, key))
  }

  function FreeAt(t: seq<Entry>): (i: nat)
    ensures i <= |t|
    ensures i < |t| ==> !t[i].valid
    ensures forall j :: 0 <= j < i ==> t[j].valid
  {
    FirstWhere(t, (e: Entry) => !e.valid)
  }

  /** The slot a store writes: the entry it replaces, else a free one, else the
      one with the smallest stamp. */
  function StoreAt(t: seq<Entry>, key: Key): (i: nat)
    requires t != []
    ensures i < |t|
  {
    if Lookup(t, key) < |t| then Lookup(t, key)
    else if FreeAt(t) < |t| then FreeAt(t)
    else FirstMin(Stamps(t))
  }

  function Stored(key: Key, p: Packet, now: nat, timeout: u32): Entry {
    Entry(true, key, p, 1, now, timeout)
  }

  predicate Acked(e: Entry, key: Key) {
    e.valid && e.key.high == key.high && e.key.low == key.low
    && (e.key.sequence == key.sequence || key.sequence == 0)
  }

  /** Sequence 0 acknowledges every chunk of the message. */
  function Ack(t: seq<Entry>, key: Key): (r: seq<Entry>)
    ensures |r| == |t|
    ensures forall i :: 0 <= i < |t| ==> r[i] == if Acked(t[i], key) then t[i].(valid := false) else t[i]
  {
    seq(|t|, i requires 0 <= i < |t| => if Acked(t[i], key) then t[i].(valid := false) else t[i])
  }

  function TimeoutOf(e: Entry): u32 {
    if e.ackTimeout != 0 then e.ackTimeout else DEFAULT_TIMEOUT_MS
  }

  predicate Due(e: Entry, reading: nat) {
    e.valid && Elapsed(reading, e.lastSend) >= TimeoutOf(e)
  }

  function DueAt(t: seq<Entry>, reading: nat): (i: nat)
    ensures i <= |t|
    ensures i < |t| ==> Due(t[i], reading)
    ensures forall j :: 0 <= j < i ==> !Due(t[j], reading)
  {
    FirstWhere(t, (e: Entry) => Due(e, reading))
  }

  /** What the retry scan does to the entry it selects. */
  function Selected(e: Entry, reading: nat): Entry {
    if e.attempts >= MAX_ATTEMPTS then e.(valid := false)
    else e.(attempts := e.attempts + 1, lastSend := reading,
            valid := |e.packet.payload| <= MAX_PACKET)
  }

  datatype Scanned = Nothing | Discarded | Retry(key: Key, packet: Packet)

  function ScanResult(e: Entry): Scanned {
    if e.attempts >= MAX_ATTEMPTS || |e.packet.payload| > MAX_PACKET then Discarded
    else Retry(e.key, e.packet)
  }

  /** One pass of the retry scan. */
  function ScanOnce(t: seq<Entry>, reading: nat): (r: (seq<Entry>, Scanned))
    ensures |r.0| == |t|
  {
    var i := DueAt(t, reading);
    if i == |t| then (t, Nothing) else (t[i := Selected(t[i], reading)], ScanResult(t[i]))
  }

  // ---- What that means for the messages pending -----------------------------------------

  /** A valid entry has this key. */
  ghost predicate Pending(t: seq<Entry>, key: Key) {
    exists i :: 0 <= i < |t| && t[i].valid && t[i].key == key
  }

  /** The timeout grows by 180 ms a hop up to five of them. */
  lemma TimeoutPerHop(hops: byte)
    ensures AckTimeout(None) == AckTimeout(Some(0)) == 250
    ensures 1 <= hops <= 5 ==> AckTimeout(Some(hops)) == AckTimeout(Some(hops - 1)) + 180
    ensures hops >= 6 ==> AckTimeout(Some(hops)) == 1200
  {
  }

  /** An acknowledgement ends what it names, every sequence of the message when it names
      sequence 0, and nothing else. */
  lemma AckEndsOnlyItsOwn(t: seq<Entry>, acked: Key, key: Key)
    ensures Pending(Ack(t, acked), key) <==>
      Pending(t, key) && !(acked.high == key.high && acked.low == key.low && (acked.sequence == key.sequence || acked.sequence == 0))
    ensures forall i :: 0 <= i < |t| && Ack(t, acked)[i].valid ==> Ack(t, acked)[i] == t[i]
  {
    var t' := Ack(t, acked);
    if Pending(t, key) {
      var i :| 0 <= i < |t| && t[i].valid && t[i].key == key;
      assert t'[i].key == key;
    }
  }

  /** A store makes its message pending, with one attempt made, and costs another one its
      entry exactly when every entry is valid and none is its own. */
  lemma StoreEvictsIff(t: seq<Entry>, key: Key, p: Packet, now: nat, timeout: u32)
    requires t != []
    ensures var t' := t[StoreAt(t, key) := Stored(key, p, now, timeout)];
      && Entry(true, key, p, 1, now, timeout) in t' && Pending(t', key)
      && ((exists i :: 0 <= i < |t| && t[i].valid && t[i].key != key && t'[i] != t[i])
          <==> forall i :: 0 <= i < |t| ==> t[i].valid && t[i].key != key)
  {
    var at, e := StoreAt(t, key), Stored(key, p, now, timeout);
    assert t[at := e][at] == e;
    if forall i :: 0 <= i < |t| ==> t[i].valid && t[i].key != key {
      assert t[at].valid && t[at].key != key && t[at := e][at] != t[at];
    } else {
      var j :| 0 <= j < |t| && !(t[j].valid && t[j].key != key);
      assert !t[j].valid || Is(t[j], key);
      assert !t[at].valid || t[at].key == key;
    }
  }

  class PendingTable {
    const entries: array<Entry>

    constructor ()
      ensures fresh(entries) && entries.Length == 24
      ensures forall e :: e in entries[..] ==> e == BLANK
    {
      entries := new Entry[SLOTS](_ => BLANK);
    }

    /** The scan half of a store: which slot to write. */
    method ChooseSlot(key: Key) returns (slot: nat)
      requires entries.Length == SLOTS
      ensures slot == StoreAt(entries[..], key)
    {
      ghost var t, stamps := entries[..], Stamps(entries[..]);
      var freeSlot, replaceSlot := -1, 0;
      var oldest: int := WORD32 - 1;
      for i := 0 to SLOTS
        invariant -1 <= freeSlot < i && 0 <= replaceSlot < SLOTS
        invariant forall j :: 0 <= j < i ==> !Is(t[j], key)
        invariant freeSlot >= 0 ==> !t[freeSlot].valid
        invariant forall j :: 0 <= j < (if freeSlot < 0 then i else freeSlot) ==> t[j].valid
        invariant MinSoFar(stamps, i, replaceSlot, oldest, WORD32 - 1)
      {
        if entries[i].valid && entries[i].key.high == key.high && entries[i].key.low == key.low
           && entries[i].key.sequence == key.sequence {
          assert Is(t[i], key) && Lookup(t, key) == i;
          return i;
        }
        if !entries[i].valid && freeSlot < 0 {
          freeSlot := i;
        }
        if Ticks(entries[i].lastSend) < oldest {
          oldest := Ticks(entries[i].lastSend);
          replaceSlot := i;
        }
      }
      assert Lookup(t, key) == SLOTS;
      assert freeSlot >= 0 ==> FreeAt(t) == freeSlot;
      assert FirstMin(stamps) == replaceSlot;
      return if freeSlot >= 0 then freeSlot else replaceSlot;
    }

    method Store(key: Key, p: Packet, now: nat, routedHops: Option<byte>)
      requires entries.Length == SLOTS
      modifies entries
      ensures var t := old(entries[..]);
        entries[..] == if p.payload == [] || |p.payload| > 702 then t
                       else t[StoreAt(t, key) := Stored(key, p, now, AckTimeout(routedHops))]
    {
      if |p.payload| == 0 || |p.payload| > MAX_PACKET {
        return;
      }
      var timeout := 250 + if routedHops.Some? then routedHops.value * 180 else 0;
      if timeout > 1200 {
        timeout := 1200;
      }
      var slot := ChooseSlot(key);
      entries[slot] := Entry(true, key, p, 1, now, timeout);
    }

    method Acknowledge(key: Key) returns (matched: bool)
      requires entries.Length == SLOTS
      modifies entries
      ensures entries[..] == Ack(old(entries[..]), key)
      ensures matched <==> exists i :: 0 <= i < SLOTS && Acked(old(entries[i]), key)
    {
      ghost var t := entries[..];
      matched := false;
      for i := 0 to SLOTS
        invariant forall j :: 0 <= j < i ==> entries[j] == if Acked(t[j], key) then t[j].(valid := false) else t[j]
        invariant forall j :: i <= j < SLOTS ==> entries[j] == t[j]
        invariant matched <==> exists j :: 0 <= j < i && Acked(t[j], key)
      {
        if !entries[i].valid || entries[i].key.high != key.high || entries[i].key.low != key.low {
          assert !Acked(t[i], key);
          continue;
        }
        if entries[i].key.sequence == key.sequence || key.sequence == 0 {
          assert Acked(t[i], key);
          entries[i] := entries[i].(valid := false);
          matched := true;
        }
      }
    }

    method IsActive(key: Key) returns (active: bool)
      requires entries.Length == SLOTS
      ensures active <==> Lookup(entries[..], key) < SLOTS
      ensures active <==> Pending(entries[..], key)
    {
      for i := 0 to SLOTS
        invariant forall j :: 0 <= j < i ==> !Is(entries[j], key)
      {
        if entries[i].valid && entries[i].key == key {
          assert Is(entries[..][i], key);
          return true;
        }
      }
      assert Lookup(entries[..], key) == SLOTS;
      return false;
    }

    method RetryScan(reading: nat) returns (r: Scanned)
      requires entries.Length == SLOTS
      modifies entries
      ensures (entries[..], r) == ScanOnce(old(entries[..]), reading)
    {
      ghost var t := entries[..];
      for i := 0 to SLOTS
        invariant entries[..] == t
        invariant forall j :: 0 <= j < i ==> !Due(t[j], reading)
      {
        var e := entries[i];
        if !e.valid {
          continue;
        }
        var timeout := if e.ackTimeout != 0 then e.ackTimeout else DEFAULT_TIMEOUT_MS;
        if Elapsed(reading, e.lastSend) < timeout {
          continue;
        }
        assert Due(t[i], reading) && DueAt(t, reading) == i;
        if e.attempts >= MAX_ATTEMPTS {
          entries[i] := e.(valid := false);
          r := Discarded;
        } else {
          entries[i] := e.(attempts := e.attempts + 1, lastSend := reading);
          if |e.packet.payload| <= MAX_PACKET {
            r := Retry(e.key, e.packet);
          } else {
            entries[i] := entries[i].(valid := false);
            r := Discarded;
          }
        }
        assert entries[..] == t[i := Selected(t[i], reading)];
        return;
      }
      assert DueAt(t, reading) == SLOTS;
      return Nothing;
    }
  }
}
