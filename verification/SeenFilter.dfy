/** The ring of recently seen messages that lets a relay drop copies that took a
    longer way than one it already passed on. */
module SeenFilter {
  import opened Words
  import opened Scan

  const SLOTS: nat := 32

  type Hop = byte

  datatype Key = Key(high: u64, low: u64, sequence: u32)
  datatype Slot = Slot(valid: bool, key: Key, bestHop: Hop)

  /** A ring slot as the abstract FIFO sees it. */
  datatype Held = Held(key: Key, best: Hop)

  predicate Untracked(key: Key) {
    key.high == 0 && key.low == 0
  }

  /** Best hop after one more arrival; 0 stands for "no best hop yet". */
  function Better(best: Hop, hop: Hop): Hop {
    if best == 0 || hop < best then hop else best
  }

  predicate Drops(best: Hop, hop: Hop) {
    0 < best < hop
  }

  function HeldAt(f: seq<Held>, key: Key): (i: nat)
    ensures i <= |f|
    ensures i < |f| ==> f[i].key == key
    ensures forall j :: 0 <= j < i ==> f[j].key != key
  {
    FirstWhere(f, (h: Held) => h.key == key)
  }

  function Push(f: seq<Held>, h: Held): seq<Held> {
    (if |f| < SLOTS then f else f[1..]) + [h]
  }

  /** One arrival at the abstract FIFO: the new FIFO and the drop answer. */
  function Arrive(f: seq<Held>, key: Key, hop: Hop): (seq<Held>, bool) {
    if Untracked(key) then (f, false)
    else
      var i := HeldAt(f, key);
      if i < |f| then (f[i := Held(key, Better(f[i].best, hop))], Drops(f[i].best, hop))
      else (Push(f, Held(key, hop)), false)
  }

  // ---- The ring ----------------------------------------------------------------

  function HeldOf(s: Slot): Held {
    Held(s.key, s.bestHop)
  }

  ghost predicate WellFormed(t: seq<Slot>, replace: nat) {
    && |t| == SLOTS && replace < SLOTS
    && (forall i :: 0 <= i < replace ==> t[i].valid)
    && (forall i :: replace <= i < SLOTS ==> t[i].valid == t[replace].valid)
    && (forall i, j :: 0 <= i < j < SLOTS && t[i].valid && t[j].valid ==> t[i].key != t[j].key)
  }

  /** Ring position of FIFO entry `k`, and back. */
  function RingIndex(full: bool, replace: nat, k: nat): int {
    if !full then k else if k < SLOTS - replace then replace + k else k - (SLOTS - replace)
  }

  function FifoIndex(full: bool, replace: nat, i: nat): int {
    if !full then i else if i < replace then i + SLOTS - replace else i - replace
  }

  /** The ring read from its oldest entry on. */
  function Fifo(t: seq<Slot>, replace: nat): (f: seq<Held>)
    requires |t| == SLOTS && replace < SLOTS
    ensures |f| == if t[replace].valid then SLOTS else replace
    ensures forall k :: 0 <= k < |f| ==> f[k] == HeldOf(t[RingIndex(t[replace].valid, replace, k)])
  {
    seq(if t[replace].valid then SLOTS else replace,
        k requires 0 <= k < (if t[replace].valid then SLOTS else replace) =>
          HeldOf(t[RingIndex(t[replace].valid, replace, k)]))
  }

  lemma FifoHolds(t: seq<Slot>, replace: nat, i: nat)
    requires WellFormed(t, replace) && i < SLOTS && t[i].valid
    ensures var k := FifoIndex(t[replace].valid, replace, i);
      && 0 <= k < |Fifo(t, replace)| && Fifo(t, replace)[k] == HeldOf(t[i])
      && HeldAt(Fifo(t, replace), t[i].key) == k
  {
    var f, k := Fifo(t, replace), FifoIndex(t[replace].valid, replace, i);
    assert RingIndex(t[replace].valid, replace, k) == i;
    forall m | 0 <= m < k
      ensures f[m].key != t[i].key
    {
      var p := RingIndex(t[replace].valid, replace, m);
      assert f[m] == HeldOf(t[p]) && p != i && t[p].valid;
    }
  }

  lemma FifoMisses(t: seq<Slot>, replace: nat, key: Key)
    requires WellFormed(t, replace)
    requires forall i :: 0 <= i < SLOTS && t[i].valid ==> t[i].key != key
    ensures HeldAt(Fifo(t, replace), key) == |Fifo(t, replace)|
  {
  }

  lemma UpdateIsFifoUpdate(t: seq<Slot>, replace: nat, i: nat, hop: Hop)
    requires WellFormed(t, replace) && i < SLOTS && t[i].valid
    ensures WellFormed(t[i := t[i].(bestHop := hop)], replace)
    ensures 0 <= FifoIndex(t[replace].valid, replace, i) < |Fifo(t, replace)|
    ensures Fifo(t[i := t[i].(bestHop := hop)], replace)
            == Fifo(t, replace)[FifoIndex(t[replace].valid, replace, i) := Held(t[i].key, hop)]
  {
    var t', full := t[i := t[i].(bestHop := hop)], t[replace].valid;
    var f, f', at := Fifo(t, replace), Fifo(t', replace), FifoIndex(full, replace, i);
    assert t'[replace].valid == full;
    forall k | 0 <= k < |f|
      ensures f'[k] == f[at := Held(t[i].key, hop)][k]
    {
      assert f'[k] == HeldOf(t'[RingIndex(full, replace, k)]);
      assert k == at <==> RingIndex(full, replace, k) == i;
    }
  }

  lemma InsertKeepsWellFormed(t: seq<Slot>, replace: nat, s: Slot)
    requires WellFormed(t, replace) && s.valid
    requires forall i :: 0 <= i < SLOTS && t[i].valid ==> t[i].key != s.key
    ensures WellFormed(t[replace := s], (replace + 1) % SLOTS)
  {
  }

  lemma InsertIsFifoPush(t: seq<Slot>, replace: nat, s: Slot)
    requires WellFormed(t, replace) && s.valid
    ensures Fifo(t[replace := s], (replace + 1) % SLOTS) == Push(Fifo(t, replace), HeldOf(s))
  {
    var t', next := t[replace := s], (replace + 1) % SLOTS;
    var f', goal := Fifo(t', next), Push(Fifo(t, replace), HeldOf(s));
    assert t'[next].valid <==> t[replace].valid || next == 0;
    forall k | 0 <= k < |f'|
      ensures f'[k] == goal[k]
    {
      assert f'[k] == HeldOf(t'[RingIndex(t'[next].valid, next, k)]);
    }
  }

  /** Updating the matching slot is the arrival of a held key. */
  lemma HitIsArrival(t: seq<Slot>, replace: nat, i: nat, hop: Hop)
    requires WellFormed(t, replace) && i < SLOTS && t[i].valid && !Untracked(t[i].key)
    ensures var b := Better(t[i].bestHop, hop);
      var t' := t[i := t[i].(bestHop := b)];
      && WellFormed(t', replace)
      && (Fifo(t', replace), Drops(t[i].bestHop, hop)) == Arrive(Fifo(t, replace), t[i].key, hop)
      && Held(t[i].key, b) in Fifo(t', replace)
  {
    var b, k := Better(t[i].bestHop, hop), FifoIndex(t[replace].valid, replace, i);
    FifoHolds(t, replace, i);
    UpdateIsFifoUpdate(t, replace, i, b);
    assert Fifo(t, replace)[k := Held(t[i].key, b)][k] == Held(t[i].key, b);
  }

  /** Overwriting the replace slot is the arrival of a new key. */
  lemma MissIsArrival(t: seq<Slot>, replace: nat, key: Key, hop: Hop)
    requires WellFormed(t, replace) && !Untracked(key)
    requires forall i :: 0 <= i < SLOTS && t[i].valid ==> t[i].key != key
    ensures var t', next := t[replace := Slot(true, key, hop)], (replace + 1) % SLOTS;
      && WellFormed(t', next)
      && (Fifo(t', next), false) == Arrive(Fifo(t, replace), key, hop)
      && Held(key, hop) in Fifo(t', next)
  {
    FifoMisses(t, replace, key);
    InsertKeepsWellFormed(t, replace, Slot(true, key, hop));
    InsertIsFifoPush(t, replace, Slot(true, key, hop));
    var f := Push(Fifo(t, replace), Held(key, hop));
    assert f[|f| - 1] == Held(key, hop);
  }

  class SeenTable {
    const slots: array<Slot>
    var replace: nat

    ghost predicate Valid()
      reads this, slots
    {
      WellFormed(slots[..], replace)
    }

    ghost function Contents(): seq<Held>
      requires Valid()
      reads this, slots
    {
      Fifo(slots[..], replace)
    }

    constructor ()
      ensures Valid() && fresh(slots) && Contents() == []
    {
      slots := new Slot[SLOTS](_ => Slot(false, Key(0, 0, 0), 0));
      replace := 0;
    }

    /** The scan for a valid slot with this key. */
    method Find(key: Key) returns (i: nat)
      requires slots.Length == SLOTS
      ensures i <= SLOTS
      ensures i < SLOTS ==> slots[i].valid && slots[i].key == key
      ensures forall j :: 0 <= j < i ==> !(slots[j].valid && slots[j].key == key)
    {
      i := 0;
      while i < SLOTS && !(slots[i].valid && slots[i].key == key)
        invariant i <= SLOTS
        invariant forall j :: 0 <= j < i ==> !(slots[j].valid && slots[j].key == key)
      {
        i := i + 1;
      }
    }

    /** The update of a matching slot. */
    method Improve(i: nat, hop: Hop) returns (drop: bool, best: Hop)
      requires slots.Length == SLOTS && i < SLOTS
      modifies slots
      ensures drop == Drops(old(slots[i].bestHop), hop) && best == Better(old(slots[i].bestHop), hop)
      ensures slots[..] == old(slots[..])[i := old(slots[i]).(bestHop := best)]
    {
      drop, best := false, slots[i].bestHop;
      if best == 0 {
        slots[i] := slots[i].(bestHop := hop);
        best := hop;
      } else if hop > best {
        drop := true;
      } else if hop < best {
        slots[i] := slots[i].(bestHop := hop);
        best := hop;
      }
    }

    /** The write over the replace slot. */
    method Insert(key: Key, hop: Hop)
      requires slots.Length == SLOTS && replace < SLOTS
      modifies this`replace, slots
      ensures slots[..] == old(slots[..])[old(replace) := Slot(true, key, hop)]
      ensures replace == (old(replace) + 1) % SLOTS
    {
      slots[replace] := Slot(true, key, hop);
      replace := (replace + 1) % SLOTS;
    }

    method Meet(i: nat, key: Key, hop: Hop) returns (drop: bool, best: Hop)
      requires Valid() && i < SLOTS && slots[i].valid && slots[i].key == key && !Untracked(key)
      modifies slots
      ensures Valid() && (Contents(), drop) == Arrive(old(Contents()), key, hop)
      ensures Held(key, best) in Contents()
    {
      HitIsArrival(slots[..], replace, i, hop);
      drop, best := Improve(i, hop);
    }

    method Enter(key: Key, hop: Hop)
      requires Valid() && !Untracked(key)
      requires forall j :: 0 <= j < SLOTS ==> !(slots[j].valid && slots[j].key == key)
      modifies this`replace, slots
      ensures Valid() && (Contents(), false) == Arrive(old(Contents()), key, hop)
      ensures Held(key, hop) in Contents()
    {
      MissIsArrival(slots[..], replace, key, hop);
      Insert(key, hop);
    }

    /** `best` is the hop reported back; an untracked message leaves the
        caller's own hop there. */
    method DropHigherHop(key: Key, hop: Hop) returns (drop: bool, best: Hop)
      requires Valid()
      modifies this, slots
      ensures Valid()
      ensures (Contents(), drop) == Arrive(old(Contents()), key, hop)
      ensures !Untracked(key) ==> Held(key, best) in Contents()
      ensures Untracked(key) ==> best == hop
    {
      if key.high == 0 && key.low == 0 {
        return false, hop;
      }
      var i := Find(key);
      if i < SLOTS {
        drop, best := Meet(i, key, hop);
      } else {
        Enter(key, hop);
        drop, best := false, hop;
      }
    }
  }
}
