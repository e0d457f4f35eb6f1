/** The script index as a sorted sequence, and the finite map it stands for. */
module ScriptIndex {
  import opened Words
  import opened Scan

  const MAX_SCRIPTS: nat := 16

  datatype Meta = Meta(id: u16, size: u32)

  ghost predicate Ascending(s: seq<Meta>) {
    forall i, j :: 0 <= i < j < |s| ==> s[i].id < s[j].id
  }

  function FindAt(s: seq<Meta>, id: u16): (i: nat)
    ensures i <= |s|
    ensures i < |s| ==> s[i].id == id
    ensures forall j :: 0 <= j < i ==> s[j].id != id
  {
    FirstWhere(s, (m: Meta) => m.id == id)
  }

  /** Where the insertion loop stops when it walks down from the end. */
  function InsertAt(s: seq<Meta>, id: u16): (k: nat)
    ensures k <= |s|
    ensures k > 0 ==> s[k - 1].id <= id
    ensures forall i :: k <= i < |s| ==> s[i].id > id
  {
    if s != [] && s[|s| - 1].id > id then InsertAt(s[..|s| - 1], id) else |s|
  }

  function Insert(s: seq<Meta>, m: Meta): seq<Meta> {
    var k := InsertAt(s, m.id);
    s[..k] + [m] + s[k..]
  }

  predicate Refuses(s: seq<Meta>, id: u16) {
    FindAt(s, id) == |s| && |s| >= MAX_SCRIPTS
  }

  function Upsert(s: seq<Meta>, m: Meta): seq<Meta> {
    var i := FindAt(s, m.id);
    if i < |s| then s[i := m] else if |s| >= MAX_SCRIPTS then s else Insert(s, m)
  }

  function Delete(s: seq<Meta>, id: u16): seq<Meta> {
    var i := FindAt(s, id);
    if i < |s| then s[..i] + s[i + 1..] else s
  }

  // ---- The map ------------------------------------------------------------------------

  function Ids(s: seq<Meta>): (r: seq<u16>)
    ensures |r| == |s|
    ensures forall i :: 0 <= i < |s| ==> r[i] == s[i].id
  {
    seq(|s|, i requires 0 <= i < |s| => s[i].id)
  }

  function ToMap(s: seq<Meta>): map<u16, u32> {
    map id | id in Ids(s) && FindAt(s, id) < |s| :: s[FindAt(s, id)].size
  }

  ghost predicate SameAt(u: map<u16, u32>, v: map<u16, u32>, id: u16) {
    (id in u <==> id in v) && (id in u ==> u[id] == v[id])
  }

  lemma SameEverywhere(u: map<u16, u32>, v: map<u16, u32>)
    requires forall id: u16 :: SameAt(u, v, id)
    ensures u == v
  {
    assert forall id: u16 :: id in u ==> SameAt(u, v, id);
    assert forall id: u16 :: id in v ==> SameAt(u, v, id);
  }

  lemma FindIs(s: seq<Meta>, i: nat)
    requires Ascending(s) && i < |s|
    ensures FindAt(s, s[i].id) == i
  {
  }

  /** Membership in the map is a hit of the scan. */
  lemma MapHolds(s: seq<Meta>, id: u16)
    ensures id in ToMap(s) <==> FindAt(s, id) < |s|
    ensures id in ToMap(s) ==> ToMap(s)[id] == s[FindAt(s, id)].size
  {
    if FindAt(s, id) < |s| {
      assert Ids(s)[FindAt(s, id)] == id;
    }
  }

  /** An ascending index has one entry per key of its map. */
  lemma MapCounts(s: seq<Meta>)
    requires Ascending(s)
    ensures |ToMap(s)| == |s|
  {
    forall id: u16
      ensures id in ToMap(s) <==> id in Elements(Ids(s))
    {
      MapHolds(s, id);
      if id in Elements(Ids(s)) {
        var i :| 0 <= i < |s| && Ids(s)[i] == id;
        assert s[i].id == id;
      }
    }
    assert ToMap(s).Keys == Elements(Ids(s));
    DistinctCount(Ids(s));
  }

  lemma InsertByIndex(s: seq<Meta>, m: Meta)
    ensures var s', k := Insert(s, m), InsertAt(s, m.id);
      && |s'| == |s| + 1 && s'[k] == m
      && (forall i :: 0 <= i < k ==> s'[i] == s[i])
      && (forall i :: k < i < |s'| ==> s'[i] == s[i - 1])
  {
  }

  lemma InsertIs(s: seq<Meta>, m: Meta, k: nat, s': seq<Meta>)
    requires k <= |s| && |s'| == |s| + 1 && s'[k] == m
    requires (k > 0 ==> s[k - 1].id <= m.id) && forall i :: k <= i < |s| ==> s[i].id > m.id
    requires forall i :: 0 <= i < k ==> s'[i] == s[i]
    requires forall i :: k < i < |s'| ==> s'[i] == s[i - 1]
    ensures s' == Insert(s, m)
  {
    assert k == InsertAt(s, m.id);
    InsertByIndex(s, m);
  }

  lemma InsertKeepsAscending(s: seq<Meta>, m: Meta)
    requires Ascending(s) && FindAt(s, m.id) == |s|
    ensures Ascending(Insert(s, m))
  {
    InsertByIndex(s, m);
    var s', k := Insert(s, m), InsertAt(s, m.id);
    assert k > 0 ==> s[k - 1].id != m.id;
    forall i, j | 0 <= i < j < |s'|
      ensures s'[i].id < s'[j].id
    {
      assert i < k ==> s[i].id <= s[k - 1].id;
    }
  }

  lemma UpsertKeepsAscending(s: seq<Meta>, m: Meta)
    requires Ascending(s) && |s| <= MAX_SCRIPTS
    ensures Ascending(Upsert(s, m)) && |Upsert(s, m)| <= MAX_SCRIPTS
  {
    if FindAt(s, m.id) == |s| {
      InsertKeepsAscending(s, m);
    }
  }

  lemma DeleteKeepsAscending(s: seq<Meta>, id: u16)
    requires Ascending(s)
    ensures Ascending(Delete(s, id))
  {
  }

  /** Where a held id is after the new entry went in. */
  lemma HeldAfterInsert(s: seq<Meta>, m: Meta, j: nat)
    requires Ascending(s) && Ascending(Insert(s, m)) && j < |s|
    ensures FindAt(Insert(s, m), s[j].id) < |Insert(s, m)| && Insert(s, m)[FindAt(Insert(s, m), s[j].id)] == s[j]
  {
    InsertByIndex(s, m);
    var at := if j < InsertAt(s, m.id) then j else j + 1;
    assert Insert(s, m)[at] == s[j];
    FindIs(Insert(s, m), at);
  }

  lemma MissingAfterInsert(s: seq<Meta>, m: Meta, id: u16)
    requires id != m.id && FindAt(s, id) == |s|
    ensures FindAt(Insert(s, m), id) == |Insert(s, m)|
  {
    InsertByIndex(s, m);
  }

  lemma FindAfterInsert(s: seq<Meta>, m: Meta, id: u16)
    requires Ascending(s) && Ascending(Insert(s, m))
    ensures var s' := Insert(s, m);
      && (FindAt(s', id) < |s'| <==> id == m.id || FindAt(s, id) < |s|)
      && (id == m.id ==> s'[FindAt(s', id)] == m)
      && (id != m.id && FindAt(s, id) < |s| ==> s'[FindAt(s', id)] == s[FindAt(s, id)])
  {
    if id == m.id {
      InsertByIndex(s, m);
      FindIs(Insert(s, m), InsertAt(s, m.id));
    } else if FindAt(s, id) < |s| {
      HeldAfterInsert(s, m, FindAt(s, id));
    } else {
      MissingAfterInsert(s, m, id);
    }
  }

  lemma FindAfterReplace(s: seq<Meta>, i: nat, m: Meta, id: u16)
    requires i < |s| && s[i].id == m.id && Ascending(s)
    ensures FindAt(s[i := m], id) == FindAt(s, id)
  {
    assert forall k :: 0 <= k < |s| ==> s[i := m][k].id == s[k].id;
  }

  /** An upsert sets its own id and no other, unless a full index refuses a new id. */
  lemma UpsertRefinesMap(s: seq<Meta>, m: Meta)
    requires Ascending(s) && |s| <= MAX_SCRIPTS
    ensures Refuses(s, m.id) <==> m.id !in ToMap(s) && |ToMap(s)| == 16
    ensures ToMap(Upsert(s, m)) == if Refuses(s, m.id) then ToMap(s) else ToMap(s)[m.id := m.size]
  {
    UpsertKeepsAscending(s, m);
    MapHolds(s, m.id);
    MapCounts(s);
    if !Refuses(s, m.id) {
      var u, v := ToMap(Upsert(s, m)), ToMap(s)[m.id := m.size];
      forall id: u16
        ensures SameAt(u, v, id)
      {
        UpsertSetsOneId(s, m, id);
      }
      SameEverywhere(u, v);
    }
  }

  lemma UpsertSetsOneId(s: seq<Meta>, m: Meta, id: u16)
    requires Ascending(s) && !Refuses(s, m.id) && Ascending(Upsert(s, m))
    ensures SameAt(ToMap(Upsert(s, m)), ToMap(s)[m.id := m.size], id)
  {
    var s', i := Upsert(s, m), FindAt(s, m.id);
    MapHolds(s, id);
    MapHolds(s', id);
    if i < |s| {
      FindAfterReplace(s, i, m, id);
      assert id != m.id && FindAt(s, id) < |s| ==> s'[FindAt(s', id)] == s[FindAt(s, id)];
    } else {
      FindAfterInsert(s, m, id);
    }
  }

  lemma FindAfterDelete(s: seq<Meta>, gone: u16, id: u16)
    requires Ascending(s)
    ensures var s' := Delete(s, gone);
      && (FindAt(s', id) < |s'| <==> id != gone && FindAt(s, id) < |s|)
      && (FindAt(s', id) < |s'| ==> s'[FindAt(s', id)] == s[FindAt(s, id)])
  {
    var s', i := Delete(s, gone), FindAt(s, gone);
    if i < |s| {
      if id != gone && FindAt(s, id) < |s| {
        var j := FindAt(s, id);
        assert s'[if j < i then j else j - 1] == s[j];
      }
    }
  }

  lemma DeleteDropsOneId(s: seq<Meta>, gone: u16, id: u16)
    requires Ascending(s)
    ensures SameAt(ToMap(Delete(s, gone)), ToMap(s) - {gone}, id)
  {
    MapHolds(s, id);
    MapHolds(Delete(s, gone), id);
    FindAfterDelete(s, gone, id);
  }

  /** A delete removes its own id and no other. */
  lemma DeleteRefinesMap(s: seq<Meta>, id: u16)
    requires Ascending(s)
    ensures ToMap(Delete(s, id)) == ToMap(s) - {id}
  {
    var u, v := ToMap(Delete(s, id)), ToMap(s) - {id};
    forall k: u16
      ensures SameAt(u, v, k)
    {
      DeleteDropsOneId(s, id, k);
    }
    SameEverywhere(u, v);
  }

  // ---- Runs -----------------------------------------------------------------------------

  datatype Op = Put(m: Meta) | Remove(id: u16)

  function ApplyOp(s: seq<Meta>, op: Op): seq<Meta> {
    match op
    case Put(m) => Upsert(s, m)
    case Remove(id) => Delete(s, id)
  }

  function Run(s: seq<Meta>, ops: seq<Op>): seq<Meta>
    decreases ops
  {
    if ops == [] then s else Run(ApplyOp(s, ops[0]), ops[1..])
  }

  /** The reference: a map that takes new ids only while it has fewer than 16. */
  function ApplyToMap(m: map<u16, u32>, op: Op): map<u16, u32> {
    match op
    case Put(e) => if e.id in m || |m| < 16 then m[e.id := e.size] else m
    case Remove(id) => m - {id}
  }

  function RunMap(m: map<u16, u32>, ops: seq<Op>): map<u16, u32>
    decreases ops
  {
    if ops == [] then m else RunMap(ApplyToMap(m, ops[0]), ops[1..])
  }

  /** Every run keeps the index ascending and bounded, and is the run of the map. */
  lemma {:induction false} RunRefinesMap(s: seq<Meta>, ops: seq<Op>)
    requires Ascending(s) && |s| <= MAX_SCRIPTS
    ensures Ascending(Run(s, ops)) && |Run(s, ops)| <= MAX_SCRIPTS
    ensures ToMap(Run(s, ops)) == RunMap(ToMap(s), ops)
    decreases ops
  {
    if ops == [] {
    } else {
      match ops[0] {
        case Put(m) =>
          UpsertKeepsAscending(s, m);
          UpsertRefinesMap(s, m);
          MapCounts(s);
          RunRefinesMap(Upsert(s, m), ops[1..]);
        case Remove(id) =>
          DeleteKeepsAscending(s, id);
          DeleteRefinesMap(s, id);
          RunRefinesMap(Delete(s, id), ops[1..]);
      }
    }
  }
}
