/** What the seen filter remembers, stated over everything that ever arrived. */
module SeenHistory {
  import opened Words
  import opened Scan
  import opened SeenFilter

  datatype Arrival = Arrival(key: Key, hop: Hop)

  /** A held key together with every hop that arrived since it was inserted. */
  datatype Trail = Trail(key: Key, hops: seq<Hop>)

  function Fold(hops: seq<Hop>): Hop {
    if hops == [] then 0 else Better(Fold(hops[..|hops| - 1]), hops[|hops| - 1])
  }

  function TrailAt(ts: seq<Trail>, key: Key): (i: nat)
    ensures i <= |ts|
    ensures i < |ts| ==> ts[i].key == key
    ensures forall j :: 0 <= j < i ==> ts[j].key != key
  {
    FirstWhere(ts, (t: Trail) => t.key == key)
  }

  function ArriveTrail(ts: seq<Trail>, a: Arrival): seq<Trail> {
    if Untracked(a.key) then ts
    else
      var i := TrailAt(ts, a.key);
      if i < |ts| then ts[i := Trail(a.key, ts[i].hops + [a.hop])]
      else (if |ts| < SLOTS then ts else ts[1..]) + [Trail(a.key, [a.hop])]
  }

  function Trails(ts: seq<Trail>, run: seq<Arrival>): seq<Trail>
    decreases run
  {
    if run == [] then ts else Trails(ArriveTrail(ts, run[0]), run[1..])
  }

  function AfterAll(f: seq<Held>, run: seq<Arrival>): seq<Held>
    decreases run
  {
    if run == [] then f else AfterAll(Arrive(f, run[0].key, run[0].hop).0, run[1..])
  }

  function Summaries(ts: seq<Trail>): (r: seq<Held>)
    ensures |r| == |ts|
    ensures forall i :: 0 <= i < |ts| ==> r[i] == Held(ts[i].key, Fold(ts[i].hops))
  {
    seq(|ts|, i requires 0 <= i < |ts| => Held(ts[i].key, Fold(ts[i].hops)))
  }

  /** One arrival: the filter keeps exactly the fold of every trail, and drops
      exactly when a smaller non-zero best is already known. */
  lemma ArriveFollowsTrail(ts: seq<Trail>, a: Arrival)
    ensures Arrive(Summaries(ts), a.key, a.hop).0 == Summaries(ArriveTrail(ts, a))
    ensures !Untracked(a.key) ==>
      var i := TrailAt(ts, a.key);
      Arrive(Summaries(ts), a.key, a.hop).1 <==> i < |ts| && 0 < Fold(ts[i].hops) < a.hop
  {
    if !Untracked(a.key) {
      var i := TrailAt(ts, a.key);
      assert HeldAt(Summaries(ts), a.key) == i;
      if i < |ts| {
        var hops := ts[i].hops + [a.hop];
        assert hops[..|hops| - 1] == ts[i].hops;
      } else {
        assert Fold([a.hop]) == a.hop by {
          assert [a.hop][..0] == [];
        }
      }
    }
  }

  /** Over any run the table holds the fold of every arrival since insertion. */
  lemma {:induction false} BestIsFoldSinceInsertion(ts: seq<Trail>, run: seq<Arrival>)
    ensures AfterAll(Summaries(ts), run) == Summaries(Trails(ts, run))
    decreases run
  {
    if run == [] {
    } else {
      ArriveFollowsTrail(ts, run[0]);
      BestIsFoldSinceInsertion(ArriveTrail(ts, run[0]), run[1..]);
    }
  }

  /** The fold is the smallest hop since the last hop-0 arrival, or 0 when none
      has come since. */
  lemma {:induction false} FoldIsMinimumSinceZero(hops: seq<Hop>, z: nat)
    requires z <= |hops|
    requires z > 0 ==> hops[z - 1] == 0
    requires forall i :: z <= i < |hops| ==> hops[i] != 0
    ensures z == |hops| ==> Fold(hops) == 0
    ensures z < |hops| ==> Fold(hops) in hops[z..] && AllAtLeast(hops, z, Fold(hops))
  {
    if hops == [] {
    } else {
      var n := |hops| - 1;
      var before := Fold(hops[..n]);
      if z <= n {
        FoldIsMinimumSinceZero(hops[..n], z);
        assert hops[z..][n - z] == hops[n];
        if z < n {
          var i :| 0 <= i < n - z && hops[..n][z..][i] == before;
          assert hops[z..][i] == before;
          assert AllAtLeast(hops[..n], z, before);
          LeastOfBoth(hops, z, before);
        }
      }
    }
  }

  ghost predicate AllAtLeast(hops: seq<Hop>, z: nat, least: Hop) {
    forall i :: z <= i < |hops| ==> least <= hops[i]
  }

  lemma LeastOfBoth(hops: seq<Hop>, z: nat, before: Hop)
    requires z < |hops| && AllAtLeast(hops[..|hops| - 1], z, before) && before != 0 && hops[|hops| - 1] != 0
    ensures AllAtLeast(hops, z, Better(before, hops[|hops| - 1]))
  {
    forall i | z <= i < |hops|
      ensures Better(before, hops[|hops| - 1]) <= hops[i]
    {
      assert i < |hops| - 1 ==> before <= hops[..|hops| - 1][i];
    }
  }

  // ---- FIFO order ---------------------------------------------------------------

  /** The key an arrival inserts, if any. */
  function NewKey(f: seq<Held>, a: Arrival): seq<Key> {
    if Untracked(a.key) || HeldAt(f, a.key) < |f| then [] else [a.key]
  }

  /** Keys in the order the run inserts them. */
  function Inserted(f: seq<Held>, run: seq<Arrival>): seq<Key>
    decreases run
  {
    if run == [] then []
    else
      NewKey(f, run[0]) + Inserted(Arrive(f, run[0].key, run[0].hop).0, run[1..])
  }

  function KeysOf(f: seq<Held>): (r: seq<Key>)
    ensures |r| == |f|
    ensures forall i :: 0 <= i < |f| ==> r[i] == f[i].key
  {
    seq(|f|, i requires 0 <= i < |f| => f[i].key)
  }

  function LastOf(keys: seq<Key>): seq<Key> {
    if |keys| <= 32 then keys else keys[|keys| - 32..]
  }

  lemma PushKeepsLast(f: seq<Held>, past: seq<Key>, h: Held)
    requires KeysOf(f) == LastOf(past)
    ensures KeysOf(Push(f, h)) == LastOf(past + [h.key])
  {
    var kept := if |f| < SLOTS then f else f[1..];
    assert KeysOf(Push(f, h)) == KeysOf(kept) + [h.key];
    assert KeysOf(kept) == if |f| < SLOTS then past else past[|past| - SLOTS + 1..];
  }

  lemma ArriveKeepsLast(f: seq<Held>, past: seq<Key>, a: Arrival)
    requires KeysOf(f) == LastOf(past)
    ensures KeysOf(Arrive(f, a.key, a.hop).0) == LastOf(past + NewKey(f, a))
  {
    if NewKey(f, a) == [] {
      assert past + [] == past;
      assert KeysOf(Arrive(f, a.key, a.hop).0) == KeysOf(f);
    } else {
      PushKeepsLast(f, past, Held(a.key, a.hop));
    }
  }

  lemma ConcatAssociates<T>(a: seq<T>, b: seq<T>, c: seq<T>)
    ensures a + (b + c) == (a + b) + c
  {
  }

  /** The table holds exactly the last 32 keys ever inserted, oldest first. */
  lemma {:induction false} HoldsLastInserted(f: seq<Held>, past: seq<Key>, run: seq<Arrival>)
    requires KeysOf(f) == LastOf(past)
    ensures KeysOf(AfterAll(f, run)) == LastOf(past + Inserted(f, run))
    decreases run
  {
    if run == [] {
      assert past + [] == past;
    } else {
      var f', added := Arrive(f, run[0].key, run[0].hop).0, NewKey(f, run[0]);
      ArriveKeepsLast(f, past, run[0]);
      HoldsLastInserted(f', past + added, run[1..]);
      ConcatAssociates(past, added, Inserted(f', run[1..]));
    }
  }

  /** Held keys stay pairwise distinct. */
  lemma {:induction false} KeysStayDistinct(f: seq<Held>, run: seq<Arrival>)
    requires Distinct(KeysOf(f))
    ensures Distinct(KeysOf(AfterAll(f, run)))
    decreases run
  {
    if run == [] {
    } else {
      var a := run[0];
      var f' := Arrive(f, a.key, a.hop).0;
      forall i, j | 0 <= i < j < |f'|
        ensures KeysOf(f')[i] != KeysOf(f')[j]
      {
        if HeldAt(f, a.key) < |f| || Untracked(a.key) {
          assert KeysOf(f)[i] != KeysOf(f)[j];
        } else {
          var s := |f| + 1 - |f'|;
          assert j + s < |f| ==> KeysOf(f)[i + s] != KeysOf(f)[j + s];
        }
      }
      KeysStayDistinct(f', run[1..]);
    }
  }

  // ---- One arrival among others ----------------------------------------------------

  predicate Holds(f: seq<Held>, key: Key) {
    HeldAt(f, key) < |f|
  }

  function Best(f: seq<Held>, key: Key): Hop {
    if Holds(f, key) then f[HeldAt(f, key)].best else 0
  }

  ghost predicate Unique(f: seq<Held>) {
    forall i, j :: 0 <= i < j < |f| ==> f[i].key != f[j].key
  }

  lemma BestIsFound(f: seq<Held>, i: nat)
    requires Unique(f) && i < |f|
    ensures Holds(f, f[i].key) && HeldAt(f, f[i].key) == i && Best(f, f[i].key) == f[i].best
  {
  }

  /** Updating a held key. */
  lemma HitBest(f: seq<Held>, key: Key, hop: Hop, other: Key)
    requires Unique(f) && !Untracked(key) && Holds(f, key)
    ensures var f' := Arrive(f, key, hop).0;
      && Unique(f') && Holds(f', key) && Best(f', key) == Better(Best(f, key), hop)
      && (other != key && Holds(f', other) ==> Holds(f, other) && Best(f', other) == Best(f, other))
  {
    var f', i := Arrive(f, key, hop).0, HeldAt(f, key);
    BestIsFound(f', i);
    if other != key && Holds(f', other) {
      BestIsFound(f, HeldAt(f', other));
    }
  }

  /** Inserting a new key, perhaps over the oldest one. */
  lemma MissBest(f: seq<Held>, key: Key, hop: Hop, other: Key)
    requires Unique(f) && !Untracked(key) && !Holds(f, key)
    ensures var f' := Arrive(f, key, hop).0;
      && Unique(f') && Holds(f', key) && Best(f', key) == hop
      && (other != key && Holds(f', other) ==> Holds(f, other) && Best(f', other) == Best(f, other))
  {
    var f' := Arrive(f, key, hop).0;
    var s := |f| + 1 - |f'|;
    assert forall k :: 0 <= k < |f'| - 1 ==> f'[k] == f[k + s];
    BestIsFound(f', |f'| - 1);
    if other != key && Holds(f', other) {
      BestIsFound(f, HeldAt(f', other) + s);
    }
  }

  /** Any id but 0-0 is tracked: after its arrival the key is held with its hop folded in,
      and the copy is dropped exactly when a smaller hop other than 0 was known. */
  lemma TrackedArrival(f: seq<Held>, key: Key, hop: Hop)
    requires Unique(f) && (key.high != 0 || key.low != 0)
    ensures var (f', drop) := Arrive(f, key, hop);
      && Holds(f', key)
      && Best(f', key) == (if Holds(f, key) && 0 < Best(f, key) <= hop then Best(f, key) else hop)
      && (drop <==> Holds(f, key) && 0 < Best(f, key) < hop)
  {
    if Holds(f, key) {
      HitBest(f, key, hop, key);
    } else {
      MissBest(f, key, hop, key);
    }
  }

  /** Id 0-0 is never held and never dropped, whatever its sequence. */
  lemma {:induction false} ZeroIdIsNeverHeld(f: seq<Held>, run: seq<Arrival>, key: Key, hop: Hop)
    requires key.high == 0 && key.low == 0 && !Holds(f, key)
    ensures !Holds(AfterAll(f, run), key)
    ensures Arrive(AfterAll(f, run), key, hop) == (AfterAll(f, run), false)
    decreases run
  {
    if run == [] {
    } else {
      var a := run[0];
      var f' := Arrive(f, a.key, a.hop).0;
      forall i | 0 <= i < |f'|
        ensures f'[i].key != key
      {
        assert f'[i].key == a.key || f'[i].key in KeysOf(f);
      }
      ZeroIdIsNeverHeld(f', run[1..], key, hop);
    }
  }

  // ---- Between two hop-0 arrivals ------------------------------------------------

  /** The hops that get through, starting from best hop `best`. */
  function Passed(best: Hop, hops: seq<Hop>): seq<Hop>
    decreases hops
  {
    if hops == [] then []
    else (if Drops(best, hops[0]) then [] else [hops[0]]) + Passed(Better(best, hops[0]), hops[1..])
  }

  /** As long as no hop-0 copy arrives, the hops of the copies a node lets
      through never increase. */
  lemma {:induction false} PassedHopsNeverIncrease(best: Hop, hops: seq<Hop>)
    requires forall i :: 0 <= i < |hops| ==> hops[i] != 0
    ensures forall i :: 0 <= i < |Passed(best, hops)| && best != 0 ==> Passed(best, hops)[i] <= best
    ensures forall i, j :: 0 <= i < j < |Passed(best, hops)| ==> Passed(best, hops)[i] >= Passed(best, hops)[j]
    decreases hops
  {
    if hops == [] {
    } else {
      PassedHopsNeverIncrease(Better(best, hops[0]), hops[1..]);
    }
  }

  /** A hop-0 copy always gets through, and after it so does any copy. */
  lemma ZeroReopensFilter(best: Hop, hop: Hop)
    ensures Passed(best, [0, hop]) == [0, hop]
  {
    assert [0, hop][1..] == [hop];
    assert Passed(0, [hop]) == [hop];
  }

  /** The hops of the copies of `key` that a filter lets through in a run of arrivals of
      any keys. */
  function PassedBy(f: seq<Held>, run: seq<Arrival>, key: Key): seq<Hop>
    decreases run
  {
    if run == [] then []
    else
      var (f', drop) := Arrive(f, run[0].key, run[0].hop);
      (if run[0].key == key && !drop then [run[0].hop] else []) + PassedBy(f', run[1..], key)
  }

  /** The key is in the table all along, and no hop-0 copy of it arrives. */
  ghost predicate HeldWithoutZero(f: seq<Held>, run: seq<Arrival>, key: Key)
    decreases run
  {
    Holds(f, key)
    && (run != [] ==>
          (run[0].key == key ==> run[0].hop != 0)
          && HeldWithoutZero(Arrive(f, run[0].key, run[0].hop).0, run[1..], key))
  }

  predicate NeverIncreases(hops: seq<Hop>) {
    forall i, j :: 0 <= i < j < |hops| ==> hops[i] >= hops[j]
  }

  predicate AllAtMost(hops: seq<Hop>, best: Hop) {
    forall i :: 0 <= i < |hops| ==> hops[i] <= best
  }

  /** What an arrival does to the best hop of a held key. */
  lemma ArrivalOf(f: seq<Held>, a: Arrival, key: Key)
    requires Unique(f) && !Untracked(key) && Holds(f, key)
    ensures var (f', drop) := Arrive(f, a.key, a.hop);
      && Unique(f')
      && (Holds(f', key) ==> Best(f', key) == if a.key == key then Better(Best(f, key), a.hop) else Best(f, key))
      && (a.key == key ==> (drop <==> 0 < Best(f, key) < a.hop))
  {
    if !Untracked(a.key) {
      if Holds(f, a.key) {
        HitBest(f, a.key, a.hop, key);
      } else {
        MissBest(f, a.key, a.hop, key);
      }
    }
  }

  /** Whatever else arrives: as long as a key stays held and no hop-0 copy of it comes,
      the hops of its copies that get through never increase. */
  lemma {:induction false} UndroppedHopsNeverIncrease(f: seq<Held>, run: seq<Arrival>, key: Key)
    requires Unique(f) && !Untracked(key) && HeldWithoutZero(f, run, key)
    ensures NeverIncreases(PassedBy(f, run, key))
    ensures Best(f, key) != 0 ==> AllAtMost(PassedBy(f, run, key), Best(f, key))
    decreases run
  {
    if run == [] {
    } else {
      ArrivalOf(f, run[0], key);
      UndroppedHopsNeverIncrease(Arrive(f, run[0].key, run[0].hop).0, run[1..], key);
    }
  }
}
