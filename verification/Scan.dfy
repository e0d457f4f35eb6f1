/** Index scans shared by the fixed-size tables. */
module Scan {
  import opened Words

  /** First index whose element satisfies `p`, or the length when none does. */
  function FirstWhere<T>(s: seq<T>, p: T -> bool): (i: nat)
    ensures i <= |s|
    ensures i < |s| ==> p(s[i])
    ensures forall j :: 0 <= j < i ==> !p(s[j])
  {
    if s == [] || p(s[0]) then 0 else 1 + FirstWhere(s[1..], p)
  }

  /** First index of the smallest key. */
  function FirstMin(keys: seq<int>): (i: nat)
    requires keys != []
    ensures i < |keys|
    ensures forall j :: 0 <= j < |keys| ==> keys[i] <= keys[j]
    ensures forall j :: 0 <= j < i ==> keys[i] < keys[j]
  {
    var n := |keys| - 1;
    if n == 0 then 0
    else
      var m := FirstMin(keys[..n]);
      if keys[n] < keys[m] then n else m
  }

  /** What a running minimum that starts at slot 0 with the largest key knows
      after looking at `n` keys. */
  ghost predicate MinSoFar(keys: seq<int>, n: nat, slot: nat, least: int, largest: int) {
    && n <= |keys|
    && (forall j :: 0 <= j < n ==> least <= keys[j])
    && (slot < n ==> least == keys[slot] && forall j :: 0 <= j < slot ==> least < keys[j])
    && (slot >= n ==> slot == 0 && least == largest)
    && (slot == 0 || slot < n)
  }

  ghost predicate Distinct<T>(s: seq<T>) {
    forall i, j :: 0 <= i < j < |s| ==> s[i] != s[j]
  }

  ghost function Elements<T>(s: seq<T>): set<T> {
    set x | x in s
  }

  /** A sequence without repeats has as many elements as positions. */
  lemma {:induction false} DistinctCount<T>(s: seq<T>)
    requires Distinct(s)
    ensures |Elements(s)| == |s|
  {
    if s == [] {
    } else {
      var n := |s| - 1;
      DistinctCount(s[..n]);
      assert s[n] !in Elements(s[..n]);
      assert Elements(s) == Elements(s[..n]) + {s[n]};
    }
  }

  /** Any sequence covers at most as many elements as it has positions. */
  lemma {:induction false} CountAtMostLength<T>(s: seq<T>)
    ensures |Elements(s)| <= |s|
  {
    if s == [] {
    } else {
      var n := |s| - 1;
      CountAtMostLength(s[..n]);
      assert Elements(s) == Elements(s[..n]) + {s[n]};
    }
  }

  lemma {:induction false} SubsetCount<T>(a: set<T>, b: set<T>)
    requires a <= b
    ensures |a| <= |b|
  {
    if a == {} {
    } else {
      var x :| x in a;
      SubsetCount(a - {x}, b - {x});
    }
  }

  function TicksOf(times: seq<nat>): (r: seq<int>)
    ensures |r| == |times|
    ensures forall i :: 0 <= i < |times| ==> r[i] == Ticks(times[i])
  {
    seq(|times|, i requires 0 <= i < |times| => Ticks(times[i]))
  }

  ghost predicate OneEpoch(times: seq<nat>) {
    forall i, j :: 0 <= i < |times| && 0 <= j < |times| ==> times[i] / WORD32 == times[j] / WORD32
  }

  ghost predicate Least(times: seq<nat>, k: nat)
    requires k < |times|
  {
    forall j :: 0 <= j < |times| ==> times[k] <= times[j]
  }

  /** The smallest 32-bit stamp belongs to the earliest time if and only if no wrap of
      the clock lies between the times. */
  lemma SmallestStampIsEarliestIff(times: seq<nat>, now: nat)
    requires times != [] && forall i :: 0 <= i < |times| ==> times[i] <= now < times[i] + WORD32
    ensures Least(times, FirstMin(TicksOf(times))) <==> OneEpoch(times)
  {
    var k := FirstMin(TicksOf(times));
    if OneEpoch(times) {
      forall j | 0 <= j < |times|
        ensures times[k] <= times[j]
      {
        assert TicksOf(times)[k] <= TicksOf(times)[j];
        TicksKeepOrder(times[k], times[j]);
      }
    } else {
      var i, j :| 0 <= i < |times| && 0 <= j < |times| && times[i] / WORD32 < times[j] / WORD32;
      LaterEpochLooksOlder(times[i], times[j], now);
      assert TicksOf(times)[k] <= TicksOf(times)[j];
      if times[k] <= times[i] {
        LaterEpochLooksOlder(times[k], times[j], now);
      }
    }
  }

  /** Of two stamps less than a wrap apart, the one after the wrap has the smaller
      reading. */
  lemma LaterEpochLooksOlder(a: nat, b: nat, now: nat)
    requires a <= now < a + WORD32 && b <= now < b + WORD32 && a / WORD32 < b / WORD32
    ensures Ticks(b) < Ticks(a) && a < b
  {
    assert a == a / WORD32 * WORD32 + Ticks(a) && b == b / WORD32 * WORD32 + Ticks(b);
  }
}
