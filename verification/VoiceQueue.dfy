/** The realtime transmit queue: 32 frames, speed frames refused when it is
    full, voice frames shedding the oldest frame to stay within a limit that
    follows the quality of the path. */
module VoiceQueue {
  import opened Words
  import opened Scan

  const DEPTH: nat := 32
  const MIN_LIMIT: nat := 4
  const CACHE: nat := 4
  const CACHE_TTL_MS: nat := 250

  /** What the mesh says about the path to a destination. */
  datatype Path = Path(tq: byte, hops: byte, ageMs: u32)

  /** How many frames may wait for a path, none known meaning the least. */
  function PathLimit(path: Option<Path>): nat {
    if path.None? then MIN_LIMIT
    else
      var p := path.value;
      var byQuality := if p.tq >= 208 then DEPTH else if p.tq >= 160 then 12 else if p.tq >= 112 then 8 else 4;
      var byHops := if p.hops >= 3 && byQuality > 4 then 4
                    else if p.hops == 2 && byQuality > 8 then 8
                    else byQuality;
      if p.ageMs > 4000 && byHops > 4 then 4 else byHops
  }

  /** More than the least room needs a fresh path of at most two hops and fair
      quality; more than 8 needs a direct path of good quality, the full depth an
      excellent one. */
  lemma LimitFollowsPath(path: Option<Path>)
    ensures MIN_LIMIT <= PathLimit(path) <= DEPTH
    ensures PathLimit(path) > 4 <==>
      path.Some? && path.value.tq >= 112 && path.value.hops <= 2 && path.value.ageMs <= 4000
    ensures PathLimit(path) > 8 <==>
      path.Some? && path.value.tq >= 160 && path.value.hops <= 1 && path.value.ageMs <= 4000
    ensures PathLimit(path) == 32 <==>
      path.Some? && path.value.tq >= 208 && path.value.hops <= 1 && path.value.ageMs <= 4000
    ensures PathLimit(path) == 12 <==>
      path.Some? && 160 <= path.value.tq < 208 && path.value.hops <= 1 && path.value.ageMs <= 4000
    ensures PathLimit(path) == 8 <==>
      path.Some? && path.value.ageMs <= 4000
      && ((112 <= path.value.tq < 160 && path.value.hops <= 2) || (path.value.tq >= 160 && path.value.hops == 2))
  {
  }

  /** A path that is no better in any respect never gets more room, and no path the least. */
  lemma LimitIsMonotone(worse: Path, better: Path)
    requires worse.tq <= better.tq && worse.hops >= better.hops && worse.ageMs >= better.ageMs
    ensures PathLimit(None) <= PathLimit(Some(worse)) <= PathLimit(Some(better))
  {
  }

  // ---- The cached limit --------------------------------------------------------------

  datatype Sample = Sample(valid: bool, target: u64, sampledAt: nat, limit: nat)

  /** The cache: its slots and the one to be replaced next. */
  datatype Samples = Samples(entries: seq<Sample>, replace: nat)

  predicate Fresh(s: Sample, target: u64, now: nat) {
    s.valid && s.target == target && Elapsed(now, s.sampledAt) < CACHE_TTL_MS
  }

  function FreshAt(entries: seq<Sample>, target: u64, now: nat): (i: nat)
    ensures i <= |entries|
    ensures i < |entries| ==> Fresh(entries[i], target, now)
    ensures forall j :: 0 <= j < i ==> !Fresh(entries[j], target, now)
  {
    FirstWhere(entries, (s: Sample) => Fresh(s, target, now))
  }

  function Recalled(entries: seq<Sample>, target: u64, now: nat): Option<nat> {
    var i := FreshAt(entries, target, now);
    if i < |entries| then Some(entries[i].limit) else None
  }

  function Kept(c: Samples, s: Sample): (r: Samples)
    requires c.replace < |c.entries| == CACHE
    ensures r.replace < |r.entries| == CACHE
  {
    Samples(c.entries[c.replace := s], (c.replace + 1) % CACHE)
  }

  class PathCache {
    const entries: array<Sample>
    var replace: nat

    ghost predicate Valid()
      reads this, entries
    {
      && entries.Length == CACHE && replace < CACHE
      && forall i :: 0 <= i < CACHE && entries[i].valid ==> MIN_LIMIT <= entries[i].limit <= DEPTH
    }

    ghost function Contents(): (c: Samples)
      requires entries.Length == CACHE && replace < CACHE
      reads this, entries
      ensures c.replace < |c.entries| == CACHE
    {
      Samples(entries[..], replace)
    }

    constructor ()
      ensures Valid() && fresh(entries) && replace == 0 && forall e :: e in entries[..] ==> !e.valid
    {
      entries := new Sample[CACHE](_ => Sample(false, 0, 0, MIN_LIMIT));
      replace := 0;
    }

    /** The first critical section: a fresh sample for the target, if there is one. */
    method Recall(target: u64, now: nat) returns (limit: Option<nat>)
      requires Valid()
      ensures limit == Recalled(entries[..], target, now)
      ensures limit.Some? ==> MIN_LIMIT <= limit.value <= DEPTH
    {
      for i := 0 to CACHE
        invariant forall j :: 0 <= j < i ==> !Fresh(entries[..][j], target, now)
      {
        if entries[i].valid && entries[i].target == target && Elapsed(now, entries[i].sampledAt) < CACHE_TTL_MS {
          assert Fresh(entries[..][i], target, now) && FreshAt(entries[..], target, now) == i;
          return Some(entries[i].limit);
        }
      }
      assert FreshAt(entries[..], target, now) == CACHE;
      return None;
    }

    /** The second: the new sample goes over the oldest one. */
    method Keep(target: u64, limit: nat, now: nat)
      requires Valid() && MIN_LIMIT <= limit <= DEPTH
      modifies this, entries
      ensures Valid() && Contents() == Kept(old(Contents()), Sample(true, target, now, limit))
    {
      entries[replace] := Sample(true, target, now, limit);
      replace := (replace + 1) % CACHE;
    }

    /** A call that nobody interrupts: a fresh sample is reused and nothing changes;
        otherwise the path is sampled and the sample kept. */
    method LimitFor(target: u64, path: Option<Path>, now: nat) returns (limit: nat)
      requires Valid()
      modifies this, entries
      ensures Valid() && MIN_LIMIT <= limit <= DEPTH
      ensures var known := Recalled(old(entries[..]), target, now);
        if known.Some? then limit == known.value && Contents() == old(Contents())
        else limit == PathLimit(path) && Contents() == Kept(old(Contents()), Sample(true, target, now, limit))
    {
      var known := Recall(target, now);
      if known.Some? {
        return known.value;
      }
      LimitFollowsPath(path);
      limit := PathLimit(path);
      Keep(target, limit, now);
    }
  }

  // ---- The cache over any interleaving of calls ------------------------------------------

  ghost predicate Blank(c: Samples) {
    |c.entries| == CACHE && c.replace == 0 && forall i :: 0 <= i < CACHE ==> !c.entries[i].valid
  }

  /** The cache after these samples were kept; nothing else changes it. */
  function AfterKeeping(c: Samples, samples: seq<Sample>): (r: Samples)
    requires c.replace < |c.entries| == CACHE
    ensures r.replace < |r.entries| == CACHE
  {
    if samples == [] then c
    else
      var n := |samples| - 1;
      Kept(AfterKeeping(c, samples[..n]), samples[n])
  }

  /** Which of `n` samples slot `i` holds; negative when it is still blank. */
  function SampleIn(n: nat, i: nat): (k: int)
    ensures n - CACHE <= k < n
  {
    n - 1 - (n - 1 - i) % CACHE
  }

  lemma NextSampleIn(n: nat, i: nat)
    requires i < CACHE
    ensures SampleIn(n + 1, i) == if i == n % CACHE then n else SampleIn(n, i)
  {
  }

  lemma SampleInOwnSlot(n: nat, k: nat)
    requires n - CACHE <= k < n
    ensures SampleIn(n, k % CACHE) == k
  {
    var r, q := k % CACHE, k / CACHE;
    assert n - 1 - r == CACHE * q + (n - 1 - k);
  }

  predicate IsSample(e: Sample, samples: seq<Sample>, k: int) {
    if 0 <= k < |samples| then e == samples[k] else !e.valid
  }

  /** The cache holds the last four samples, and blank slots as long as there are fewer. */
  lemma {:induction false} HoldsLastSamples(c: Samples, samples: seq<Sample>)
    requires Blank(c)
    ensures AfterKeeping(c, samples).replace == |samples| % CACHE
    ensures forall i :: 0 <= i < CACHE ==> IsSample(AfterKeeping(c, samples).entries[i], samples, SampleIn(|samples|, i))
    decreases |samples|
  {
    if samples == [] {
    } else {
      var n := |samples| - 1;
      var before, after := AfterKeeping(c, samples[..n]), AfterKeeping(c, samples);
      HoldsLastSamples(c, samples[..n]);
      forall i | 0 <= i < CACHE
        ensures IsSample(after.entries[i], samples, SampleIn(n + 1, i))
      {
        NextSampleIn(n, i);
        assert IsSample(before.entries[i], samples[..n], SampleIn(n, i));
      }
    }
  }

  /** One of the last four samples, for this target and looking less than 250 ms old. */
  ghost predicate RecentSample(samples: seq<Sample>, target: u64, now: nat, k: int) {
    && Max(0, |samples| - 4) <= k < |samples|
    && samples[k].valid && samples[k].target == target && Elapsed(now, samples[k].sampledAt) < 250
  }

  /** However calls interleave: a call reuses a limit exactly when one of the last four
      samples kept is for its target and looks fresh, and it is the limit of such a one. */
  lemma RecalledIff(c: Samples, samples: seq<Sample>, target: u64, now: nat)
    requires Blank(c)
    ensures var found := Recalled(AfterKeeping(c, samples).entries, target, now);
      && (found.Some? <==> exists k :: RecentSample(samples, target, now, k))
      && (found.Some? ==> exists k :: RecentSample(samples, target, now, k) && samples[k].limit == found.value)
  {
    var entries, n := AfterKeeping(c, samples).entries, |samples|;
    HoldsLastSamples(c, samples);
    var i := FreshAt(entries, target, now);
    if i < CACHE {
      assert IsSample(entries[i], samples, SampleIn(n, i));
      assert RecentSample(samples, target, now, SampleIn(n, i));
    }
    forall k | RecentSample(samples, target, now, k)
      ensures i < CACHE
    {
      SampleInOwnSlot(n, k);
      assert IsSample(entries[k % CACHE], samples, SampleIn(n, k % CACHE));
      assert Fresh(entries[k % CACHE], target, now);
    }
  }

  /** It looks fresh exactly when it is, unless the reading misreads its stamp. */
  lemma FreshIsRightIff(s: Sample, now: nat)
    requires s.valid
    ensures (Fresh(s, s.target, now) <==> now - s.sampledAt < 250) <==> !Misread(now, s.sampledAt, 249)
  {
    WindowIsRightIff(now, s.sampledAt, CACHE_TTL_MS - 1);
  }

  // ---- The queue ------------------------------------------------------------------------

  datatype Frame = Frame(payload: seq<byte>, sequence: u32)

  /** Speed-test frames start with "EZST". */
  predicate IsSpeed(f: Frame) {
    var p := f.payload;
    |p| >= 4 && p[0] == 0x45 && p[1] == 0x5A && p[2] == 0x53 && p[3] == 0x54
  }

  lemma SpeedFramesBegin(f: Frame)
    ensures IsSpeed(f) <==> [0x45, 0x5A, 0x53, 0x54] <= f.payload
  {
  }

  class RealtimeQueue {
    var frames: seq<Frame>
    var drops: nat

    ghost predicate Valid()
      reads this
    {
      |frames| <= DEPTH
    }

    constructor ()
      ensures Valid() && frames == [] && drops == 0
    {
      frames, drops := [], 0;
    }

    method Send(f: Frame) returns (ok: bool)
      modifies this`frames
      ensures ok == (|old(frames)| < DEPTH)
      ensures frames == old(frames) + if ok then [f] else []
    {
      ok := |frames| < DEPTH;
      if ok {
        frames := frames + [f];
      }
    }

    method Receive() returns (f: Option<Frame>)
      modifies this`frames
      ensures f.None? <==> old(frames) == []
      ensures frames == if f.None? then [] else old(frames)[1..]
      ensures f.Some? ==> f.value == old(frames)[0]
    {
      f := None;
      if frames != [] {
        f := Some(frames[0]);
        frames := frames[1..];
      }
    }

    /** Enqueue with no other producer at work. A voice frame always ends up at
        the tail, at the cost of at most the head; a speed frame costs nobody
        else anything. */
    method Enqueue(f: Frame, limit: nat) returns (ok: bool)
      requires Valid()
      modifies this
      ensures Valid()
      ensures !IsSpeed(f) ==> ok && |frames| <= Max(|old(frames)|, Max(Min(limit, DEPTH), 1))
      ensures !IsSpeed(f) ==>
        if |old(frames)| < Min(limit, DEPTH) || old(frames) == [] then frames == old(frames) + [f] && drops == old(drops)
        else frames == old(frames)[1..] + [f] && drops == old(drops) + 1
      ensures IsSpeed(f) ==> ok == (|old(frames)| < DEPTH)
      ensures IsSpeed(f) ==>
        if ok then frames == old(frames) + [f] && drops == old(drops)
        else frames == old(frames) && drops == old(drops) + 1
    {
      if IsSpeed(f) {
        ok := Send(f);
        if !ok {
          drops := drops + 1;
        }
        return;
      }
      var dropped: Option<Frame> := None;
      if |frames| >= limit {
        dropped := Receive();
      }
      ok := Send(f);
      if !ok && dropped.None? {
        dropped := Receive();
        if dropped.Some? {
          ok := Send(f);
        }
      }
      if dropped.Some? {
        drops := drops + 1;
      }
    }
  }
}
