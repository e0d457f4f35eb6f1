/** A mesh of any number of relays, each behind its own seen filter. The radio
    may lose, duplicate, delay and reorder copies, and may carry a relayed copy
    to any node; it carries the hop byte unchanged. */
module Mesh {
  import opened Words
  import opened Scan
  import opened SeenFilter
  import opened SeenHistory

  type Node = nat

  /** A node a copy has been passed on by, with the hop it arrived with. The
      epoch counts, for this node and key, the arrivals after which the filter
      has no best hop to compare with: hop-0 arrivals and insertions, and every
      arrival of a message that the filter does not track. */
  datatype Visit = Visit(node: Node, hop: Hop, epoch: nat)

  /** A copy on its way to `dest`; `path` is the chain of relays behind it. */
  datatype Copy = Copy(key: Key, dest: Node, hop: nat, path: seq<Visit>)

  datatype World = World(tables: map<Node, seq<Held>>, epochs: map<(Node, Key), nat>, air: set<Copy>)

  datatype Event =
    | Originate(copy: Copy)
    | Deliver(copy: Copy, dests: set<Node>)
    | OtherArrival(node: Node, key: Key, hop: Hop)

  function Table(w: World, n: Node): seq<Held> {
    if n in w.tables then w.tables[n] else []
  }

  function Epoch(w: World, n: Node, key: Key): nat {
    if (n, key) in w.epochs then w.epochs[(n, key)] else 0
  }

  /** A delivered copy is still in the air: it may be delivered again. A copy
      whose hop count no longer fits the header byte is never delivered. */
  predicate Enabled(w: World, ev: Event) {
    match ev
    case Originate(c) => c.path == []
    case Deliver(c, _) => c in w.air && c.hop < 256
    case OtherArrival(_, _, _) => true
  }

  /** A call of the filter at one node. */
  function Filter(w: World, n: Node, key: Key, hop: Hop): (World, bool) {
    var f := Table(w, n);
    var (f', drop) := Arrive(f, key, hop);
    var reset := hop == 0 || !Holds(f, key);
    (w.(tables := w.tables[n := f'],
        epochs := w.epochs[(n, key) := Epoch(w, n, key) + if reset then 1 else 0]),
     drop)
  }

  function Forwarded(c: Copy, epoch: nat, d: Node): Copy
    requires c.hop < 256
  {
    Copy(c.key, d, c.hop + 1, c.path + [Visit(c.dest, c.hop, epoch)])
  }

  function Apply(w: World, ev: Event): World
    requires Enabled(w, ev)
  {
    match ev
    case Originate(c) => w.(air := w.air + {c})
    case Deliver(c, dests) =>
      var (w', drop) := Filter(w, c.dest, c.key, c.hop);
      if drop then w'
      else w'.(air := w'.air + set d | d in dests :: Forwarded(c, Epoch(w', c.dest, c.key), d))
    case OtherArrival(n, key, hop) => Filter(w, n, key, hop).0
  }

  // ---- The invariant ---------------------------------------------------------------

  /** While the epoch of a visit lasts and the key is held, the node's best hop is
      at most the hop the visit arrived with. */
  ghost predicate Remembered(w: World, key: Key, v: Visit) {
    var f := Table(w, v.node);
    && v.epoch <= Epoch(w, v.node, key)
    && (v.epoch == Epoch(w, v.node, key) && v.hop > 0 && Holds(f, key) ==> 0 < Best(f, key) <= v.hop)
  }

  ghost predicate NoReturn(path: seq<Visit>) {
    forall i, j :: 0 <= i < j < |path| && path[i].node == path[j].node && path[i].hop > 0 ==>
      path[i].epoch < path[j].epoch
  }

  ghost predicate HopsCount(c: Copy) {
    && (forall i :: 0 <= i < |c.path| ==> c.path[i].hop == c.path[0].hop + i)
    && (c.path != [] ==> c.hop == c.path[0].hop + |c.path|)
  }

  ghost predicate CopyOk(w: World, c: Copy) {
    && HopsCount(c) && NoReturn(c.path)
    && (forall i :: 0 <= i < |c.path| ==> Remembered(w, c.key, c.path[i]))
  }

  /** No key is held twice, and none that the filter does not track. */
  ghost predicate Tidy(f: seq<Held>) {
    Unique(f) && forall i :: 0 <= i < |f| ==> !Untracked(f[i].key)
  }

  ghost predicate Inv(w: World) {
    && (forall c :: c in w.air ==> CopyOk(w, c))
    && (forall n :: n in w.tables ==> Tidy(w.tables[n]))
  }

  /** What one arrival does to a table, for its own key and any other. */
  lemma ArrivalIs(f: seq<Held>, key: Key, hop: Hop, other: Key)
    requires Tidy(f)
    ensures var (f', drop) := Arrive(f, key, hop);
      && Tidy(f')
      && (other != key && Holds(f', other) ==> Holds(f, other) && Best(f', other) == Best(f, other))
      && (Untracked(key) ==> !drop && !Holds(f', key))
      && (!Untracked(key) ==>
            Holds(f', key) && Best(f', key) == if Holds(f, key) then Better(Best(f, key), hop) else hop)
  {
    if !Untracked(key) {
      if Holds(f, key) {
        HitBest(f, key, hop, other);
      } else {
        MissBest(f, key, hop, other);
      }
    }
  }

  /** A filter call keeps what every earlier visit relies on, for every key. */
  lemma FilterKeepsRemembered(w: World, n: Node, key: Key, hop: Hop, other: Key, v: Visit)
    requires Tidy(Table(w, n)) && Remembered(w, other, v)
    ensures Remembered(Filter(w, n, key, hop).0, other, v)
  {
    ArrivalIs(Table(w, n), key, hop, other);
  }

  lemma FilterKeepsInv(w: World, n: Node, key: Key, hop: Hop)
    requires Inv(w)
    ensures Inv(Filter(w, n, key, hop).0)
  {
    var w' := Filter(w, n, key, hop).0;
    ArrivalIs(Table(w, n), key, hop, key);
    forall c | c in w'.air
      ensures CopyOk(w', c)
    {
      forall i | 0 <= i < |c.path|
        ensures Remembered(w', c.key, c.path[i])
      {
        FilterKeepsRemembered(w, n, key, hop, c.key, c.path[i]);
      }
    }
  }

  /** A copy that gets through a filter leaves the node remembering a best hop no
      larger than its own, and it was not there before in this epoch. */
  lemma PassedCopyIsNew(w: World, c: Copy)
    requires Inv(w) && CopyOk(w, c) && c.hop < 256 && !Filter(w, c.dest, c.key, c.hop).1
    ensures var w' := Filter(w, c.dest, c.key, c.hop).0;
      var v := Visit(c.dest, c.hop, Epoch(w', c.dest, c.key));
      && Remembered(w', c.key, v)
      && forall i :: 0 <= i < |c.path| && c.path[i].node == c.dest && c.path[i].hop > 0 ==> c.path[i].epoch < v.epoch
  {
    ArrivalIs(Table(w, c.dest), c.key, c.hop, c.key);
    forall i | 0 <= i < |c.path| && c.path[i].node == c.dest && c.path[i].hop > 0
      ensures c.path[i].epoch < Epoch(Filter(w, c.dest, c.key, c.hop).0, c.dest, c.key)
    {
      assert Remembered(w, c.key, c.path[i]);
      assert c.path[i].hop < c.hop;
    }
  }

  lemma AirIsIrrelevant(w: World, air: set<Copy>, c: Copy)
    requires CopyOk(w, c)
    ensures CopyOk(w.(air := air), c)
  {
    assert forall i :: 0 <= i < |c.path| ==> Remembered(w, c.key, c.path[i]) ==> Remembered(w.(air := air), c.key, c.path[i]);
  }

  /** One more visit on the path of a copy. */
  lemma PathGrows(w: World, c: Copy, v: Visit, d: Node)
    requires CopyOk(w, c) && Remembered(w, c.key, v) && v.hop == c.hop
    requires forall i :: 0 <= i < |c.path| && c.path[i].node == v.node && c.path[i].hop > 0 ==> c.path[i].epoch < v.epoch
    ensures CopyOk(w, Copy(c.key, d, c.hop + 1, c.path + [v]))
  {
  }

  lemma ForwardedIsOk(w: World, c: Copy, d: Node)
    requires Inv(w) && c in w.air && c.hop < 256 && !Filter(w, c.dest, c.key, c.hop).1
    ensures var w' := Filter(w, c.dest, c.key, c.hop).0;
      CopyOk(w', Forwarded(c, Epoch(w', c.dest, c.key), d))
  {
    var w' := Filter(w, c.dest, c.key, c.hop).0;
    FilterKeepsInv(w, c.dest, c.key, c.hop);
    PassedCopyIsNew(w, c);
    assert CopyOk(w', c);
    PathGrows(w', c, Visit(c.dest, c.hop, Epoch(w', c.dest, c.key)), d);
  }

  lemma DeliverKeepsInv(w: World, c: Copy, dests: set<Node>)
    requires Inv(w) && Enabled(w, Deliver(c, dests))
    ensures Inv(Apply(w, Deliver(c, dests)))
  {
    var (w', drop) := Filter(w, c.dest, c.key, c.hop);
    var after := Apply(w, Deliver(c, dests));
    FilterKeepsInv(w, c.dest, c.key, c.hop);
    if !drop {
      forall d | d in after.air
        ensures CopyOk(after, d)
      {
        if d !in w'.air {
          ForwardedIsOk(w, c, d.dest);
        }
        AirIsIrrelevant(w', after.air, d);
      }
    }
  }

  lemma StepKeepsInv(w: World, ev: Event)
    requires Inv(w) && Enabled(w, ev)
    ensures Inv(Apply(w, ev))
  {
    match ev
    case Originate(c) =>
      forall d | d in Apply(w, ev).air
        ensures CopyOk(Apply(w, ev), d)
      {
        AirIsIrrelevant(w, Apply(w, ev).air, d);
      }
    case OtherArrival(n, key, hop) => FilterKeepsInv(w, n, key, hop);
    case Deliver(c, dests) => DeliverKeepsInv(w, c, dests);
  }

  // ---- Whole runs ------------------------------------------------------------------

  ghost predicate Possible(w: World, run: seq<Event>)
    decreases run
  {
    run != [] ==> Enabled(w, run[0]) && Possible(Apply(w, run[0]), run[1..])
  }

  ghost function After(w: World, run: seq<Event>): World
    requires Possible(w, run)
    decreases run
  {
    if run == [] then w else After(Apply(w, run[0]), run[1..])
  }

  lemma {:induction false} RunKeepsInv(w: World, run: seq<Event>)
    requires Inv(w) && Possible(w, run)
    ensures Inv(After(w, run))
    decreases run
  {
    if run == [] {
    } else {
      StepKeepsInv(w, run[0]);
      RunKeepsInv(Apply(w, run[0]), run[1..]);
    }
  }

  const SILENCE := World(map[], map[], {})

  /** In every run, no forwarding chain passes a node twice with a hop of at
      least 1 unless a hop-0 copy arrived there, or the filter forgot the
      message, in between. */
  lemma NoForwardingLoop(run: seq<Event>, c: Copy, i: nat, j: nat)
    requires Possible(SILENCE, run) && c in After(SILENCE, run).air
    requires i < j < |c.path| && c.path[i].node == c.path[j].node && c.path[i].hop >= 1
    ensures c.path[i].epoch < c.path[j].epoch
  {
    RunKeepsInv(SILENCE, run);
  }

  function NodesOf(path: seq<Visit>): (r: seq<Node>)
    ensures |r| == |path|
    ensures forall i :: 0 <= i < |path| ==> r[i] == path[i].node
  {
    seq(|path|, i requires 0 <= i < |path| => path[i].node)
  }

  /** A chain along which no node's epoch moves is at most one longer than the
      number of nodes in the mesh. */
  lemma ChainIsShort(run: seq<Event>, c: Copy, mesh: set<Node>)
    requires Possible(SILENCE, run) && c in After(SILENCE, run).air
    requires forall i :: 0 <= i < |c.path| ==> c.path[i].node in mesh
    requires forall i, j :: 0 <= i < j < |c.path| && c.path[i].node == c.path[j].node ==>
               c.path[i].epoch == c.path[j].epoch
    ensures |c.path| <= |mesh| + 1
  {
    RunKeepsInv(SILENCE, run);
    if c.path != [] {
      var later := NodesOf(c.path[1..]);
      forall i, j | 0 <= i < j < |later|
        ensures later[i] != later[j]
      {
        assert c.path[i + 1].hop == c.path[0].hop + (i + 1);
        assert later[i] == c.path[i + 1].node && later[j] == c.path[j + 1].node;
      }
      DistinctCount(later);
      assert Elements(later) <= mesh;
      SubsetCount(Elements(later), mesh);
    }
  }

  /** A copy stays on the air: it may be delivered any number of times. */
  lemma CopiesStay(w: World, ev: Event, c: Copy)
    requires Enabled(w, ev)
    ensures c in w.air || ev == Originate(c) ==> c in Apply(w, ev).air
    ensures !ev.Deliver? && c in Apply(w, ev).air ==> c in w.air || ev == Originate(c)
  {
  }

  // ---- What one delivery does ------------------------------------------------------------

  /** A copy for `d` that came on from `c`, one hop further. */
  ghost predicate SentOn(w: World, c: Copy, d: Node) {
    c.hop < 256 && exists epoch :: Copy(c.key, d, c.hop + 1, c.path + [Visit(c.dest, c.hop, epoch)]) in w.air
  }

  /** A copy with any id but 0-0 is dropped exactly when its node remembers a smaller hop
      other than 0; otherwise it goes on to every destination with its hop count raised by
      one. The node then remembers it. */
  lemma DeliveryFollowsRule(w: World, c: Copy, dests: set<Node>)
    requires Inv(w) && Enabled(w, Deliver(c, dests)) && (c.key.high != 0 || c.key.low != 0)
    ensures var w', f, f' := Apply(w, Deliver(c, dests)), Table(w, c.dest), Table(Apply(w, Deliver(c, dests)), c.dest);
      && Holds(f', c.key)
      && Best(f', c.key) == (if Holds(f, c.key) && 0 < Best(f, c.key) <= c.hop then Best(f, c.key) else c.hop)
      && (Holds(f, c.key) && 0 < Best(f, c.key) < c.hop ==> w'.air == w.air)
      && (!(Holds(f, c.key) && 0 < Best(f, c.key) < c.hop) ==>
            (forall d :: d in dests ==> SentOn(w', c, d)) && (forall x :: x in w'.air - w.air ==> x.dest in dests && x.key == c.key))
  {
    var f := Table(w, c.dest);
    assert Tidy(f);
    TrackedArrival(f, c.key, c.hop);
    var w' := Apply(w, Deliver(c, dests));
    var epoch := Epoch(w', c.dest, c.key);
    if !Arrive(f, c.key, c.hop).1 {
      forall d | d in dests
        ensures SentOn(w', c, d)
      {
        assert Copy(c.key, d, c.hop + 1, c.path + [Visit(c.dest, c.hop, epoch)]) in w'.air;
      }
    }
  }

  /** An epoch ends only where and when a copy arrives with hop 0 or finds its key not held. */
  lemma EpochEndsIff(w: World, n: Node, key: Key, hop: Hop, m: Node, other: Key)
    ensures var w' := Filter(w, n, key, hop).0;
      Epoch(w', m, other) == Epoch(w, m, other) <==> (m, other) != (n, key) || (hop != 0 && Holds(Table(w, n), key))
  {
  }

  /** A message without an id is forwarded however often it comes. */
  lemma ZeroIdIsForwarded(w: World, c: Copy, dests: set<Node>, d: Node)
    requires Inv(w) && Enabled(w, Deliver(c, dests)) && c.key.high == 0 && c.key.low == 0 && d in dests
    ensures SentOn(Apply(w, Deliver(c, dests)), c, d)
    ensures Table(Apply(w, Deliver(c, dests)), c.dest) == Table(w, c.dest)
  {
    var w' := Apply(w, Deliver(c, dests));
    var epoch := Epoch(w', c.dest, c.key);
    assert Copy(c.key, d, c.hop + 1, c.path + [Visit(c.dest, c.hop, epoch)]) in w'.air;
  }

  // ---- The copies one node lets through -----------------------------------------------

  /** The filter call an event makes at a node, if any. */
  function ArrivesAt(ev: Event, n: Node): Option<Arrival>
    requires ev.Deliver? ==> ev.copy.hop < 256
  {
    match ev
    case Originate(_) => None
    case Deliver(c, _) => if c.dest == n then Some(Arrival(c.key, c.hop)) else None
    case OtherArrival(node, key, hop) => if node == n then Some(Arrival(key, hop)) else None
  }

  /** Every filter call at a node over a run of the mesh, in order. */
  ghost function Arrivals(w: World, run: seq<Event>, n: Node): seq<Arrival>
    requires Possible(w, run)
    decreases run
  {
    if run == [] then []
    else
      var a := ArrivesAt(run[0], n);
      (if a.Some? then [a.value] else []) + Arrivals(Apply(w, run[0]), run[1..], n)
  }

  lemma TableFollowsArrival(w: World, ev: Event, n: Node)
    requires Enabled(w, ev)
    ensures var a := ArrivesAt(ev, n);
      Table(Apply(w, ev), n) == if a.Some? then Arrive(Table(w, n), a.value.key, a.value.hop).0 else Table(w, n)
  {
  }

  /** The key stays in the table of node `n`, and no hop-0 copy of it arrives there. */
  ghost predicate Settled(w: World, run: seq<Event>, n: Node, key: Key) {
    Possible(w, run) && HeldWithoutZero(Table(w, n), Arrivals(w, run, n), key)
  }

  /** At each node of a mesh, in every run: the hops of the copies of a message it lets
      through never increase between two hop-0 arrivals while it remembers the
      message. */
  lemma NodeHopsNeverIncrease(w: World, run: seq<Event>, n: Node, key: Key)
    requires Inv(w) && Settled(w, run, n, key)
    ensures NeverIncreases(PassedBy(Table(w, n), Arrivals(w, run, n), key))
  {
    assert Tidy(Table(w, n));
    assert !Untracked(Table(w, n)[HeldAt(Table(w, n), key)].key);
    UndroppedHopsNeverIncrease(Table(w, n), Arrivals(w, run, n), key);
  }

  /** Those arrivals are what the table of the node went through. */
  lemma {:induction false} TableFollowsRun(w: World, run: seq<Event>, n: Node)
    requires Possible(w, run)
    ensures Table(After(w, run), n) == AfterAll(Table(w, n), Arrivals(w, run, n))
    decreases run
  {
    if run == [] {
    } else {
      var a, w' := ArrivesAt(run[0], n), Apply(w, run[0]);
      TableFollowsArrival(w, run[0], n);
      TableFollowsRun(w', run[1..], n);
      var rest := Arrivals(w', run[1..], n);
      if a.Some? {
        assert ([a.value] + rest)[1..] == rest;
      } else {
        assert [] + rest == rest;
      }
    }
  }
}
