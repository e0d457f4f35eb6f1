/** Runs of the script store over flash errors and power cycles: what the index in
    memory and the one in flash hold, and when saved entries are lost. */
module ScriptRuns {
  import opened Words
  import opened ScriptIndex
  import opened ScriptText
  import opened ScriptJoin
  import opened ScriptStore

  /** An aggregate counts as a call because it reads the index. */
  datatype Call = Save(id: u16, script: Text, flash: Flash) | Erase(id: u16, flash: Flash)
                | Gather(flash: Flash) | PowerCycle

  /** An aggregate changes what reading the index changes; of its answer only an index
      that cannot be read is kept here. */
  function OnCall(d: Disk, c: Call): (Disk, Status) {
    match c
    case Save(id, script, flash) => OnUpsert(d, id, script, flash)
    case Erase(id, flash) => OnDelete(d, id, flash)
    case Gather(flash) => (ReadIndex(d, flash), if d.loaded || flash.load then Ok else FlashError)
    case PowerCycle => (d.(loaded := false, ram := []), Ok)
  }

  function After(d: Disk, run: seq<Call>): Disk
    decreases run
  {
    if run == [] then d else After(OnCall(d, run[0]).0, run[1..])
  }

  ghost predicate Sound(d: Disk) {
    && Ascending(d.ram) && |d.ram| <= MAX_SCRIPTS
    && Ascending(d.saved) && |d.saved| <= MAX_SCRIPTS
  }

  lemma UpsertKeepsSound(d: Disk, id: u16, script: Text, flash: Flash)
    requires Sound(d) && !BadArgument(id, script)
    ensures Sound(OnUpsert(d, id, script, flash).0)
  {
    UpsertKeepsAscending(Seen(d, flash), Meta(id, |script|));
  }

  lemma ErasedKeepsSound(d: Disk, id: u16, flash: Flash)
    requires Sound(d)
    ensures Sound(Erased(d, id, flash).0)
  {
    DeleteKeepsAscending(d.ram, id);
    assert |Delete(d.ram, id)| <= |d.ram|;
  }

  lemma DeleteKeepsSound(d: Disk, id: u16, flash: Flash)
    requires Sound(d)
    ensures Sound(OnDelete(d, id, flash).0)
  {
    assert Sound(ReadIndex(d, flash));
    ErasedKeepsSound(ReadIndex(d, flash), id, flash);
  }

  lemma CallKeepsSound(d: Disk, c: Call)
    requires Sound(d)
    ensures Sound(OnCall(d, c).0)
  {
    match c
    case Save(id, script, flash) =>
      if !BadArgument(id, script) {
        UpsertKeepsSound(d, id, script, flash);
      }
    case Erase(id, flash) => DeleteKeepsSound(d, id, flash);
    case Gather(_) =>
    case PowerCycle =>
  }

  /** Whatever flash does, the index in memory and the one in flash stay strictly
      ascending with at most 16 entries. */
  lemma {:induction false} RunKeepsSound(d: Disk, run: seq<Call>)
    requires Sound(d)
    ensures Sound(After(d, run))
    decreases run
  {
    if run == [] {
    } else {
      CallKeepsSound(d, run[0]);
      RunKeepsSound(OnCall(d, run[0]).0, run[1..]);
    }
  }

  /** What a call does to the map of stored sizes when flash does not fail it. */
  function OpsOf(c: Call): seq<Op> {
    match c
    case Save(id, script, _) => if BadArgument(id, script) then [] else [Put(Meta(id, |script|))]
    case Erase(id, _) => [Remove(id)]
    case Gather(_) => []
    case PowerCycle => []
  }

  function AllOps(run: seq<Call>): seq<Op> {
    if run == [] then [] else OpsOf(run[0]) + AllOps(run[1..])
  }

  predicate Quiet(d: Disk, run: seq<Call>)
    decreases run
  {
    run == [] || (OnCall(d, run[0]).1 != FlashError && LoadsIfNeeded(d, run[0])
                  && Quiet(OnCall(d, run[0]).0, run[1..]))
  }

  /** A delete does not report that the index could not be read. */
  predicate LoadsIfNeeded(d: Disk, c: Call) {
    c.Erase? && !d.loaded ==> c.flash.load
  }

  ghost predicate Synced(d: Disk) {
    Sound(d) && (d.loaded ==> d.ram == d.saved)
  }

  lemma {:induction false} RunAppends(s: seq<Meta>, a: seq<Op>, b: seq<Op>)
    ensures Run(s, a + b) == Run(Run(s, a), b)
    decreases a
  {
    if a == [] {
      assert a + b == b;
    } else {
      assert (a + b)[1..] == a[1..] + b;
      RunAppends(ApplyOp(s, a[0]), a[1..], b);
    }
  }

  lemma RunOfOne(s: seq<Meta>, op: Op)
    ensures Run(s, [op]) == ApplyOp(s, op)
  {
    assert [op][1..] == [];
  }

  lemma QuietSave(d: Disk, id: u16, script: Text, flash: Flash)
    requires Synced(d) && !BadArgument(id, script) && OnUpsert(d, id, script, flash).1 != FlashError
    ensures Synced(OnUpsert(d, id, script, flash).0)
    ensures OnUpsert(d, id, script, flash).0.saved == Upsert(d.saved, Meta(id, |script|))
  {
    UpsertKeepsSound(d, id, script, flash);
  }

  lemma QuietErase(d: Disk, id: u16, flash: Flash)
    requires Synced(d) && OnDelete(d, id, flash).1 != FlashError && (!d.loaded ==> flash.load)
    ensures Synced(OnDelete(d, id, flash).0)
    ensures OnDelete(d, id, flash).0.saved == Delete(d.saved, id)
  {
    DeleteKeepsSound(d, id, flash);
  }

  lemma QuietCall(d: Disk, c: Call)
    requires Synced(d) && OnCall(d, c).1 != FlashError && LoadsIfNeeded(d, c)
    ensures Synced(OnCall(d, c).0) && OnCall(d, c).0.saved == Run(d.saved, OpsOf(c))
  {
    match c
    case Save(id, script, flash) =>
      if !BadArgument(id, script) {
        QuietSave(d, id, script, flash);
        RunOfOne(d.saved, Put(Meta(id, |script|)));
      }
    case Erase(id, flash) =>
      QuietErase(d, id, flash);
      RunOfOne(d.saved, Remove(id));
    case Gather(_) =>
    case PowerCycle =>
  }

  /** Without flash errors nothing is lost, power cycles included: what flash holds
      is the run of the finite map over all accepted calls. */
  lemma {:induction false} QuietRunIsDurable(d: Disk, run: seq<Call>)
    requires Synced(d) && Quiet(d, run)
    ensures Synced(After(d, run)) && After(d, run).saved == Run(d.saved, AllOps(run))
    ensures ToMap(After(d, run).saved) == RunMap(ToMap(d.saved), AllOps(run))
    decreases run
  {
    if run == [] {
    } else {
      var d' := OnCall(d, run[0]).0;
      QuietCall(d, run[0]);
      QuietRunIsDurable(d', run[1..]);
      RunAppends(d.saved, OpsOf(run[0]), AllOps(run[1..]));
    }
    RunRefinesMap(d.saved, AllOps(run));
  }

  // ---- The index in memory, whatever flash does ----------------------------------------------

  /** What a call does to the map in memory once the index has been read. A delete that
      cannot open flash does nothing; every other error comes after the change. */
  function Effect(c: Call): seq<Op> {
    match c
    case Save(id, script, _) => if BadArgument(id, script) then [] else [Put(Meta(id, |script|))]
    case Erase(id, flash) => if flash.open then [Remove(id)] else []
    case Gather(_) => []
    case PowerCycle => []
  }

  function Effects(run: seq<Call>): seq<Op> {
    if run == [] then [] else Effect(run[0]) + Effects(run[1..])
  }

  predicate StaysPowered(run: seq<Call>) {
    forall i :: 0 <= i < |run| ==> !run[i].PowerCycle?
  }

  lemma CallInMemory(d: Disk, c: Call)
    requires d.loaded && !c.PowerCycle?
    ensures OnCall(d, c).0.loaded && OnCall(d, c).0.ram == Run(d.ram, Effect(c))
  {
    match c
    case Save(id, script, _) =>
      if !BadArgument(id, script) {
        RunOfOne(d.ram, Put(Meta(id, |script|)));
      }
    case Erase(id, flash) =>
      RunOfOne(d.ram, Remove(id));
    case Gather(_) =>
  }

  /** Whatever flash errors occur, the index in memory is the run of the finite map over
      the calls. */
  lemma {:induction false} MemoryRefinesMap(d: Disk, run: seq<Call>)
    requires Sound(d) && d.loaded && StaysPowered(run)
    ensures After(d, run).ram == Run(d.ram, Effects(run))
    ensures ToMap(After(d, run).ram) == RunMap(ToMap(d.ram), Effects(run))
    decreases run
  {
    if run == [] {
    } else {
      CallInMemory(d, run[0]);
      CallKeepsSound(d, run[0]);
      MemoryRefinesMap(OnCall(d, run[0]).0, run[1..]);
      RunAppends(d.ram, Effect(run[0]), Effects(run[1..]));
    }
    RunRefinesMap(d.ram, Effects(run));
  }

  /** The call reads the index if nobody has. */
  predicate Reads(c: Call) {
    match c
    case Save(id, script, _) => !BadArgument(id, script)
    case Erase(_, _) => true
    case Gather(_) => true
    case PowerCycle => false
  }

  /** After power-up the first call that reads, an aggregate among them, works on the saved
      index, or, when it cannot be read, on none: a delete then finds nothing and an upsert
      gives up. */
  lemma FirstCallReads(d: Disk, c: Call)
    requires !d.loaded && Reads(c)
    ensures c.flash.load ==> OnCall(d, c) == OnCall(ReadIndex(d, c.flash), c) && ReadIndex(d, c.flash).ram == d.saved
    ensures !c.flash.load ==> OnCall(d, c).0 == d.(loaded := true, ram := [])
  {
  }

  // ---- When saved entries are lost --------------------------------------------------------------

  /** The call gets as far as writing the index to flash. */
  predicate WritesIndex(d: Disk, c: Call) {
    match c
    case Save(id, script, flash) =>
      !BadArgument(id, script) && (d.loaded || flash.load) && !Refuses(Seen(d, flash), id)
      && flash.open && flash.writes > 1
    case Erase(id, flash) => FindAt(Seen(d, flash), id) < |Seen(d, flash)| && flash.open && flash.writes > 0
    case Gather(_) => false
    case PowerCycle => false
  }

  /** Whether the index in memory is one that could not be read since power-up. */
  predicate BlindAfter(d: Disk, c: Call, blind: bool) {
    if c.PowerCycle? then false
    else if !d.loaded && Reads(c) then !c.flash.load
    else blind
  }

  /** Some call writes the index after it could not be read since power-up. */
  predicate WritesBlind(d: Disk, run: seq<Call>, blind: bool)
    decreases run
  {
    run != [] &&
    var now := BlindAfter(d, run[0], blind);
    (now && WritesIndex(d, run[0])) || WritesBlind(OnCall(d, run[0]).0, run[1..], now)
  }

  predicate Concerns(c: Call, id: u16) {
    (c.Save? || c.Erase?) && c.id == id
  }

  predicate Has(s: seq<Meta>, id: u16) {
    FindAt(s, id) < |s|
  }

  /** Both have the same entry under the id, or neither has one. */
  predicate SameEntry(s: seq<Meta>, s': seq<Meta>, id: u16) {
    (Has(s, id) <==> Has(s', id)) && (Has(s, id) ==> s[FindAt(s, id)] == s'[FindAt(s', id)])
  }

  lemma OthersStay(s: seq<Meta>, op: Op, id: u16)
    requires Ascending(s) && |s| <= MAX_SCRIPTS && id != (if op.Put? then op.m.id else op.id)
    ensures SameEntry(s, ApplyOp(s, op), id)
  {
    match op
    case Put(m) =>
      if FindAt(s, m.id) < |s| {
        FindAfterReplace(s, FindAt(s, m.id), m, id);
      } else if |s| < MAX_SCRIPTS {
        InsertKeepsAscending(s, m);
        FindAfterInsert(s, m, id);
      }
    case Remove(gone) => FindAfterDelete(s, gone, id);
  }

  lemma EffectKeepsEntry(s: seq<Meta>, c: Call, id: u16)
    requires Ascending(s) && |s| <= MAX_SCRIPTS && !c.PowerCycle? && !Concerns(c, id)
    ensures SameEntry(s, Run(s, Effect(c)), id)
  {
    if Effect(c) != [] {
      var op := Effect(c)[0];
      assert Effect(c) == [op];
      RunOfOne(s, op);
      OthersStay(s, op, id);
    }
  }

  lemma WritesWhatMemoryHas(d: Disk, c: Call)
    requires d.loaded && !c.PowerCycle?
    ensures OnCall(d, c).0.saved == if WritesIndex(d, c) then OnCall(d, c).0.ram else d.saved
  {
  }

  /** A call about another id keeps this entry in memory; in flash too, unless it writes an
      index without it. */
  lemma CallKeepsEntry(d: Disk, c: Call, id: u16)
    requires Sound(d) && d.loaded && !c.PowerCycle? && !Concerns(c, id)
    ensures var d' := OnCall(d, c).0;
      && SameEntry(d.ram, d'.ram, id)
      && d'.saved == if WritesIndex(d, c) then d'.ram else d.saved
  {
    WritesWhatMemoryHas(d, c);
    CallInMemory(d, c);
    EffectKeepsEntry(d.ram, c, id);
  }

  /** The first call that reads writes what it writes once the index is read. */
  lemma FirstCallWrites(d: Disk, c: Call)
    requires !d.loaded && Reads(c)
    ensures WritesIndex(d, c) <==> c.flash.load && WritesIndex(ReadIndex(d, c.flash), c)
  {
  }

  /** Memory is blind exactly when it lacks the entry, as long as flash has it; and flash
      loses it to a blind write only. */
  lemma CallKeepsTrack(d: Disk, c: Call, id: u16, blind: bool)
    requires Sound(d) && Has(d.saved, id) && !Concerns(c, id)
    requires d.loaded ==> (blind <==> !Has(d.ram, id))
    ensures var d', now := OnCall(d, c).0, BlindAfter(d, c, blind);
      && (d'.loaded ==> (now <==> !Has(d'.ram, id)))
      && (Has(d'.saved, id) <==> !(now && WritesIndex(d, c)))
  {
    if c.PowerCycle? || (!d.loaded && !Reads(c)) {
    } else if d.loaded {
      CallInMemory(d, c);
      CallKeepsEntry(d, c, id);
    } else {
      FirstCallReads(d, c);
      FirstCallWrites(d, c);
      if c.flash.load {
        CallInMemory(ReadIndex(d, c.flash), c);
        CallKeepsEntry(ReadIndex(d, c.flash), c, id);
      }
    }
  }

  /** What neither memory nor flash has does not come back. */
  lemma CallNeverFinds(d: Disk, c: Call, id: u16)
    requires Sound(d) && !Has(d.saved, id) && (d.loaded ==> !Has(d.ram, id)) && !Concerns(c, id)
    ensures var d' := OnCall(d, c).0; !Has(d'.saved, id) && (d'.loaded ==> !Has(d'.ram, id))
  {
    if c.PowerCycle? || (!d.loaded && !Reads(c)) {
    } else if d.loaded {
      CallKeepsEntry(d, c, id);
    } else {
      FirstCallReads(d, c);
      if c.flash.load {
        CallKeepsEntry(ReadIndex(d, c.flash), c, id);
      }
    }
  }

  lemma {:induction false} RunNeverFinds(d: Disk, run: seq<Call>, id: u16)
    requires Sound(d) && !Has(d.saved, id) && (d.loaded ==> !Has(d.ram, id))
    requires forall i :: 0 <= i < |run| ==> !Concerns(run[i], id)
    ensures !Has(After(d, run).saved, id)
    decreases run
  {
    if run == [] {
    } else {
      CallNeverFinds(d, run[0], id);
      CallKeepsSound(d, run[0]);
      RunNeverFinds(OnCall(d, run[0]).0, run[1..], id);
    }
  }

  lemma {:induction false} EntryIsLostIff(d: Disk, run: seq<Call>, id: u16, blind: bool)
    requires Sound(d) && Has(d.saved, id)
    requires d.loaded ==> (blind <==> !Has(d.ram, id))
    requires forall i :: 0 <= i < |run| ==> !Concerns(run[i], id)
    ensures !Has(After(d, run).saved, id) <==> WritesBlind(d, run, blind)
    decreases run
  {
    if run == [] {
    } else {
      var d', now := OnCall(d, run[0]).0, BlindAfter(d, run[0], blind);
      CallKeepsTrack(d, run[0], id, blind);
      CallKeepsSound(d, run[0]);
      if Has(d'.saved, id) {
        EntryIsLostIff(d', run[1..], id, now);
      } else {
        RunNeverFinds(d', run[1..], id);
      }
    }
  }

  /** Over any run from power-up, power cycles included, a saved entry that no call is about
      is lost if and only if some call writes an index that could not be read since the
      power-up before it. */
  lemma SavedEntryIsLostIff(d: Disk, run: seq<Call>, id: u16)
    requires Sound(d) && !d.loaded && Has(d.saved, id)
    requires forall i :: 0 <= i < |run| ==> !Concerns(run[i], id)
    ensures !Has(After(d, run).saved, id) <==> WritesBlind(d, run, false)
  {
    EntryIsLostIff(d, run, id, false);
  }

  predicate EverWritesIndex(d: Disk, run: seq<Call>)
    decreases run
  {
    run != [] && (WritesIndex(d, run[0]) || EverWritesIndex(OnCall(d, run[0]).0, run[1..]))
  }

  /** The first call that reads the index cannot. */
  predicate StartsBlind(run: seq<Call>) {
    run != [] && if Reads(run[0]) then !run[0].flash.load else StartsBlind(run[1..])
  }

  lemma {:induction false} BlindnessLasts(d: Disk, run: seq<Call>, blind: bool)
    requires d.loaded && StaysPowered(run)
    ensures WritesBlind(d, run, blind) <==> blind && EverWritesIndex(d, run)
    decreases run
  {
    if run == [] {
    } else {
      CallInMemory(d, run[0]);
      BlindnessLasts(OnCall(d, run[0]).0, run[1..], blind);
    }
  }

  /** While the power stays on that means: the first call that reads the index cannot, and
      a later one writes it. */
  lemma {:induction false} PoweredRunWritesBlindIff(d: Disk, run: seq<Call>)
    requires !d.loaded && StaysPowered(run)
    ensures WritesBlind(d, run, false) <==> StartsBlind(run) && EverWritesIndex(d, run)
    decreases run
  {
    if run == [] {
    } else if !Reads(run[0]) {
      PoweredRunWritesBlindIff(d, run[1..]);
    } else {
      var d', blind := OnCall(d, run[0]).0, !run[0].flash.load;
      FirstCallReads(d, run[0]);
      FirstCallWrites(d, run[0]);
      if run[0].flash.load {
        CallInMemory(ReadIndex(d, run[0].flash), run[0]);
      }
      BlindnessLasts(d', run[1..], blind);
    }
  }

  lemma AfterTwo(d: Disk, a: Call, b: Call)
    ensures After(d, [a, b]) == OnCall(OnCall(d, a).0, b).0
  {
    var d1 := OnCall(d, a).0;
    assert [a, b][1..] == [b] && [b][1..] == [];
    assert After(d1, [b]) == After(OnCall(d1, b).0, []);
  }

  /** One index that the first call after boot cannot read, whatever that call is, and one
      good upsert. */
  lemma BlindUpsertLosesIndex(d: Disk, first: Call, script: Text, good: Flash)
    requires !d.loaded && d.saved == [Meta(1, 5)] && !BadArgument(2, script)
    requires Reads(first) && !first.flash.load
    requires good.open && good.writes > 1
    ensures After(d, [first, Save(2, script, good)]).saved == [Meta(2, |script|)]
  {
    var d1 := d.(loaded := true, ram := []);
    FirstCallReads(d, first);
    assert OnCall(d, first).0 == d1;
    assert Upsert([], Meta(2, |script|)) == [Meta(2, |script|)];
    assert !Refuses([], 2);
    AfterTwo(d, first, Save(2, script, good));
  }
}
