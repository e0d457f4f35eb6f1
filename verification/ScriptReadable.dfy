/** Which scripts an aggregate can read: after every call, and after a power cycle, when
    the index is the one in flash. */
module ScriptReadable {
  import opened Words
  import opened ScriptIndex
  import opened ScriptText
  import opened ScriptJoin
  import opened ScriptStore
  import opened ScriptRuns

  ghost predicate EntriesReadable(s: seq<Meta>, blobs: map<u16, Text>) {
    forall i :: 0 <= i < |s| ==> Readable(s[i], blobs)
  }

  /** Every indexed script can be read, by the index in memory and by the one in flash. */
  ghost predicate Healthy(d: Disk) {
    EntriesReadable(d.saved, d.blobs) && (d.loaded ==> EntriesReadable(d.ram, d.blobs))
  }

  // ---- What that means for an aggregate -----------------------------------------------------

  lemma {:induction false} StepsAddUp(lengths: seq<nat>, k: nat, n: nat)
    requires k <= n < |lengths|
    requires forall i :: 0 < i < |lengths| ==> lengths[i - 1] <= lengths[i]
    ensures lengths[k] <= lengths[n]
    decreases n
  {
    if k < n {
      StepsAddUp(lengths, k, n - 1);
    }
  }

  lemma LastIsLonger(segments: seq<Text>, n: nat)
    requires 0 < n <= |segments|
    ensures |Join(segments, n - 1)| <= |Join(segments, n)|
  {
    var before := Join(segments, n - 1);
    assert Join(segments, n) == WithNewline(before) + segments[n - 1];
  }

  function JoinLengths(segments: seq<Text>): (r: seq<nat>)
    ensures |r| == |segments| + 1
    ensures forall i :: 0 <= i < |r| ==> r[i] == |Join(segments, i)|
  {
    seq(|segments| + 1, i requires 0 <= i <= |segments| => |Join(segments, i)|)
  }

  lemma JoinFits(segments: seq<Text>, k: nat)
    requires k <= |segments|
    ensures |Join(segments, k)| <= |Join(segments, |segments|)|
  {
    var lengths := JoinLengths(segments);
    forall i | 0 < i < |lengths|
      ensures lengths[i - 1] <= lengths[i]
    {
      LastIsLonger(segments, i);
    }
    StepsAddUp(lengths, k, |segments|);
  }

  /** With memory and room enough an aggregate fails exactly on a selected script that
      cannot be read. */
  lemma AggregateGoesIff(s: seq<Meta>, ids: Option<seq<u16>>, blobs: map<u16, Text>, mallocs: nat, cap: nat)
    requires |Selection(s, ids)| <= mallocs && |Whole(Selection(s, ids), blobs)| <= cap
    ensures Buildable(Selection(s, ids), blobs, mallocs, cap) <==>
      forall i :: 0 <= i < |s| && Wanted(s[i], ids) ==> Readable(s[i], blobs)
  {
    var chosen := Selection(s, ids);
    forall i: nat | i < |chosen|
      ensures Goes(chosen, blobs, mallocs, cap, i) <==> Readable(chosen[i], blobs)
      ensures chosen[i] in s && Wanted(chosen[i], ids)
    {
      JoinFits(Segments(chosen, blobs), i + 1);
      SelectionIs(s, ids, chosen[i]);
    }
    forall i | 0 <= i < |s| && Wanted(s[i], ids)
      ensures s[i] in chosen
    {
      SelectionIs(s, ids, s[i]);
    }
    if Buildable(chosen, blobs, mallocs, cap) {
      forall i | 0 <= i < |s| && Wanted(s[i], ids)
        ensures Readable(s[i], blobs)
      {
        var k: nat :| k < |chosen| && chosen[k] == s[i];
        assert Goes(chosen, blobs, mallocs, cap, k);
      }
    }
  }

  /** Whatever memory and room there is, one such script is enough to fail it. */
  lemma UnreadableBlocks(s: seq<Meta>, at: nat, ids: Option<seq<u16>>, blobs: map<u16, Text>, mallocs: nat, cap: nat)
    requires at < |s| && Wanted(s[at], ids) && !Readable(s[at], blobs)
    ensures !Buildable(Selection(s, ids), blobs, mallocs, cap)
  {
    var chosen := Selection(s, ids);
    SelectionIs(s, ids, s[at]);
    var k: nat :| k < |chosen| && chosen[k] == s[at];
    assert !Goes(chosen, blobs, mallocs, cap, k);
  }

  /** When the store is healthy every aggregate with memory and room enough succeeds,
      now and after a power cycle, once the index is read. */
  lemma HealthyAggregatesGo(d: Disk, ids: Option<seq<u16>>, flash: Flash, mallocs: nat, cap: nat)
    requires Healthy(d) && (d.loaded || flash.load)
    requires |Selection(Seen(d, flash), ids)| <= mallocs && |Whole(Selection(Seen(d, flash), ids), d.blobs)| <= cap
    ensures Buildable(Selection(Seen(d, flash), ids), d.blobs, mallocs, cap)
    ensures Healthy(OnCall(d, PowerCycle).0)
  {
    AggregateGoesIff(Seen(d, flash), ids, d.blobs, mallocs, cap);
  }

  // ---- Single calls ---------------------------------------------------------------------------

  /** An upsert puts its entry in one place and keeps every other entry. */
  lemma UpsertPlaces(s: seq<Meta>, m: Meta) returns (at: nat)
    requires Ascending(s) && |s| <= MAX_SCRIPTS && !Refuses(s, m.id)
    ensures at < |Upsert(s, m)| && Upsert(s, m)[at] == m
    ensures forall i :: 0 <= i < |Upsert(s, m)| && i != at ==> Upsert(s, m)[i].id != m.id && Upsert(s, m)[i] in s
  {
    at := FindAt(s, m.id);
    if at == |s| {
      at := InsertAt(s, m.id);
      InsertByIndex(s, m);
    }
  }

  /** Flash holds the same script under this id, or none before and after. */
  predicate SameBlob(u: map<u16, Text>, v: map<u16, Text>, id: u16) {
    (id in u <==> id in v) && (id in u ==> u[id] == v[id])
  }

  /** When only one script changes, the index that differs by that entry is readable exactly
      when that entry is. */
  lemma OthersReadable(s: seq<Meta>, u: map<u16, Text>, s': seq<Meta>, v: map<u16, Text>, m: Meta, at: nat)
    requires EntriesReadable(s, u) && at < |s'| && s'[at] == m
    requires forall i :: 0 <= i < |s'| && i != at ==> s'[i].id != m.id && s'[i] in s
    requires forall other: u16 :: other != m.id ==> SameBlob(u, v, other)
    ensures EntriesReadable(s', v) <==> Readable(m, v)
  {
    forall i | 0 <= i < |s'| && i != at
      ensures Readable(s'[i], v)
    {
      var j :| 0 <= j < |s| && s[j] == s'[i];
      assert Readable(s[j], u) && SameBlob(u, v, s[j].id);
    }
  }

  /** The index in flash once one script under it was replaced or erased. */
  lemma SavedReadableIff(s: seq<Meta>, u: map<u16, Text>, v: map<u16, Text>, id: u16)
    requires Ascending(s) && EntriesReadable(s, u)
    requires forall other: u16 :: other != id ==> SameBlob(u, v, other)
    ensures EntriesReadable(s, v) <==> (Has(s, id) ==> Readable(s[FindAt(s, id)], v))
  {
    if Has(s, id) {
      OthersReadable(s, u, s, v, s[FindAt(s, id)], FindAt(s, id));
    } else {
      forall i | 0 <= i < |s|
        ensures Readable(s[i], v)
      {
        assert s[i].id != id && SameBlob(u, v, s[i].id) && Readable(s[i], u);
      }
    }
  }

  /** The upsert announces a length that flash does not have under the id: in memory, when
      the longer script there was not replaced; in flash, when the script was and the index
      was not. */
  predicate SaveHarms(d: Disk, id: u16, script: Text, flash: Flash) {
    && !BadArgument(id, script) && !Refuses(d.ram, id)
    && if !flash.open || flash.writes == 0 then !Readable(Meta(id, |script|), d.blobs)
       else flash.writes == 1 && Has(d.saved, id) && |script| > d.saved[FindAt(d.saved, id)].size
  }

  lemma UpsertLeaves(d: Disk, id: u16, script: Text, flash: Flash)
    requires d.loaded && !BadArgument(id, script) && !Refuses(d.ram, id)
    ensures OnUpsert(d, id, script, flash).0 ==
      Disk(true, Upsert(d.ram, Meta(id, |script|)),
           if flash.open && flash.writes > 1 then Upsert(d.ram, Meta(id, |script|)) else d.saved,
           if flash.open && flash.writes > 0 then d.blobs[id := script] else d.blobs)
  {
  }

  /** An upsert leaves every script readable by the index in memory exactly when it is
      refused, or gets as far as writing the script, or what flash holds under its id is no
      longer. */
  lemma UpsertKeepsReadableIff(d: Disk, id: u16, script: Text, flash: Flash)
    requires Sound(d) && d.loaded && Healthy(d) && !BadArgument(id, script)
    ensures var d' := OnUpsert(d, id, script, flash).0;
      EntriesReadable(d'.ram, d'.blobs) <==>
      (Refuses(d.ram, id) || (flash.open && flash.writes > 0) || Readable(Meta(id, |script|), d.blobs))
  {
    var d', m := OnUpsert(d, id, script, flash).0, Meta(id, |script|);
    if !Refuses(d.ram, id) {
      var at := UpsertPlaces(d.ram, m);
      UpsertLeaves(d, id, script, flash);
      OthersReadable(d.ram, d.blobs, d'.ram, d'.blobs, m, at);
    }
  }

  /** It leaves every script readable by the index in flash exactly when not only the script
      was written, or the index in flash does not have the id or announces enough. */
  lemma UpsertKeepsSavedReadableIff(d: Disk, id: u16, script: Text, flash: Flash)
    requires Sound(d) && d.loaded && Healthy(d) && !BadArgument(id, script)
    ensures var d' := OnUpsert(d, id, script, flash).0;
      EntriesReadable(d'.saved, d'.blobs) <==>
      (Refuses(d.ram, id) || !flash.open || flash.writes != 1
       || !Has(d.saved, id) || |script| <= d.saved[FindAt(d.saved, id)].size)
  {
    var d' := OnUpsert(d, id, script, flash).0;
    if !Refuses(d.ram, id) {
      UpsertLeaves(d, id, script, flash);
      if flash.open && flash.writes > 1 {
        UpsertKeepsReadableIff(d, id, script, flash);
      } else {
        SavedReadableIff(d.saved, d.blobs, d'.blobs, id);
      }
    }
  }

  lemma WithoutByIndex(s: seq<Meta>, at: nat, s': seq<Meta>, i: nat)
    requires at < |s| && s' == s[..at] + s[at + 1..] && i < |s'|
    ensures |s'| == |s| - 1 && s'[i] == s[if i < at then i else i + 1]
  {
  }

  /** A delete keeps entries of other ids only. */
  lemma KeptByDelete(s: seq<Meta>, id: u16, i: nat) returns (j: nat)
    requires Ascending(s) && Has(s, id) && i < |Delete(s, id)|
    ensures j < |s| && Delete(s, id)[i] == s[j] && s[j].id != id
  {
    var at := FindAt(s, id);
    j := if i < at then i else i + 1;
    WithoutByIndex(s, at, Delete(s, id), i);
  }

  lemma DeleteLeaves(d: Disk, id: u16, flash: Flash)
    requires d.loaded
    ensures var d', erased := OnDelete(d, id, flash).0, Has(d.ram, id) && flash.open;
      && d'.ram == (if erased then Delete(d.ram, id) else d.ram)
      && d'.saved == (if erased && flash.writes > 0 then Delete(d.ram, id) else d.saved)
      && d'.blobs == (if erased && flash.erases then d.blobs - {id} else d.blobs)
  {
  }

  /** A delete never leaves the index in memory with a script that cannot be read. */
  lemma DeleteKeepsReadable(d: Disk, id: u16, flash: Flash)
    requires Sound(d) && d.loaded && Healthy(d)
    ensures var d' := OnDelete(d, id, flash).0; EntriesReadable(d'.ram, d'.blobs)
  {
    var d' := OnDelete(d, id, flash).0;
    DeleteLeaves(d, id, flash);
    if Has(d.ram, id) && flash.open {
      forall i | 0 <= i < |d'.ram|
        ensures Readable(d'.ram[i], d'.blobs)
      {
        var j := KeptByDelete(d.ram, id, i);
        assert Readable(d.ram[j], d.blobs);
      }
    }
  }

  /** The delete erases the script and leaves an index in flash that still has its id. */
  predicate EraseHarms(d: Disk, id: u16, flash: Flash) {
    Has(d.ram, id) && flash.open && flash.erases && flash.writes == 0 && Has(d.saved, id)
  }

  lemma DeleteKeepsSavedReadableIff(d: Disk, id: u16, flash: Flash)
    requires Sound(d) && d.loaded && Healthy(d)
    ensures var d' := OnDelete(d, id, flash).0;
      EntriesReadable(d'.saved, d'.blobs) <==>
      (!Has(d.ram, id) || !flash.open || !flash.erases || flash.writes > 0 || !Has(d.saved, id))
  {
    var d' := OnDelete(d, id, flash).0;
    DeleteKeepsReadable(d, id, flash);
    DeleteLeaves(d, id, flash);
    if Has(d.ram, id) && flash.open && flash.erases && flash.writes == 0 {
      SavedReadableIff(d.saved, d.blobs, d'.blobs, id);
    }
  }

  // ---- Runs over flash errors and power cycles ---------------------------------------------------

  /** What a call has to do to leave an indexed script unreadable. */
  predicate Harms(d: Disk, c: Call) {
    match c
    case Save(id, script, flash) =>
      (d.loaded || flash.load) && SaveHarms(ReadIndex(d, flash), id, script, flash)
    case Erase(id, flash) => EraseHarms(ReadIndex(d, flash), id, flash)
    case Gather(_) => false
    case PowerCycle => false
  }

  lemma LoadedCallHarmsIff(d: Disk, c: Call)
    requires Sound(d) && d.loaded && Healthy(d)
    ensures Healthy(OnCall(d, c).0) <==> !Harms(d, c)
  {
    match c
    case Save(id, script, flash) =>
      if !BadArgument(id, script) {
        UpsertKeepsReadableIff(d, id, script, flash);
        UpsertKeepsSavedReadableIff(d, id, script, flash);
      }
    case Erase(id, flash) =>
      DeleteKeepsReadable(d, id, flash);
      DeleteKeepsSavedReadableIff(d, id, flash);
    case Gather(_) =>
    case PowerCycle =>
  }

  lemma CallHarmsIff(d: Disk, c: Call)
    requires Sound(d) && Healthy(d)
    ensures Healthy(OnCall(d, c).0) <==> !Harms(d, c)
  {
    if d.loaded {
      LoadedCallHarmsIff(d, c);
    } else if Reads(c) {
      FirstCallReads(d, c);
      if c.flash.load {
        LoadedCallHarmsIff(ReadIndex(d, c.flash), c);
      }
    }
  }

  predicate EverHarms(d: Disk, run: seq<Call>)
    decreases run
  {
    run != [] && (Harms(d, run[0]) || EverHarms(OnCall(d, run[0]).0, run[1..]))
  }

  ghost predicate HealthyThroughout(d: Disk, run: seq<Call>)
    decreases run
  {
    Healthy(d) && (run == [] || HealthyThroughout(OnCall(d, run[0]).0, run[1..]))
  }

  /** Over any run, power cycles included, every indexed script stays readable, in memory
      and in flash, if and only if no call does one of those two things. */
  lemma {:induction false} StaysHealthyIff(d: Disk, run: seq<Call>)
    requires Sound(d) && Healthy(d)
    ensures HealthyThroughout(d, run) <==> !EverHarms(d, run)
    decreases run
  {
    if run == [] {
    } else {
      var d' := OnCall(d, run[0]).0;
      CallHarmsIff(d, run[0]);
      CallKeepsSound(d, run[0]);
      if Healthy(d') {
        StaysHealthyIff(d', run[1..]);
      }
    }
  }

  // ---- What the harm does ---------------------------------------------------------------------------

  lemma SaveTouches(d: Disk, id: u16, script: Text, flash: Flash)
    ensures var v := OnUpsert(d, id, script, flash).0.blobs; v == d.blobs || v == d.blobs[id := script]
  {
  }

  lemma EraseTouches(d: Disk, id: u16, flash: Flash)
    ensures var v := OnDelete(d, id, flash).0.blobs; v == d.blobs || v == d.blobs - {id}
  {
  }

  lemma CallKeepsBlob(d: Disk, c: Call, id: u16)
    requires !Concerns(c, id)
    ensures SameBlob(d.blobs, OnCall(d, c).0.blobs, id)
  {
    match c
    case Save(other, script, flash) => SaveTouches(d, other, script, flash);
    case Erase(other, flash) => EraseTouches(d, other, flash);
    case Gather(_) =>
    case PowerCycle =>
  }

  /** A call about another id touches neither this entry nor its script. */
  lemma CallKeepsScript(d: Disk, c: Call, id: u16)
    requires Sound(d) && d.loaded && !c.PowerCycle? && !Concerns(c, id)
    ensures var d' := OnCall(d, c).0;
      d'.loaded && SameEntry(d.ram, d'.ram, id) && SameBlob(d.blobs, d'.blobs, id)
  {
    CallInMemory(d, c);
    CallKeepsEntry(d, c, id);
    CallKeepsBlob(d, c, id);
  }

  /** The index has the id, and flash does not give back what it announces. */
  predicate Stuck(d: Disk, id: u16) {
    && d.loaded && Has(d.ram, id)
    && d.ram[FindAt(d.ram, id)].size > 0 && !Readable(d.ram[FindAt(d.ram, id)], d.blobs)
  }

  /** Such a script fails every aggregate that selects it until a call is about it or power
      is lost. */
  lemma {:induction false} StuckScriptBlocks(d: Disk, later: seq<Call>, id: u16, ids: Option<seq<u16>>, mallocs: nat, cap: nat)
    requires Sound(d) && Stuck(d, id) && StaysPowered(later)
    requires forall i :: 0 <= i < |later| ==> !Concerns(later[i], id)
    requires ids.None? || id in ids.value
    ensures !Buildable(Selection(After(d, later).ram, ids), After(d, later).blobs, mallocs, cap)
    decreases later
  {
    if later == [] {
      UnreadableBlocks(d.ram, FindAt(d.ram, id), ids, d.blobs, mallocs, cap);
    } else {
      CallKeepsScript(d, later[0], id);
      CallKeepsSound(d, later[0]);
      StuckScriptBlocks(OnCall(d, later[0]).0, later[1..], id, ids, mallocs, cap);
    }
  }

  /** A shorter script that cannot be written, because flash cannot be opened or the write
      fails, blocks every later aggregate that selects it. */
  lemma FailedShrinkBlocksAggregates(d: Disk, id: u16, script: Text, flash: Flash, later: seq<Call>,
                                     ids: Option<seq<u16>>, mallocs: nat, cap: nat)
    requires Sound(d) && d.loaded && !BadArgument(id, script) && Has(d.ram, id)
    requires id in d.blobs && |script| < |d.blobs[id]| && (!flash.open || flash.writes == 0)
    requires StaysPowered(later) && forall i :: 0 <= i < |later| ==> !Concerns(later[i], id)
    requires ids.None? || id in ids.value
    ensures OnUpsert(d, id, script, flash).1 == FlashError
    ensures var d' := After(OnUpsert(d, id, script, flash).0, later);
      !Buildable(Selection(d'.ram, ids), d'.blobs, mallocs, cap)
  {
    var d', m := OnUpsert(d, id, script, flash).0, Meta(id, |script|);
    FindAfterReplace(d.ram, FindAt(d.ram, id), m, id);
    UpsertKeepsSound(d, id, script, flash);
    StuckScriptBlocks(d', later, id, ids, mallocs, cap);
  }

  /** What the index in flash announces and flash does not have is stuck from the next
      power-up on. */
  lemma BootBlocks(d: Disk, id: u16, boot: Flash, later: seq<Call>, ids: Option<seq<u16>>, mallocs: nat, cap: nat)
    requires Sound(d) && Has(d.saved, id) && d.saved[FindAt(d.saved, id)].size > 0
    requires !Readable(d.saved[FindAt(d.saved, id)], d.blobs) && boot.load
    requires StaysPowered(later) && forall i :: 0 <= i < |later| ==> !Concerns(later[i], id)
    requires ids.None? || id in ids.value
    ensures var d' := After(OnCall(d, PowerCycle).0, [Gather(boot)] + later);
      !Buildable(Selection(d'.ram, ids), d'.blobs, mallocs, cap)
  {
    var off := OnCall(d, PowerCycle).0;
    var on := ReadIndex(off, boot);
    assert ([Gather(boot)] + later)[1..] == later;
    StuckScriptBlocks(on, later, id, ids, mallocs, cap);
  }

  /** A longer script whose index entry cannot be written, because the write fails or power
      is lost before it, blocks them from the next power-up on. */
  lemma UnindexedGrowthBlocksAggregates(d: Disk, id: u16, script: Text, flash: Flash, boot: Flash, later: seq<Call>,
                                        ids: Option<seq<u16>>, mallocs: nat, cap: nat)
    requires Sound(d) && d.loaded && !BadArgument(id, script) && !Refuses(d.ram, id)
    requires Has(d.saved, id) && 0 < d.saved[FindAt(d.saved, id)].size < |script|
    requires flash.open && flash.writes == 1 && boot.load
    requires StaysPowered(later) && forall i :: 0 <= i < |later| ==> !Concerns(later[i], id)
    requires ids.None? || id in ids.value
    ensures var d' := After(After(d, [Save(id, script, flash), PowerCycle]), [Gather(boot)] + later);
      !Buildable(Selection(d'.ram, ids), d'.blobs, mallocs, cap)
  {
    var d1 := OnUpsert(d, id, script, flash).0;
    UpsertLeaves(d, id, script, flash);
    UpsertKeepsSound(d, id, script, flash);
    AfterTwo(d, Save(id, script, flash), PowerCycle);
    BootBlocks(d1, id, boot, later, ids, mallocs, cap);
  }

  /** A delete that erases the script and cannot write the index blocks them likewise. */
  lemma UnindexedEraseBlocksAggregates(d: Disk, id: u16, flash: Flash, boot: Flash, later: seq<Call>,
                                       ids: Option<seq<u16>>, mallocs: nat, cap: nat)
    requires Sound(d) && d.loaded && Has(d.ram, id)
    requires Has(d.saved, id) && 0 < d.saved[FindAt(d.saved, id)].size
    requires flash.open && flash.erases && flash.writes == 0 && boot.load
    requires StaysPowered(later) && forall i :: 0 <= i < |later| ==> !Concerns(later[i], id)
    requires ids.None? || id in ids.value
    ensures var d' := After(After(d, [Erase(id, flash), PowerCycle]), [Gather(boot)] + later);
      !Buildable(Selection(d'.ram, ids), d'.blobs, mallocs, cap)
  {
    DeleteKeepsSound(d, id, flash);
    AfterTwo(d, Erase(id, flash), PowerCycle);
    BootBlocks(OnDelete(d, id, flash).0, id, boot, later, ids, mallocs, cap);
  }
}
