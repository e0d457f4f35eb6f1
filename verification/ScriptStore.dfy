/** The script store: the index array that upsert and delete shift in place, and
    what reaches flash. */
module ScriptStore {
  import opened Words
  import opened ScriptIndex
  import opened ScriptText
  import opened ScriptJoin

  const MAX_SCRIPT_SIZE: nat := 65536

  /** How the flash behaves during one call: reading the index, opening it, whether
      keys can be erased, and how many of the writes that follow succeed. */
  datatype Flash = Flash(load: bool, open: bool, erases: bool, writes: nat)

  // ---- One call, as a function --------------------------------------------------------

  /** The index in memory, which is read on the first call after power-up, and what
      flash holds: the index blob and the scripts. */
  datatype Disk = Disk(loaded: bool, ram: seq<Meta>, saved: seq<Meta>, blobs: map<u16, Text>)

  predicate BadArgument(id: u16, script: Text) {
    id == 0 || script == "" || |script| > MAX_SCRIPT_SIZE
  }

  /** The index that a call works on. */
  function Seen(d: Disk, flash: Flash): seq<Meta> {
    if d.loaded then d.ram else if flash.load then d.saved else []
  }

  /** Reading the index; only the first call after power-up does it. */
  function ReadIndex(d: Disk, flash: Flash): Disk {
    d.(loaded := true, ram := Seen(d, flash))
  }

  /** The flash part of an upsert: script, then index, then commit. */
  function WriteBack(d: Disk, id: u16, script: Text, flash: Flash): (Disk, Status) {
    if !flash.open || flash.writes == 0 then (d, FlashError)
    else
      var d1 := d.(blobs := d.blobs[id := script]);
      if flash.writes == 1 then (d1, FlashError)
      else (d1.(saved := d1.ram), if flash.writes == 2 then FlashError else Ok)
  }

  function OnUpsert(d: Disk, id: u16, script: Text, flash: Flash): (Disk, Status) {
    if BadArgument(id, script) then (d, InvalidArg)
    else
      var d1 := ReadIndex(d, flash);
      if !d.loaded && !flash.load then (d1, FlashError)
      else if Refuses(d1.ram, id) then (d1, NoMemory)
      else WriteBack(d1.(ram := Upsert(d1.ram, Meta(id, |script|))), id, script, flash)
  }

  /** A delete once the id is found and the store is open. */
  function Erased(d: Disk, id: u16, flash: Flash): (Disk, Status) {
    var d1 := d.(ram := Delete(d.ram, id), blobs := if flash.erases then d.blobs - {id} else d.blobs);
    if flash.writes == 0 then (d1, FlashError)
    else (d1.(saved := d1.ram), if flash.writes == 1 then FlashError else Ok)
  }

  function OnDelete(d: Disk, id: u16, flash: Flash): (Disk, Status) {
    var d1 := ReadIndex(d, flash);
    if FindAt(d1.ram, id) == |d1.ram| then (d1, NotFound)
    else if !flash.open then (d1, FlashError)
    else Erased(d1, id, flash)
  }

  /** What an upsert answers. `Ok` means that script, index and commit all went through, and
      then flash holds both. */
  lemma UpsertAnswers(d: Disk, id: u16, script: Text, flash: Flash)
    ensures var (d', s) := OnUpsert(d, id, script, flash);
      var bad, read := id == 0 || script == "" || |script| > 65536, d.loaded || flash.load;
      var full := FindAt(Seen(d, flash), id) == |Seen(d, flash)| >= 16;
      && (s == InvalidArg <==> bad) && s != NotFound
      && (s == NoMemory <==> !bad && read && full)
      && (s == Ok <==> !bad && read && !full && flash.open && flash.writes > 2)
      && (s == Ok ==> id in d'.blobs && d'.blobs[id] == script && d'.saved == d'.ram == Upsert(Seen(d, flash), Meta(id, |script|)))
      && (bad || (read && full) ==> d'.saved == d.saved && d'.blobs == d.blobs)
  {
  }

  /** What a delete answers. */
  lemma DeleteAnswers(d: Disk, id: u16, flash: Flash)
    ensures var (d', s) := OnDelete(d, id, flash);
      var found := FindAt(Seen(d, flash), id) < |Seen(d, flash)|;
      && (s == NotFound <==> !found) && s != InvalidArg && s != NoMemory
      && (s == Ok <==> found && flash.open && flash.writes > 1)
      && (s == Ok ==> d'.saved == d'.ram == Delete(Seen(d, flash), id) && (flash.erases ==> id !in d'.blobs))
      && (!found || !flash.open ==> d'.saved == d.saved && d'.blobs == d.blobs && d'.ram == Seen(d, flash))
  {
  }

  // ---- The shifting loops -------------------------------------------------------------

  /** Make room among the first `n` entries and put a new one in its place. */
  method OpenGap(meta: array<Meta>, n: nat, m: Meta)
    requires n < meta.Length
    modifies meta
    ensures meta[..n + 1] == Insert(old(meta[..n]), m)
  {
    ghost var s := meta[..n];
    var insertAt := n;
    while insertAt > 0 && meta[insertAt - 1].id > m.id
      invariant insertAt <= n
      invariant forall i :: 0 <= i < insertAt ==> meta[i] == s[i]
      invariant forall i :: insertAt < i <= n ==> meta[i] == s[i - 1]
      invariant forall i :: insertAt <= i < n ==> s[i].id > m.id
    {
      meta[insertAt] := meta[insertAt - 1];
      insertAt := insertAt - 1;
    }
    meta[insertAt] := m;
    InsertIs(s, m, insertAt, meta[..n + 1]);
  }

  /** Drop one of the first `n` entries. */
  method CloseGap(meta: array<Meta>, n: nat, at: nat)
    requires at < n <= meta.Length
    modifies meta
    ensures meta[..n - 1] == old(meta[..at] + meta[at + 1..n])
  {
    ghost var s := meta[..n];
    var i := at;
    while i + 1 < n
      invariant at <= i < n
      invariant forall j :: 0 <= j < at ==> meta[j] == s[j]
      invariant forall j :: at <= j < i ==> meta[j] == s[j + 1]
      invariant forall j :: i < j < n ==> meta[j] == s[j]
    {
      meta[i] := meta[i + 1];
      i := i + 1;
    }
  }

  class Store {
    const meta: array<Meta>
    var count: nat
    var loaded: bool
    /** Flash: the index blob last written, and the script blobs. */
    var savedIndex: seq<Meta>
    var blobs: map<u16, Text>

    ghost predicate Valid()
      reads this, meta
    {
      && meta.Length == MAX_SCRIPTS && count <= MAX_SCRIPTS && |savedIndex| <= MAX_SCRIPTS
      && (!loaded ==> count == 0)
      && Ascending(Index()) && Ascending(savedIndex)
    }

    ghost function Index(): seq<Meta>
      requires meta.Length == MAX_SCRIPTS && count <= MAX_SCRIPTS
      reads this, meta
    {
      meta[..count]
    }

    ghost function Contents(): Disk
      requires Valid()
      reads this, meta
    {
      Disk(loaded, Index(), savedIndex, blobs)
    }

    /** Power-up over flash that is empty or was written by this code. */
    constructor (saved: seq<Meta>, blobs: map<u16, Text>)
      requires Ascending(saved) && |saved| <= MAX_SCRIPTS
      ensures Valid() && fresh(meta) && !loaded && savedIndex == saved && this.blobs == blobs
    {
      meta := new Meta[MAX_SCRIPTS](_ => Meta(0, 0));
      count, loaded, savedIndex, this.blobs := 0, false, saved, blobs;
    }

    /** Only the first call reads flash; when that fails the index stays empty. */
    method LoadIndex(flash: Flash) returns (s: Status)
      requires Valid()
      modifies this`loaded, this`count, meta
      ensures Valid() && Contents() == ReadIndex(old(Contents()), flash)
      ensures s == if old(loaded) || flash.load then Ok else FlashError
    {
      if loaded {
        return Ok;
      }
      loaded := true;
      if !flash.load {
        return FlashError;
      }
      for i := 0 to |savedIndex|
        modifies meta
        invariant meta[..i] == savedIndex[..i]
      {
        meta[i] := savedIndex[i];
      }
      count := |savedIndex|;
      return Ok;
    }

    method Find(id: u16) returns (i: nat)
      requires Valid()
      ensures i == FindAt(Index(), id)
    {
      i := 0;
      while i < count && meta[i].id != id
        invariant i <= count && forall j :: 0 <= j < i ==> Index()[j].id != id
      {
        i := i + 1;
      }
    }

    /** The lookup of the source, which reads the index first and ignores a failure. */
    method FindIndex(id: u16, flash: Flash) returns (i: nat)
      requires Valid()
      modifies this`loaded, this`count, meta
      ensures Valid() && Contents() == ReadIndex(old(Contents()), flash)
      ensures i == FindAt(Contents().ram, id)
    {
      var _ := LoadIndex(flash);
      i := Find(id);
    }

    /** The part of an upsert that happens in memory. */
    method PutEntry(m: Meta) returns (s: Status)
      requires Valid() && loaded
      modifies this`count, meta
      ensures Valid() && Contents() == old(Contents()).(ram := Upsert(old(Contents()).ram, m))
      ensures s == if Refuses(old(Contents()).ram, m.id) then NoMemory else Ok
    {
      ghost var was := Index();
      UpsertKeepsAscending(was, m);
      var i := Find(m.id);
      if i < count {
        meta[i] := m;
        assert Index() == was[i := m];
      } else if count >= MAX_SCRIPTS {
        return NoMemory;
      } else {
        OpenGap(meta, count, m);
        count := count + 1;
      }
      s := Ok;
    }

    method WriteScript(id: u16, script: Text, flash: Flash) returns (s: Status)
      requires Valid()
      modifies this`blobs, this`savedIndex
      ensures Valid() && (Contents(), s) == WriteBack(old(Contents()), id, script, flash)
    {
      if !flash.open || flash.writes == 0 {
        return FlashError;
      }
      blobs := blobs[id := script];
      if flash.writes == 1 {
        return FlashError;
      }
      SaveIndex();
      s := if flash.writes == 2 then FlashError else Ok;
    }

    method UpsertScript(id: u16, script: Text, flash: Flash) returns (s: Status)
      requires Valid()
      modifies this, meta
      ensures Valid() && (Contents(), s) == OnUpsert(old(Contents()), id, script, flash)
    {
      if id == 0 || |script| == 0 || |script| > MAX_SCRIPT_SIZE {
        return InvalidArg;
      }
      s := LoadIndex(flash);
      if s != Ok {
        return;
      }
      s := PutEntry(Meta(id, |script|));
      if s != Ok {
        return;
      }
      s := WriteScript(id, script, flash);
    }

    /** The part of a delete that happens in memory. */
    method DropEntry(at: nat, ghost id: u16)
      requires Valid() && loaded && at == FindAt(Index(), id) < count
      modifies this`count, meta
      ensures Valid() && Contents() == old(Contents()).(ram := Delete(old(Contents()).ram, id))
    {
      ghost var was := Index();
      DeleteKeepsAscending(was, id);
      CloseGap(meta, count, at);
      count := count - 1;
      assert Index() == was[..at] + was[at + 1..];
    }

    method SaveIndex()
      requires Valid()
      modifies this`savedIndex
      ensures Valid() && Contents() == old(Contents()).(saved := old(Contents()).ram)
    {
      savedIndex := meta[..count];
    }

    method EraseScript(at: nat, id: u16, flash: Flash) returns (s: Status)
      requires Valid() && loaded && at == FindAt(Index(), id) < count
      modifies this`count, this`savedIndex, this`blobs, meta
      ensures Valid() && (Contents(), s) == Erased(old(Contents()), id, flash)
    {
      if flash.erases {
        blobs := blobs - {id};
      }
      DropEntry(at, id);
      if flash.writes == 0 {
        return FlashError;
      }
      SaveIndex();
      s := if flash.writes == 1 then FlashError else Ok;
    }

    method DeleteScript(id: u16, flash: Flash) returns (s: Status)
      requires Valid()
      modifies this, meta
      ensures Valid() && (Contents(), s) == OnDelete(old(Contents()), id, flash)
    {
      var at := FindIndex(id, flash);
      if at == count {
        return NotFound;
      }
      if !flash.open {
        return FlashError;
      }
      s := EraseScript(at, id, flash);
    }

    /** Join the selected scripts into `out`. */
    method BuildAggregate(out: array<char>, ids: Option<seq<u16>>, flash: Flash, mallocs: nat) returns (s: Status, used: nat)
      requires Valid()
      modifies this`loaded, this`count, meta, out
      ensures Valid() && used <= out.Length
      ensures Contents() == if out.Length == 0 then old(Contents()) else ReadIndex(old(Contents()), flash)
      ensures s == Ok <==> (
        out.Length > 0 && (old(loaded) || flash.load) && flash.open
        && Buildable(Selection(Seen(old(Contents()), flash), ids), blobs, mallocs, out.Length))
      ensures s == Ok ==> Holds(out[..], used, Whole(Selection(Seen(old(Contents()), flash), ids), blobs))
    {
      if out.Length == 0 {
        return InvalidArg, 0;
      }
      s := LoadIndex(flash);
      if s != Ok || !flash.open {
        return FlashError, 0;
      }
      s, used := Aggregate(meta, count, blobs, out, ids, mallocs);
    }
  }
}
