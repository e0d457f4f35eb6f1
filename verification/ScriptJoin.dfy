/** Joining stored scripts into one text in a buffer of fixed size. */
module ScriptJoin {
  import opened Words
  import opened ScriptIndex
  import opened ScriptText

  datatype Status = Ok | InvalidArg | NotFound | NoMemory | FlashError

  // ---- What the aggregate should be ---------------------------------------------------

  predicate Wanted(m: Meta, ids: Option<seq<u16>>) {
    (ids.None? || m.id in ids.value) && m.size > 0
  }

  function Selection(index: seq<Meta>, ids: Option<seq<u16>>): seq<Meta> {
    if index == [] then []
    else
      var n := |index| - 1;
      Selection(index[..n], ids) + if Wanted(index[n], ids) then [index[n]] else []
  }

  /** One script as it appears in the join. */
  function Segment(script: Text, first: bool, last: bool): Text {
    var body := if first then script else script[AfterHeader(script)..];
    if last then body else body[..StrippedLength(body)]
  }

  function WithNewline(join: Text): Text {
    if join == "" then "" else join + "\n"
  }

  /** The first `k` segments joined; a newline goes before a segment once there is
      any output. */
  function Join(segments: seq<Text>, k: nat): Text
    requires k <= |segments|
  {
    if k == 0 then "" else WithNewline(Join(segments, k - 1)) + segments[k - 1]
  }

  /** A step of the join fits when its segment is empty or the join is within the
      capacity. */
  predicate StepFits(segments: seq<Text>, k: nat, cap: nat)
    requires 0 < k <= |segments|
  {
    |Join(segments, k)| <= cap || segments[k - 1] == ""
  }

  /** Output buffer contents that agree with a join cut to the capacity. */
  ghost predicate Holds(out: Text, used: nat, join: Text) {
    used == Min(|join|, |out|) && out[..used] == join[..used]
  }

  lemma NewlineKeepsHolds(out: Text, used: nat, join: Text, out': Text)
    requires Holds(out, used, join) && |out'| == |out| && out != []
    requires out' == if used != 0 && used < |out| then out[used := '\n'] else out
    ensures Holds(out', if used != 0 && used < |out| then used + 1 else used, WithNewline(join))
  {
    assert out'[..used] == out[..used];
  }

  lemma SegmentKeepsHolds(out: Text, used: nat, join: Text, out': Text, segment: Text)
    requires Holds(out, used, join) && |out'| == |out| && |segment| <= |out| - used
    requires out'[..used] == out[..used] && out'[used..used + |segment|] == segment
    ensures Holds(out', used + |segment|, join + segment)
  {
    assert out'[..used + |segment|] == out'[..used] + segment;
  }

  function Blob(m: Meta, blobs: map<u16, Text>): Text {
    if m.id in blobs then blobs[m.id] else ""
  }

  /** The chosen scripts as they are joined. */
  function Segments(chosen: seq<Meta>, blobs: map<u16, Text>): (r: seq<Text>)
    ensures |r| == |chosen|
  {
    seq(|chosen|, i requires 0 <= i < |chosen| => Segment(Blob(chosen[i], blobs), i == 0, i + 1 == |chosen|))
  }

  /** The join of every chosen script. */
  function Whole(chosen: seq<Meta>, blobs: map<u16, Text>): Text {
    Join(Segments(chosen, blobs), |chosen|)
  }

  /** Flash gives back at most as many bytes as the index announces. */
  predicate Readable(m: Meta, blobs: map<u16, Text>) {
    m.id in blobs && |blobs[m.id]| <= m.size
  }

  /** The chosen script at `i` can be allocated, read and appended. */
  predicate Goes(chosen: seq<Meta>, blobs: map<u16, Text>, mallocs: nat, cap: nat, i: nat)
    requires i < |chosen|
  {
    i < mallocs && Readable(chosen[i], blobs) && StepFits(Segments(chosen, blobs), i + 1, cap)
  }

  predicate BuildableTo(chosen: seq<Meta>, blobs: map<u16, Text>, mallocs: nat, cap: nat, k: nat)
    requires k <= |chosen|
  {
    forall i: nat :: i < k ==> Goes(chosen, blobs, mallocs, cap, i)
  }

  predicate Buildable(chosen: seq<Meta>, blobs: map<u16, Text>, mallocs: nat, cap: nat) {
    BuildableTo(chosen, blobs, mallocs, cap, |chosen|)
  }

  /** All chosen scripts go in exactly when each can be allocated and read, and the join is
      within the capacity whenever a script adds to it. */
  lemma BuildableIff(chosen: seq<Meta>, blobs: map<u16, Text>, mallocs: nat, cap: nat)
    ensures Buildable(chosen, blobs, mallocs, cap) <==>
      && |chosen| <= mallocs
      && (forall i :: 0 <= i < |chosen| ==> chosen[i].id in blobs && |blobs[chosen[i].id]| <= chosen[i].size)
      && (forall i :: 0 <= i < |chosen| && Segments(chosen, blobs)[i] != "" ==> |Join(Segments(chosen, blobs), i + 1)| <= cap)
  {
    forall i: nat | i < |chosen|
      ensures Goes(chosen, blobs, mallocs, cap, i) <==>
        i < mallocs && chosen[i].id in blobs && |blobs[chosen[i].id]| <= chosen[i].size
        && (Segments(chosen, blobs)[i] != "" ==> |Join(Segments(chosen, blobs), i + 1)| <= cap)
    {
    }
    if Buildable(chosen, blobs, mallocs, cap) {
      assert chosen != [] ==> Goes(chosen, blobs, mallocs, cap, |chosen| - 1);
      forall i | 0 <= i < |chosen| && Segments(chosen, blobs)[i] != ""
        ensures |Join(Segments(chosen, blobs), i + 1)| <= cap
      {
        assert Goes(chosen, blobs, mallocs, cap, i);
      }
    }
  }

  lemma BuildableStep(chosen: seq<Meta>, blobs: map<u16, Text>, mallocs: nat, cap: nat, k: nat, wanted: bool)
    requires k <= |chosen| && BuildableTo(chosen, blobs, mallocs, cap, k)
    requires wanted ==> k < |chosen|
    ensures var goes := wanted ==> Goes(chosen, blobs, mallocs, cap, k);
      && (goes ==> BuildableTo(chosen, blobs, mallocs, cap, if wanted then k + 1 else k))
      && (!goes ==> !Buildable(chosen, blobs, mallocs, cap))
  {
    if wanted {
      forall i: nat | i < k + 1 && Goes(chosen, blobs, mallocs, cap, k)
        ensures Goes(chosen, blobs, mallocs, cap, i)
      {
        assert i < k || i == k;
      }
    }
  }

  lemma {:induction false} SelectionPrefix(index: seq<Meta>, ids: Option<seq<u16>>, i: nat)
    requires i <= |index|
    ensures Selection(index[..i], ids) <= Selection(index, ids)
  {
    if i == |index| {
      assert index[..i] == index;
    } else {
      SelectionPrefix(index[..|index| - 1], ids, i);
      assert index[..|index| - 1][..i] == index[..i];
    }
  }

  /** Exactly the stored scripts asked for are selected, all of them when none is named; an
      empty one never is. */
  lemma {:induction false} SelectionIs(s: seq<Meta>, ids: Option<seq<u16>>, m: Meta)
    ensures m in Selection(s, ids) <==> m in s && m.size > 0 && (ids.None? || m.id in ids.value)
    decreases s
  {
    if s == [] {
    } else {
      var n := |s| - 1;
      SelectionIs(s[..n], ids, m);
      assert s == s[..n] + [s[n]];
    }
  }

  /** What one turn of the loop adds to the selection. */
  lemma SelectionStep(index: seq<Meta>, ids: Option<seq<u16>>, i: nat)
    requires i < |index|
    ensures var k, wanted := |Selection(index[..i], ids)|, index[i].size > 0 && (ids.None? || index[i].id in ids.value);
      && k <= |Selection(index, ids)|
      && (wanted ==> k < |Selection(index, ids)| && Selection(index, ids)[k] == index[i])
      && |Selection(index[..i + 1], ids)| == if wanted then k + 1 else k
  {
    assert index[..i + 1][..i] == index[..i];
    SelectionPrefix(index, ids, i);
    SelectionPrefix(index, ids, i + 1);
    assert Wanted(index[i], ids) ==> Selection(index[..i + 1], ids)[|Selection(index[..i], ids)|] == index[i];
  }

  // ---- The loop -----------------------------------------------------------------------

  method Selected(id: u16, ids: Option<seq<u16>>) returns (b: bool)
    ensures b <==> ids.None? || id in ids.value
  {
    if ids.None? {
      return true;
    }
    for i := 0 to |ids.value|
      invariant id !in ids.value[..i]
    {
      if ids.value[i] == id {
        return true;
      }
    }
    return false;
  }

  method CountSelected(meta: array<Meta>, count: nat, ids: Option<seq<u16>>) returns (n: nat)
    requires count <= meta.Length
    ensures n == |Selection(meta[..count], ids)|
  {
    n := 0;
    for i := 0 to count
      invariant n == |Selection(meta[..i], ids)|
    {
      assert meta[..i + 1][..i] == meta[..i];
      var chosen := Selected(meta[i].id, ids);
      if chosen && meta[i].size > 0 {
        n := n + 1;
      }
    }
  }

  /** Part of the script that goes into the join. */
  method Cut(m: Meta, blobs: map<u16, Text>, k: nat, total: nat, ghost chosen: seq<Meta>) returns (segment: Text)
    requires k < total == |chosen| && chosen[k] == m && m.id in blobs
    ensures segment == Segments(chosen, blobs)[k]
  {
    var script, start := blobs[m.id], 0;
    if k > 0 {
      start := SkipLocalResult(script);
    }
    segment := script[start..];
    if k + 1 < total {
      var n := StripReturnResult(segment);
      segment := segment[..n];
    }
  }

  /** A newline when there is output and room for it. */
  method Mark(out: array<char>, used: nat, ghost join: Text) returns (used': nat)
    requires Holds(out[..], used, join) && out.Length > 0
    modifies out
    ensures Holds(out[..], used', WithNewline(join))
  {
    ghost var was := out[..];
    used' := used;
    if used != 0 && used < out.Length {
      out[used] := '\n';
      used' := used + 1;
    }
    NewlineKeepsHolds(was, used, join, out[..]);
  }

  method CopySegment(out: array<char>, used: nat, segment: Text)
    requires used + |segment| <= out.Length
    modifies out
    ensures out[..used] == old(out[..used]) && out[used..used + |segment|] == segment
  {
    forall i | 0 <= i < |segment| {
      out[used + i] := segment[i];
    }
  }

  /** The newline, then the segment if it fits. */
  method Append(out: array<char>, used: nat, segment: Text, ghost join: Text) returns (ok: bool, used': nat)
    requires Holds(out[..], used, join) && out.Length > 0
    modifies out
    ensures used' <= out.Length
    ensures ok <==> |WithNewline(join) + segment| <= out.Length || segment == ""
    ensures ok ==> Holds(out[..], used', WithNewline(join) + segment)
  {
    used' := Mark(out, used, join);
    if |segment| > out.Length - used' {
      return false, used';
    }
    ghost var was := out[..];
    CopySegment(out, used', segment);
    assert out[..][..used'] == was[..used'];
    SegmentKeepsHolds(was, used', WithNewline(join), out[..], segment);
    return true, used' + |segment|;
  }

  /** One selected script: allocate, read, cut, append. */
  method AppendScript(m: Meta, blobs: map<u16, Text>, out: array<char>, used: nat,
                      k: nat, total: nat, mallocs: nat, ghost chosen: seq<Meta>)
    returns (s: Status, used': nat)
    requires out.Length > 0 && k < total == |chosen| && chosen[k] == m
    requires Holds(out[..], used, Join(Segments(chosen, blobs), k))
    modifies out
    ensures used' <= out.Length
    ensures s == Ok <==> Goes(chosen, blobs, mallocs, out.Length, k)
    ensures s == Ok ==> Holds(out[..], used', Join(Segments(chosen, blobs), k + 1))
  {
    if k >= mallocs {
      return NoMemory, used;
    }
    if m.id !in blobs || |blobs[m.id]| > m.size {
      return FlashError, used;
    }
    ghost var segments := Segments(chosen, blobs);
    var segment := Cut(m, blobs, k, total, chosen);
    var ok;
    ok, used' := Append(out, used, segment, Join(segments, k));
    s := if ok then Ok else NoMemory;
  }

  /** One turn: an entry that is not selected is passed over. */
  method Turn(m: Meta, ids: Option<seq<u16>>, blobs: map<u16, Text>, out: array<char>, used: nat,
              k: nat, total: nat, mallocs: nat, ghost chosen: seq<Meta>)
    returns (s: Status, used': nat, k': nat)
    requires out.Length > 0 && k <= total == |chosen|
    requires Wanted(m, ids) ==> k < |chosen| && chosen[k] == m
    requires Holds(out[..], used, Join(Segments(chosen, blobs), k))
    modifies out
    ensures used' <= out.Length && k' == if Wanted(m, ids) then k + 1 else k
    ensures s == Ok <==> (Wanted(m, ids) ==> Goes(chosen, blobs, mallocs, out.Length, k))
    ensures s == Ok ==> Holds(out[..], used', Join(Segments(chosen, blobs), k'))
  {
    var wanted := Selected(m.id, ids);
    if wanted && m.size > 0 {
      s, used' := AppendScript(m, blobs, out, used, k, total, mallocs, chosen);
      k' := k + 1;
    } else {
      s, used', k' := Ok, used, k;
    }
  }

  /** The second pass: join what the first pass counted. */
  method JoinSelected(meta: array<Meta>, count: nat, blobs: map<u16, Text>, out: array<char>,
                      ids: Option<seq<u16>>, mallocs: nat, total: nat, ghost chosen: seq<Meta>)
    returns (s: Status, used: nat)
    requires count <= meta.Length && out.Length > 0
    requires chosen == Selection(meta[..count], ids) && total == |chosen|
    modifies out
    ensures used <= out.Length
    ensures s == Ok <==> Buildable(chosen, blobs, mallocs, out.Length)
    ensures s == Ok ==> Holds(out[..], used, Whole(chosen, blobs))
  {
    ghost var index := meta[..count];
    var k: nat := 0;
    used := 0;
    for i := 0 to count
      invariant k == |Selection(index[..i], ids)| <= total
      invariant BuildableTo(chosen, blobs, mallocs, out.Length, k)
      invariant Holds(out[..], used, Join(Segments(chosen, blobs), k))
    {
      SelectionStep(index, ids, i);
      ghost var at := k;
      s, used, k := Turn(meta[i], ids, blobs, out, used, k, total, mallocs, chosen);
      BuildableStep(chosen, blobs, mallocs, out.Length, at, Wanted(index[i], ids));
      if s != Ok {
        return;
      }
    }
    assert index[..count] == index;
    s := Ok;
  }

  method Aggregate(meta: array<Meta>, count: nat, blobs: map<u16, Text>, out: array<char>,
                   ids: Option<seq<u16>>, mallocs: nat)
    returns (s: Status, used: nat)
    requires count <= meta.Length && out.Length > 0
    modifies out
    ensures used <= out.Length
    ensures s == Ok <==> Buildable(Selection(meta[..count], ids), blobs, mallocs, out.Length)
    ensures s == Ok ==> Holds(out[..], used, Whole(Selection(meta[..count], ids), blobs))
    ensures s == Ok && used < out.Length ==>
      out[..used] == Whole(Selection(meta[..count], ids), blobs) && out[used] == '\0'
  {
    var total := CountSelected(meta, count, ids);
    s, used := JoinSelected(meta, count, blobs, out, ids, mallocs, total, Selection(meta[..count], ids));
    ghost var filled := out[..];
    if s == Ok && used < out.Length {
      out[used] := '\0';
    }
    assert out[..used] == filled[..used];
  }

  // ---- What it means for well-formed scripts --------------------------------------------

  /** A script with its header line, whole lines of body, and its trailer. */
  datatype Script = Script(body: Text, space: Text) {
    predicate WellFormed() {
      WholeLines(body) && forall i :: 0 <= i < |space| ==> IsSpace(space[i])
    }

    function Written(): Text {
      HEADER + "\n" + body + TRAILER + space
    }
  }

  predicate AllWellFormed(scripts: seq<Script>) {
    forall i :: 0 <= i < |scripts| ==> scripts[i].WellFormed()
  }

  /** The bodies with a newline between them. */
  function Bodies(scripts: seq<Script>, k: nat): Text
    requires k <= |scripts|
  {
    if k == 0 then "" else if k == 1 then scripts[0].body else Bodies(scripts, k - 1) + "\n" + scripts[k - 1].body
  }

  lemma CutTogether(header: Text, body: Text, trailer: Text, space: Text)
    ensures header + body + trailer + space == header + (body + trailer + space)
    ensures (header + body + trailer + space)[|header|..] == body + trailer + space
    ensures (body + trailer + space)[..|body|] == body
    ensures (header + body + trailer + space)[..|header| + |body|] == header + body
  {
  }

  lemma SegmentShape(script: Text, tail: Text, stripped: Text, both: Text)
    requires script[AfterHeader(script)..] == tail
    requires script[..StrippedLength(script)] == stripped && tail[..StrippedLength(tail)] == both
    ensures Segment(script, true, true) == script && Segment(script, true, false) == stripped
    ensures Segment(script, false, true) == tail && Segment(script, false, false) == both
  {
  }

  lemma SegmentOfWellFormed(script: Script)
    requires script.WellFormed()
    ensures var w, header := script.Written(), HEADER + "\n";
      && Segment(w, true, true) == header + script.body + TRAILER + script.space
      && Segment(w, true, false) == header + script.body
      && Segment(w, false, true) == script.body + TRAILER + script.space
      && Segment(w, false, false) == script.body
  {
    var header: Text, trailer: Text := HEADER + "\n", TRAILER;
    var body, space := script.body, script.space;
    var w, tail := header + body + trailer + space, body + trailer + space;
    assert AfterHeader(w) == |header| && w[|header|..] == tail by {
      CutTogether(header, body, trailer, space);
      HeaderIsSkipped(tail);
    }
    assert StrippedLength(w) == |header + body| && w[..|header + body|] == header + body by {
      CutTogether(header, body, trailer, space);
      assert WholeLines(header + body);
      TrailerIsStripped(header + body, space);
    }
    assert StrippedLength(tail) == |body| && tail[..|body|] == body by {
      CutTogether(header, body, trailer, space);
      TrailerIsStripped(body, space);
    }
    SegmentShape(w, tail, header + body, body);
  }

  lemma Regroup(a: Text, b: Text, c: Text)
    ensures a + b + c == a + (b + c)
  {
  }

  /** What the join takes of script `i`. */
  ghost predicate CutAt(text: Text, scripts: seq<Script>, i: nat, header: Text, trailer: Text)
    requires i < |scripts|
  {
    var body, end := scripts[i].body, trailer + scripts[i].space;
    text == if i + 1 < |scripts| then if i == 0 then header + body else body
            else if i == 0 then header + body + end else body + end
  }

  ghost predicate AllCut(segments: seq<Text>, scripts: seq<Script>, header: Text, trailer: Text) {
    |segments| == |scripts| && forall i: nat :: i < |scripts| ==> CutAt(segments[i], scripts, i, header, trailer)
  }

  lemma SegmentIsCut(scripts: seq<Script>, i: nat)
    requires i < |scripts| && scripts[i].WellFormed()
    ensures CutAt(Segment(scripts[i].Written(), i == 0, i + 1 == |scripts|), scripts, i, HEADER + "\n", TRAILER)
  {
    var s := scripts[i];
    SegmentOfWellFormed(s);
    Regroup(s.body, TRAILER, s.space);
    Regroup(HEADER + "\n" + s.body, TRAILER, s.space);
  }

  lemma JoinFirst(segments: seq<Text>)
    requires segments != []
    ensures Join(segments, 1) == segments[0]
  {
    assert Join(segments, 0) == "";
    assert "" + segments[0] == segments[0];
  }

  lemma JoinNext(segments: seq<Text>, k: nat, header: Text, before: Text, next: Text)
    requires 1 < k <= |segments| && header != ""
    requires Join(segments, k - 1) == header + before && segments[k - 1] == next
    ensures Join(segments, k) == header + (before + "\n" + next)
  {
    Regroup(header, before, "\n");
    Regroup(header, before + "\n", next);
  }

  /** Putting the last segment, trailer and all, after what came before. */
  lemma JoinEnd(segments: seq<Text>, header: Text, before: Text, body: Text, end: Text)
    requires |segments| > 1 && header != ""
    requires Join(segments, |segments| - 1) == header + before && segments[|segments| - 1] == body + end
    ensures Join(segments, |segments|) == header + (before + "\n" + body) + end
  {
    JoinNext(segments, |segments|, header, before, body + end);
    Regroup(before + "\n", body, end);
    Regroup(header, before + "\n" + body, end);
  }

  lemma {:induction false} JoinOfCuts(segments: seq<Text>, scripts: seq<Script>, header: Text, trailer: Text, k: nat)
    requires AllCut(segments, scripts, header, trailer) && header != "" && 0 < k < |scripts|
    ensures Join(segments, k) == header + Bodies(scripts, k)
    decreases k
  {
    assert CutAt(segments[k - 1], scripts, k - 1, header, trailer);
    if k == 1 {
      JoinFirst(segments);
    } else {
      JoinOfCuts(segments, scripts, header, trailer, k - 1);
      JoinNext(segments, k, header, Bodies(scripts, k - 1), scripts[k - 1].body);
    }
  }

  lemma WholeJoinOfCuts(segments: seq<Text>, scripts: seq<Script>, header: Text, trailer: Text)
    requires AllCut(segments, scripts, header, trailer) && header != "" && 0 < |scripts|
    ensures Join(segments, |scripts|) ==
      header + Bodies(scripts, |scripts|) + (trailer + scripts[|scripts| - 1].space)
  {
    var k := |scripts|;
    assert CutAt(segments[k - 1], scripts, k - 1, header, trailer);
    if k == 1 {
      JoinFirst(segments);
    } else {
      JoinOfCuts(segments, scripts, header, trailer, k - 1);
      JoinEnd(segments, header, Bodies(scripts, k - 1), scripts[k - 1].body, trailer + scripts[k - 1].space);
    }
  }

  /** When every chosen script was stored well formed, the aggregate has one header
      and one trailer, with the bodies in index order between them. */
  lemma {:induction false} AggregateOfWellFormed(chosen: seq<Meta>, blobs: map<u16, Text>, scripts: seq<Script>)
    requires 0 < |scripts| == |chosen| && AllWellFormed(scripts)
    requires forall i :: 0 <= i < |chosen| ==> Blob(chosen[i], blobs) == scripts[i].Written()
    ensures Whole(chosen, blobs) ==
      HEADER + "\n" + Bodies(scripts, |scripts|) + (TRAILER + scripts[|scripts| - 1].space)
  {
    var segments, header: Text := Segments(chosen, blobs), HEADER + "\n";
    assert AllCut(segments, scripts, header, TRAILER) by {
      forall i: nat | i < |scripts|
        ensures CutAt(segments[i], scripts, i, header, TRAILER)
      {
        SegmentIsCut(scripts, i);
      }
    }
    WholeJoinOfCuts(segments, scripts, header, TRAILER);
  }
}
