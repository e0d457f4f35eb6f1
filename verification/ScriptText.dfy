/** Trimming the header and trailer lines off stored scripts. Bytes are written
    as characters. */
module ScriptText {
  import opened Words

  type Text = string

  const HEADER := "local result = {}"
  const TRAILER := "return result"

  predicate IsSpace(c: char) {
    c == ' ' || '\t' <= c <= '\r'
  }

  predicate IsNewline(c: char) {
    c == '\n' || c == '\r'
  }

  predicate IsBlank(c: char) {
    c == ' ' || c == '\t'
  }

  // ---- Scans, as functions on the text ---------------------------------------------

  /** Length without trailing white space. */
  function TrimmedLength(s: Text): (n: nat)
    ensures n <= |s|
    ensures n > 0 ==> !IsSpace(s[n - 1])
    ensures forall i :: n <= i < |s| ==> IsSpace(s[i])
  {
    if s != "" && IsSpace(s[|s| - 1]) then TrimmedLength(s[..|s| - 1]) else |s|
  }

  /** Start of the line that ends at `end`. */
  function LineStart(s: Text, end: nat): (n: nat)
    requires end <= |s|
    ensures n <= end
    ensures n > 0 ==> IsNewline(s[n - 1])
    ensures forall i :: n <= i < end ==> !IsNewline(s[i])
  {
    if end > 0 && !IsNewline(s[end - 1]) then LineStart(s, end - 1) else end
  }

  function LineEnd(s: Text, start: nat): (n: nat)
    requires start <= |s|
    ensures start <= n <= |s|
    ensures n < |s| ==> IsNewline(s[n])
    ensures forall i :: start <= i < n ==> !IsNewline(s[i])
    decreases |s| - start
  {
    if start < |s| && !IsNewline(s[start]) then LineEnd(s, start + 1) else start
  }

  function FirstInk(s: Text, start: nat): (n: nat)
    requires start <= |s|
    ensures start <= n <= |s|
    ensures n < |s| ==> !IsSpace(s[n])
    ensures forall i :: start <= i < n ==> IsSpace(s[i])
    decreases |s| - start
  {
    if start < |s| && IsSpace(s[start]) then FirstInk(s, start + 1) else start
  }

  function SkipBlanks(s: Text, begin: nat, end: nat): (n: nat)
    requires begin <= end <= |s|
    ensures begin <= n <= end
    ensures n < end ==> !IsBlank(s[n])
    ensures forall i :: begin <= i < n ==> IsBlank(s[i])
    decreases end - begin
  {
    if begin < end && IsBlank(s[begin]) then SkipBlanks(s, begin + 1, end) else begin
  }

  function DropBlanks(s: Text, begin: nat, end: nat): (n: nat)
    requires begin <= end <= |s|
    ensures begin <= n <= end
    ensures n > begin ==> !IsBlank(s[n - 1])
    ensures forall i :: n <= i < end ==> IsBlank(s[i])
  {
    if end > begin && IsBlank(s[end - 1]) then DropBlanks(s, begin, end - 1) else end
  }

  /** Length of the script without its trailer line; all of it when the last line
      with ink is not the trailer. */
  function StrippedLength(s: Text): (n: nat)
    ensures n <= |s|
  {
    var end := TrimmedLength(s);
    var start := LineStart(s, end);
    var begin := SkipBlanks(s, start, end);
    if s[begin..DropBlanks(s, begin, end)] == TRAILER then start else |s|
  }

  /** Where the text after the header line starts; 0 when the first line with ink
      is not the header. */
  function AfterHeader(s: Text): (n: nat)
    ensures n <= |s|
  {
    var start := FirstInk(s, 0);
    var end := LineEnd(s, start);
    if s[start..DropBlanks(s, start, end)] != HEADER then 0
    else
      var n := if end < |s| && s[end] == '\r' then end + 1 else end;
      if n < |s| && s[n] == '\n' then n + 1 else n
  }

  // ---- The loops of the store ----------------------------------------------------------

  method TrimTrailingSpace(s: Text) returns (end: nat)
    ensures end == TrimmedLength(s)
  {
    end := |s|;
    while end > 0 && IsSpace(s[end - 1])
      invariant end <= |s| && forall i :: end <= i < |s| ==> IsSpace(s[i])
    {
      end := end - 1;
    }
  }

  method DropTrailingBlanks(s: Text, begin: nat, end: nat) returns (last: nat)
    requires begin <= end <= |s|
    ensures last == DropBlanks(s, begin, end)
  {
    last := end;
    while last > begin && (s[last - 1] == ' ' || s[last - 1] == '\t')
      invariant begin <= last <= end && forall i :: last <= i < end ==> IsBlank(s[i])
    {
      last := last - 1;
    }
  }

  /** The last line with ink, without blanks at either side. */
  method LastLine(s: Text) returns (start: nat, begin: nat, last: nat)
    ensures start == LineStart(s, TrimmedLength(s))
    ensures begin == SkipBlanks(s, start, TrimmedLength(s))
    ensures last == DropBlanks(s, begin, TrimmedLength(s))
  {
    var end := TrimTrailingSpace(s);
    start := end;
    while start > 0 && s[start - 1] != '\n' && s[start - 1] != '\r'
      invariant start <= end && forall i :: start <= i < end ==> !IsNewline(s[i])
    {
      start := start - 1;
    }
    begin := start;
    while begin < end && (s[begin] == ' ' || s[begin] == '\t')
      invariant start <= begin <= end && forall i :: start <= i < begin ==> IsBlank(s[i])
    {
      begin := begin + 1;
    }
    last := DropTrailingBlanks(s, begin, end);
  }

  method StripReturnResult(s: Text) returns (n: nat)
    ensures n == StrippedLength(s)
  {
    var start, begin, last := LastLine(s);
    n := if s[begin..last] == TRAILER then start else |s|;
  }

  /** The first line with ink, without blanks at its end. */
  method FirstLine(s: Text) returns (start: nat, end: nat, checkEnd: nat)
    ensures start == FirstInk(s, 0) && end == LineEnd(s, start) && checkEnd == DropBlanks(s, start, end)
  {
    start := 0;
    while start < |s| && IsSpace(s[start])
      invariant start <= |s| && forall i :: 0 <= i < start ==> IsSpace(s[i])
    {
      start := start + 1;
    }
    end := start;
    while end < |s| && s[end] != '\n' && s[end] != '\r'
      invariant start <= end <= |s| && forall i :: start <= i < end ==> !IsNewline(s[i])
    {
      end := end + 1;
    }
    checkEnd := DropTrailingBlanks(s, start, end);
  }

  method SkipLocalResult(s: Text) returns (n: nat)
    ensures n == AfterHeader(s)
  {
    var start, end, checkEnd := FirstLine(s);
    if s[start..checkEnd] != HEADER {
      return 0;
    }
    if end < |s| && s[end] == '\r' {
      end := end + 1;
    }
    if end < |s| && s[end] == '\n' {
      end := end + 1;
    }
    return end;
  }

  /** The last line ends where the trailing white space began, so there is no blank left
      for the second trimming loop to drop. */
  lemma LastLineHasNoBlanksLeft(s: Text, begin: nat)
    requires begin <= TrimmedLength(s)
    ensures DropBlanks(s, begin, TrimmedLength(s)) == TrimmedLength(s)
  {
    assert forall c: char :: IsBlank(c) ==> IsSpace(c);
  }

  // ---- What they do to any script ----------------------------------------------------------

  lemma SpaceIs(c: char)
    ensures IsSpace(c) <==> c in {' ', '\t', '\n', 11 as char, 12 as char, '\r'}
    ensures IsNewline(c) <==> c in {'\n', '\r'}
    ensures IsBlank(c) <==> c in {' ', '\t'}
  {
  }

  /** A line starts at `start`, is indented up to `begin`, reads "return result" and has only
      white space behind it. */
  ghost predicate TrailerAt(s: Text, start: nat, begin: nat) {
    && start <= begin && begin + 13 <= |s|
    && (start > 0 ==> IsNewline(s[start - 1]))
    && (forall i :: start <= i < begin ==> IsBlank(s[i]))
    && s[begin..begin + 13] == "return result"
    && (forall i :: begin + 13 <= i < |s| ==> IsSpace(s[i]))
  }

  lemma TrailerLetters(s: Text, begin: nat)
    requires begin + 13 <= |s| && s[begin..begin + 13] == "return result"
    ensures s[begin] == 'r' && s[begin + 12] == 't'
    ensures forall i :: begin <= i < begin + 13 ==> !IsNewline(s[i])
  {
    var text := s[begin..begin + 13];
    assert text[0] == 'r' && text[12] == 't';
    forall i | begin <= i < begin + 13
      ensures !IsNewline(s[i])
    {
      assert s[i] == text[i - begin];
    }
  }

  lemma TrailerIsCut(s: Text, start: nat, begin: nat)
    requires TrailerAt(s, start, begin)
    ensures StrippedLength(s) == start
  {
    TrailerLetters(s, begin);
    var end := begin + 13;
    assert TrimmedLength(s) == end && LineStart(s, end) == start && SkipBlanks(s, start, end) == begin;
    assert DropBlanks(s, begin, end) == end;
  }

  lemma CutIsTrailer(s: Text)
    requires StrippedLength(s) != |s|
    ensures exists begin: nat :: TrailerAt(s, StrippedLength(s), begin)
  {
    var end := TrimmedLength(s);
    var begin := SkipBlanks(s, LineStart(s, end), end);
    LastLineHasNoBlanksLeft(s, begin);
    assert s[begin..end] == TRAILER && |s[begin..end]| == 13;
    assert TrailerAt(s, StrippedLength(s), begin);
  }

  /** Exactly a trailer line with white space behind it is cut off, and any other text is
      left whole. */
  lemma StripsIff(s: Text, n: nat)
    ensures n < |s| ==> (StrippedLength(s) == n <==> exists begin: nat :: TrailerAt(s, n, begin))
    ensures StrippedLength(s) == |s| <==> forall start: nat, begin: nat :: !TrailerAt(s, start, begin)
  {
    if StrippedLength(s) != |s| {
      CutIsTrailer(s);
    }
    forall start: nat, begin: nat | TrailerAt(s, start, begin)
      ensures StrippedLength(s) == start < |s|
    {
      TrailerIsCut(s, start, begin);
    }
  }

  /** White space up to `start`, then "local result = {}" and blanks up to the end of the
      line. */
  ghost predicate HeaderAt(s: Text, start: nat, end: nat) {
    && start + 17 <= end <= |s|
    && (forall i :: 0 <= i < start ==> IsSpace(s[i]))
    && s[start..start + 17] == "local result = {}"
    && (forall i :: start + 17 <= i < end ==> IsBlank(s[i]))
    && (end < |s| ==> IsNewline(s[end]))
  }

  /** Characters in the line break at `end`: CR LF counts as one break. */
  function BreakAt(s: Text, end: nat): nat
    requires end <= |s|
  {
    if end == |s| || !IsNewline(s[end]) then 0
    else if s[end] == '\r' && end + 1 < |s| && s[end + 1] == '\n' then 2
    else 1
  }

  lemma HeaderLetters(s: Text, start: nat)
    requires start + 17 <= |s| && s[start..start + 17] == "local result = {}"
    ensures s[start] == 'l' && s[start + 16] == '}'
    ensures forall i :: start <= i < start + 17 ==> !IsNewline(s[i])
  {
    var text := s[start..start + 17];
    assert text[0] == 'l' && text[16] == '}';
    forall i | start <= i < start + 17
      ensures !IsNewline(s[i])
    {
      assert s[i] == text[i - start];
    }
  }

  lemma HeaderIsCut(s: Text, start: nat, end: nat)
    requires HeaderAt(s, start, end)
    ensures AfterHeader(s) == end + BreakAt(s, end)
  {
    HeaderLetters(s, start);
    assert FirstInk(s, 0) == start && LineEnd(s, start) == end && DropBlanks(s, start, end) == start + 17;
  }

  lemma CutIsHeader(s: Text)
    requires AfterHeader(s) != 0
    ensures exists start: nat, end: nat :: HeaderAt(s, start, end)
  {
    var start := FirstInk(s, 0);
    var end := LineEnd(s, start);
    var last := DropBlanks(s, start, end);
    assert s[start..last] == HEADER && |s[start..last]| == 17;
    assert HeaderAt(s, start, end);
  }

  /** Exactly a header line is skipped, with the break that ends it, and nothing of any other
      text. */
  lemma SkipsIff(s: Text)
    ensures forall start: nat, end: nat :: HeaderAt(s, start, end) ==> AfterHeader(s) == end + BreakAt(s, end)
    ensures AfterHeader(s) == 0 <==> forall start: nat, end: nat :: !HeaderAt(s, start, end)
  {
    if AfterHeader(s) != 0 {
      CutIsHeader(s);
    }
    forall start: nat, end: nat | HeaderAt(s, start, end)
      ensures AfterHeader(s) == end + BreakAt(s, end) > 0
    {
      HeaderIsCut(s, start, end);
    }
  }

  // ---- What they do to a well-formed script ----------------------------------------------

  /** Empty, or whole lines. */
  predicate WholeLines(t: Text) {
    t == "" || IsNewline(t[|t| - 1])
  }

  lemma PutTogether(a: Text, b: Text, c: Text)
    ensures (a + b + c)[|a|..|a| + |b|] == b
    ensures forall i :: 0 <= i < |a| ==> (a + b + c)[i] == a[i]
    ensures forall i :: |a| <= i < |a| + |b| ==> (a + b + c)[i] == b[i - |a|]
    ensures forall i :: |a| + |b| <= i < |a| + |b| + |c| ==> (a + b + c)[i] == c[i - |a| - |b|]
  {
  }

  /** The trailer line, and whatever white space follows it, is cut off. */
  lemma TrailerIsStripped(t: Text, space: Text)
    requires WholeLines(t) && forall i :: 0 <= i < |space| ==> IsSpace(space[i])
    ensures StrippedLength(t + TRAILER + space) == |t|
  {
    var trailer: Text := TRAILER;
    PutTogether(t, trailer, space);
    assert TrailerAt(t + trailer + space, |t|, |t|);
    TrailerIsCut(t + trailer + space, |t|, |t|);
  }

  /** The header line is skipped. */
  lemma HeaderIsSkipped(t: Text)
    ensures AfterHeader(HEADER + "\n" + t) == |HEADER| + 1
  {
    var header: Text := HEADER;
    PutTogether(header, "\n", t);
    assert (header + "\n" + t)[0..17] == header;
    HeaderIsCut(header + "\n" + t, 0, 17);
  }
}
