/**
 * The one-pass reader of the findings block in a markdown response, against a recursive
 * account of which fences are top-level. Only the fences are read here: the content goes
 * on to be parsed as JSON (see JsonKeys).
 */
module FindingsFences {
  import opened CodeUnits
  import opened Lines
  import opened Options

  const SPACE: CodeUnit := 0x20
  const TAB: CodeUnit := 0x09
  const RETURN: CodeUnit := 0x0d
  const BACKTICK: CodeUnit := 0x60
  const TILDE: CodeUnit := 0x7e
  const MAX_FENCE_INDENT_COLUMNS: nat := 3
  const MAX_FINDINGS_BLOCK_CHARS: nat := 256 * 1024

  /** orcaops-findings */
  const INFO_STRING: Text :=
    [0x6f, 0x72, 0x63, 0x61, 0x6f, 0x70, 0x73, 0x2d, 0x66, 0x69, 0x6e, 0x64, 0x69, 0x6e, 0x67, 0x73]

  // ------------------------------------------------------------------------- lines

  /** Lines end at a carriage return, a newline, or the two together. */
  function SplitLines(body: Text): (lines: seq<Text>)
    ensures lines != []
  {
    if body == [] then [[]]
    else if EndOfLine(body) > 0 then [[]] + SplitLines(body[EndOfLine(body)..])
    else LongerFirst(body[0], SplitLines(body[1..]))
  }

  function LongerFirst(u: CodeUnit, lines: seq<Text>): (longer: seq<Text>)
    requires lines != []
    ensures |longer| == |lines| && longer[0] == [u] + lines[0]
    ensures forall k :: 1 <= k < |lines| ==> longer[k] == lines[k]
  {
    [[u] + lines[0]] + lines[1..]
  }

  /** How many units the line end at the front of a text takes up. */
  function EndOfLine(t: Text): (n: nat)
    ensures n <= |t|
  {
    if |t| > 1 && t[0] == RETURN && t[1] == NEWLINE then 2
    else if t != [] && (t[0] == RETURN || t[0] == NEWLINE) then 1
    else 0
  }

  // ------------------------------------------------------------------------ one line

  /** White space and line terminators, as trimming and the regular expressions take them. */
  predicate IsSpace(u: CodeUnit) {
    || 0x09 <= u <= 0x0d || u == 0x20 || u == 0xa0 || u == 0x1680 || 0x2000 <= u <= 0x200a
    || u == 0x2028 || u == 0x2029 || u == 0x202f || u == 0x205f || u == 0x3000 || u == 0xfeff
  }

  function TrimStart(t: Text): Text {
    if t != [] && IsSpace(t[0]) then TrimStart(t[1..]) else t
  }

  function TrimEnd(t: Text): Text {
    if t != [] && IsSpace(t[|t| - 1]) then TrimEnd(t[..|t| - 1]) else t
  }

  function Trim(t: Text): Text {
    TrimEnd(TrimStart(t))
  }

  /** Columns of leading blank, a tab counting four; counting stops once past the limit. */
  function IndentFrom(line: Text, columns: nat): nat {
    if columns > MAX_FENCE_INDENT_COLUMNS || line == [] then columns
    else if line[0] == SPACE then IndentFrom(line[1..], columns + 1)
    else if line[0] == TAB then IndentFrom(line[1..], columns + 4)
    else columns
  }

  method IndentColumns(line: Text) returns (columns: nat)
    ensures columns == IndentFrom(line, 0)
  {
    columns := 0;
    var n := 0;
    assert line[0..] == line;
    while n < |line| && (line[n] == SPACE || line[n] == TAB) && columns <= MAX_FENCE_INDENT_COLUMNS
      invariant 0 <= n <= |line|
      invariant IndentFrom(line, 0) == IndentFrom(line[n..], columns)
    {
      assert line[n..][1..] == line[n + 1..];
      columns := columns + (if line[n] == SPACE then 1 else 4);
      n := n + 1;
    }
  }

  predicate Indented(line: Text) {
    IndentFrom(line, 0) > MAX_FENCE_INDENT_COLUMNS
  }

  function RunLength(t: Text, u: CodeUnit): (n: nat)
    ensures n <= |t|
  {
    if t != [] && t[0] == u then 1 + RunLength(t[1..], u) else 0
  }

  /** The fence character, its run length, and the rest of the line. */
  datatype FenceLine = FenceLine(mark: CodeUnit, length: nat, rest: Text)

  predicate OneLine(t: Text) {
    forall i :: 0 <= i < |t| ==> t[i] !in {NEWLINE, RETURN, 0x2028, 0x2029}
  }

  function FenceOf(trimmed: Text): Option<FenceLine> {
    var u := if trimmed != [] && trimmed[0] == TILDE then TILDE else BACKTICK;
    var n := RunLength(trimmed, u);
    if n >= 3 && OneLine(trimmed[n..]) then Some(FenceLine(u, n, trimmed[n..])) else None
  }

  datatype Fence = Fence(mark: CodeUnit, length: nat, isFindings: bool)

  /** Closed only by its own character, at least as long, unindented and otherwise bare. */
  predicate Closes(line: Text, open: Fence) {
    !Indented(line) &&
    var f := FenceOf(Trim(line));
    f.Some? && f.value.mark == open.mark && f.value.length >= open.length && Trim(f.value.rest) == []
  }

  predicate Contains(t: Text, part: Text)
    decreases |t|
  {
    part <= t || (t != [] && Contains(t[1..], part))
  }

  function FirstWord(t: Text): Text {
    if t == [] || IsSpace(t[0]) then [] else [t[0]] + FirstWord(t[1..])
  }

  datatype Problem = BacktickInInfo | TildeFence | InfoNotExact | SecondBlock | TooLarge | NeverClosed

  datatype Opening = OpensNothing | Opens(fence: Fence) | Refused(problem: Problem)

  /** What a line outside any fence does. */
  function OpeningOf(line: Text): Opening {
    var trimmed := Trim(line);
    var f := FenceOf(trimmed);
    if Indented(line) || f.None? then OpensNothing
    else if f.value.mark == BACKTICK && BACKTICK in f.value.rest then
      if Contains(trimmed, INFO_STRING) then Refused(BacktickInInfo) else OpensNothing
    else
      var info := Trim(f.value.rest);
      if info != [] && FirstWord(info) == INFO_STRING then
        if f.value.mark == TILDE then Refused(TildeFence)
        else if info != INFO_STRING then Refused(InfoNotExact)
        else Opens(Fence(f.value.mark, f.value.length, true))
      else Opens(Fence(f.value.mark, f.value.length, false))
  }

  // ------------------------------------------------------------- the top-level fences

  /** A fence from its opening line to its closing line, or to the end if never closed. */
  datatype Region = Region(open: nat, close: nat, fence: Fence) | BadLine(open: nat, problem: Problem)

  function CloseAt(lines: seq<Text>, n: nat, fence: Fence): (m: nat)
    requires n <= |lines|
    ensures n <= m <= |lines|
    decreases |lines| - n
  {
    if n == |lines| || Closes(lines[n], fence) then n else CloseAt(lines, n + 1, fence)
  }

  /** The top-level fences from line n on, outside any fence; a refused line ends them. */
  function TopLevel(lines: seq<Text>, n: nat): seq<Region>
    requires n <= |lines|
    decreases |lines| - n
  {
    if n == |lines| then [] else
      match OpeningOf(lines[n])
      case OpensNothing => TopLevel(lines, n + 1)
      case Refused(problem) => [BadLine(n, problem)]
      case Opens(fence) =>
        var close := CloseAt(lines, n + 1, fence);
        [Region(n, close, fence)] + (if close < |lines| then TopLevel(lines, close + 1) else [])
  }

  function Size(lines: seq<Text>): nat {
    if lines == [] then 0 else Size(lines[..|lines| - 1]) + |lines[|lines| - 1]| + 1
  }

  datatype BlockRead = Absent | Unreadable(problem: Problem) | Block(content: Text)

  predicate IsFindings(r: Region) {
    r.Region? && r.fence.isFindings
  }

  /** What the regions amount to, taken in order, given the content found so far. */
  function Judge(lines: seq<Text>, regions: seq<Region>, content: Option<Text>): BlockRead
    requires forall r <- regions :: InLines(lines, r)
  {
    if regions == [] then (if content.None? then Absent else Block(content.value)) else
      assert regions[0] in regions && forall r <- regions[1..] :: r in regions;
      assert InLines(lines, regions[0]);
      match regions[0]
      case BadLine(_, problem) => Unreadable(problem)
      case Region(open, close, fence) =>
        if !fence.isFindings then Judge(lines, regions[1..], content)
        else if Size(lines[open + 1..close]) > MAX_FINDINGS_BLOCK_CHARS then Unreadable(TooLarge)
        else if close == |lines| then Unreadable(NeverClosed)
        else if content.Some? then Unreadable(SecondBlock)
        else Judge(lines, regions[1..], Some(Join(lines[open + 1..close])))
  }

  predicate InLines(lines: seq<Text>, r: Region) {
    r.Region? ==> r.open < r.close <= |lines|
  }

  lemma {:induction false} TopLevelInLines(lines: seq<Text>, n: nat)
    requires n <= |lines|
    ensures forall r <- TopLevel(lines, n) :: InLines(lines, r) && n <= r.open < |lines|
    decreases |lines| - n
  {
    hide OpeningOf, Closes;
    if n < |lines| {
      match OpeningOf(lines[n])
      case OpensNothing => TopLevelInLines(lines, n + 1);
      case Refused(_) =>
      case Opens(fence) =>
        var close := CloseAt(lines, n + 1, fence);
        if close < |lines| { TopLevelInLines(lines, close + 1); }
    }
  }

  function Read(lines: seq<Text>): BlockRead {
    TopLevelInLines(lines, 0);
    Judge(lines, TopLevel(lines, 0), None)
  }

  // ---------------------------------------------------------------------- the loop

  datatype OpenFence = OpenFence(fence: Fence, lines: seq<Text>, size: nat)

  lemma SizeGrows(lines: seq<Text>, line: Text)
    ensures Size(lines + [line]) == Size(lines) + |line| + 1
  {
    assert (lines + [line])[..|lines|] == lines;
  }

  lemma {:induction false} SizeOfPrefix(lines: seq<Text>, n: nat)
    requires n <= |lines|
    ensures Size(lines[..n]) <= Size(lines)
    decreases |lines| - n
  {
    if n == |lines| {
      assert lines[..n] == lines;
    } else {
      SizeOfPrefix(lines, n + 1);
      SizeGrows(lines[..n], lines[n]);
      assert lines[..n + 1] == lines[..n] + [lines[n]];
    }
  }

  /** What remains to be read from line n, with the fence opened at line start still open. */
  function ReadInside(lines: seq<Text>, start: nat, fence: Fence, content: Option<Text>): BlockRead
    requires start < |lines|
  {
    ReadFence(lines, start, CloseAt(lines, start + 1, fence), fence, content)
  }

  function ReadFence(lines: seq<Text>, start: nat, close: nat, fence: Fence, content: Option<Text>): BlockRead
    requires start < close <= |lines|
  {
    if !fence.isFindings then ReadOutside(lines, AfterFence(lines, close), content)
    else if Size(lines[start + 1..close]) > MAX_FINDINGS_BLOCK_CHARS then Unreadable(TooLarge)
    else if close == |lines| then Unreadable(NeverClosed)
    else if content.Some? then Unreadable(SecondBlock)
    else ReadOutside(lines, close + 1, Some(Join(lines[start + 1..close])))
  }

  function ReadOutside(lines: seq<Text>, n: nat, content: Option<Text>): BlockRead
    requires n <= |lines|
  {
    TopLevelInLines(lines, n);
    Judge(lines, TopLevel(lines, n), content)
  }

  lemma JudgeFirst(lines: seq<Text>, open: nat, close: nat, fence: Fence, rest: seq<Region>, content: Option<Text>)
    requires open < close <= |lines| && forall r <- rest :: InLines(lines, r)
    ensures var regions := [Region(open, close, fence)] + rest;
      && (forall r <- regions :: InLines(lines, r))
      && Judge(lines, regions, content) ==
         if !fence.isFindings then Judge(lines, rest, content)
         else if Size(lines[open + 1..close]) > MAX_FINDINGS_BLOCK_CHARS then Unreadable(TooLarge)
         else if close == |lines| then Unreadable(NeverClosed)
         else if content.Some? then Unreadable(SecondBlock)
         else Judge(lines, rest, Some(Join(lines[open + 1..close])))
  {
    var regions := [Region(open, close, fence)] + rest;
    assert regions[1..] == rest;
  }

  lemma FenceRead(lines: seq<Text>, n: nat, fence: Fence, content: Option<Text>)
    requires n < |lines| && OpeningOf(lines[n]) == Opens(fence)
    ensures ReadOutside(lines, n, content) == ReadInside(lines, n, fence, content)
  {
    hide OpeningOf, Closes, Join;
    var close := CloseAt(lines, n + 1, fence);
    var rest := TopLevel(lines, AfterFence(lines, close));
    TopLevelInLines(lines, AfterFence(lines, close));
    TopLevelAtFence(lines, n, fence);
    JudgeFirst(lines, n, close, fence, rest, content);
  }

  function AfterFence(lines: seq<Text>, close: nat): (n: nat)
    requires close <= |lines|
    ensures close <= n <= |lines|
  {
    if close < |lines| then close + 1 else close
  }

  lemma TopLevelAtFence(lines: seq<Text>, n: nat, fence: Fence)
    requires n < |lines| && OpeningOf(lines[n]) == Opens(fence)
    ensures var close := CloseAt(lines, n + 1, fence);
      TopLevel(lines, n) == [Region(n, close, fence)] + TopLevel(lines, AfterFence(lines, close))
  {
    hide OpeningOf, Closes;
    assert TopLevel(lines, |lines|) == [];
  }

  lemma {:induction false} CloseAtIsFirst(lines: seq<Text>, n: nat, fence: Fence)
    requires n <= |lines|
    ensures var m := CloseAt(lines, n, fence);
      && (forall j :: n <= j < m ==> !Closes(lines[j], fence))
      && (m < |lines| ==> Closes(lines[m], fence))
    decreases |lines| - n
  {
    hide OpeningOf, Closes;
    if n < |lines| && !Closes(lines[n], fence) { CloseAtIsFirst(lines, n + 1, fence); }
  }

  /** Where the loop stands before line n: outside any fence, or inside the one opened at start. */
  ghost predicate Tracks(lines: seq<Text>, start: nat, n: nat, open: Option<OpenFence>, content: Option<Text>)
    requires n <= |lines|
  {
    match open
    case None => Read(lines) == ReadOutside(lines, n, content)
    case Some(o) => Inside(lines, start, n, o) && Read(lines) == ReadInside(lines, start, o.fence, content)
  }

  /** The accumulated lines of a fence opened at line start and still open before line n. */
  ghost predicate Inside(lines: seq<Text>, start: nat, n: nat, open: OpenFence)
    requires n <= |lines|
  {
    && start < n <= CloseAt(lines, start + 1, open.fence)
    && (open.fence.isFindings ==>
          open.lines == lines[start + 1..n] && open.size == Size(open.lines) <= MAX_FINDINGS_BLOCK_CHARS)
  }

  /** One line met outside any fence. */
  method ReadLineOutside(ghost lines: seq<Text>, ghost n: nat, line: Text, content: Option<Text>)
    returns (open: Option<OpenFence>, answer: Option<BlockRead>)
    requires n < |lines| && line == lines[n]
    requires Tracks(lines, n, n, None, content)
    ensures answer.Some? ==> answer.value == Read(lines)
    ensures answer.None? ==> Tracks(lines, n, n + 1, open, content)
  {
    open, answer := None, None;
    var columns := IndentColumns(line);
    if columns > MAX_FENCE_INDENT_COLUMNS { return; }
    match OpeningOf(line)
    case OpensNothing =>
    case Refused(problem) => answer := Some(Unreadable(problem));
    case Opens(fence) =>
      FenceRead(lines, n, fence, content);
      open := Some(OpenFence(fence, [], 0));
  }

  lemma ClosedHere(lines: seq<Text>, start: nat, n: nat, open: OpenFence, content: Option<Text>)
    requires n < |lines| && Inside(lines, start, n, open) && Closes(lines[n], open.fence)
    ensures ReadInside(lines, start, open.fence, content) ==
      if !open.fence.isFindings then ReadOutside(lines, n + 1, content)
      else if content.Some? then Unreadable(SecondBlock)
      else ReadOutside(lines, n + 1, Some(Join(open.lines)))
  {
    hide OpeningOf, Closes, Join;
    CloseReached(lines, start + 1, n, open.fence);
  }

  lemma CloseReached(lines: seq<Text>, from: nat, n: nat, fence: Fence)
    requires from <= n < |lines| && n <= CloseAt(lines, from, fence)
    ensures CloseAt(lines, from, fence) == n <==> Closes(lines[n], fence)
  {
    CloseAtIsFirst(lines, from, fence);
  }

  lemma StillOpen(lines: seq<Text>, start: nat, n: nat, open: OpenFence)
    requires n < |lines| && Inside(lines, start, n, open) && !Closes(lines[n], open.fence)
    ensures n + 1 <= CloseAt(lines, start + 1, open.fence)
    ensures lines[start + 1..n + 1] == lines[start + 1..n] + [lines[n]]
    ensures open.fence.isFindings ==> Size(lines[start + 1..n + 1]) == open.size + |lines[n]| + 1
  {
    hide OpeningOf, Closes, Join;
    CloseReached(lines, start + 1, n, open.fence);
    OneMoreLine(lines, start + 1, n);
  }

  lemma OneMoreLine(lines: seq<Text>, from: nat, n: nat)
    requires from <= n < |lines|
    ensures lines[from..n + 1] == lines[from..n] + [lines[n]]
    ensures Size(lines[from..n + 1]) == Size(lines[from..n]) + |lines[n]| + 1
  {
    assert lines[from..n + 1] == lines[from..n] + [lines[n]];
    SizeGrows(lines[from..n], lines[n]);
  }

  lemma TooLargeAlready(lines: seq<Text>, start: nat, n: nat, fence: Fence, content: Option<Text>)
    requires start < n <= |lines| && n <= CloseAt(lines, start + 1, fence) && fence.isFindings
    requires Size(lines[start + 1..n]) > MAX_FINDINGS_BLOCK_CHARS
    ensures ReadInside(lines, start, fence, content) == Unreadable(TooLarge)
  {
    var close := CloseAt(lines, start + 1, fence);
    SizeOfPrefix(lines[start + 1..close], n - start - 1);
    assert lines[start + 1..close][..n - start - 1] == lines[start + 1..n];
  }

  /** One line met while a fence is open. */
  method ReadLineInside(
    ghost lines: seq<Text>, ghost start: nat, ghost n: nat, line: Text, o: OpenFence, content: Option<Text>
  )
    returns (open: Option<OpenFence>, content': Option<Text>, answer: Option<BlockRead>)
    requires n < |lines| && line == lines[n]
    requires Tracks(lines, start, n, Some(o), content)
    ensures answer.Some? ==> answer.value == Read(lines)
    ensures answer.None? ==> Tracks(lines, start, n + 1, open, content')
  {
    open, content', answer := Some(o), content, None;
    var columns := IndentColumns(line);
    if columns <= MAX_FENCE_INDENT_COLUMNS && Closes(line, o.fence) {
      ClosedHere(lines, start, n, o, content);
      open := None;
      if o.fence.isFindings {
        if content.Some? { return None, content, Some(Unreadable(SecondBlock)); }
        content' := Some(Join(o.lines));
      }
      return;
    }
    StillOpen(lines, start, n, o);
    if o.fence.isFindings {
      var size := o.size + |line| + 1;
      if size > MAX_FINDINGS_BLOCK_CHARS {
        TooLargeAlready(lines, start, n + 1, o.fence, content);
        return open, content, Some(Unreadable(TooLarge));
      }
      open := Some(OpenFence(o.fence, o.lines + [line], size));
    }
  }

  lemma NothingRead(lines: seq<Text>)
    ensures Tracks(lines, 0, 0, None, None)
  {
  }

  lemma NoFenceOpen(lines: seq<Text>, start: nat, n: nat, open: Option<OpenFence>, content: Option<Text>)
    requires n <= |lines| && Tracks(lines, start, n, open, content) && open.None?
    ensures Tracks(lines, n, n, open, content)
  {
  }

  /** What the loop answers once every line was read. */
  lemma LinesRanOut(lines: seq<Text>, start: nat, open: Option<OpenFence>, content: Option<Text>)
    requires Tracks(lines, start, |lines|, open, content)
    ensures Read(lines) ==
      if open.Some? && open.value.fence.isFindings then Unreadable(NeverClosed)
      else if content.None? then Absent
      else Block(content.value)
  {
    hide OpeningOf, Closes, Join;
    assert TopLevel(lines, |lines|) == [];
  }

  method ParseFindingsBlock(body: Text) returns (read: BlockRead)
    ensures read == Read(SplitLines(body))
  {
    hide SplitLines, Tracks, Read, Join;
    var lines := SplitLines(body);
    var open: Option<OpenFence> := None;
    var content: Option<Text> := None;
    ghost var start := 0;
    NothingRead(lines);
    for n := 0 to |lines|
      invariant Tracks(lines, start, n, open, content)
    {
      var answer: Option<BlockRead>;
      if open.Some? {
        open, content, answer := ReadLineInside(lines, start, n, lines[n], open.value, content);
      } else {
        NoFenceOpen(lines, start, n, open, content);
        open, answer := ReadLineOutside(lines, n, lines[n], content);
        start := n;
      }
      if answer.Some? { return answer.value; }
    }
    LinesRanOut(lines, start, open, content);
    if open.Some? && open.value.fence.isFindings { return Unreadable(NeverClosed); }
    if content.None? { read := Absent; } else { read := Block(content.value); }
  }

  // --------------------------------------------------------------- what reading means

  /** A line that opens, or is refused as an opening, is never passed over outside a fence. */
  ghost predicate Covered(lines: seq<Text>, r: Region, m: nat) {
    match r
    case Region(open, close, fence) => open <= m <= close
    case BadLine(open, _) => open <= m
  }

  /**
   * Each top-level region opens at a line that opens it and closes at the first line that closes
   * it, and no opening is left out. That is how section 4.5 of CommonMark nests fences; which lines
   * open and close is the code's own account, which trims any Unicode space around a fence, as
   * NoBreakSpaceIsTrimmed shows.
   */
  lemma {:induction false} TopLevelIsFaithful(lines: seq<Text>, n: nat, m: nat)
    requires n <= m < |lines|
    ensures forall r <- TopLevel(lines, n) :: Faithful(lines, r)
    ensures !OpeningOf(lines[m]).OpensNothing? ==> exists r <- TopLevel(lines, n) :: Covered(lines, r, m)
    decreases |lines| - n
  {
    hide OpeningOf, Closes, Faithful, CloseAt;
    RegionsFaithful(lines, n);
    match OpeningOf(lines[n])
    case OpensNothing => if n < m { TopLevelIsFaithful(lines, n + 1, m); }
    case Refused(problem) => assert Covered(lines, BadLine(n, problem), m);
    case Opens(fence) =>
      var close := CloseAt(lines, n + 1, fence);
      TopLevelAtFence(lines, n, fence);
      if m <= close {
        assert Region(n, close, fence) == TopLevel(lines, n)[0] && Covered(lines, Region(n, close, fence), m);
      } else {
        TopLevelIsFaithful(lines, close + 1, m);
        assert TopLevel(lines, n)[1..] == TopLevel(lines, close + 1);
      }
  }

  ghost predicate Faithful(lines: seq<Text>, r: Region) {
    match r
    case BadLine(open, problem) => open < |lines| && OpeningOf(lines[open]) == Refused(problem)
    case Region(open, close, fence) =>
      && open < close <= |lines|
      && OpeningOf(lines[open]) == Opens(fence)
      && (forall j :: open < j < close ==> !Closes(lines[j], fence))
      && (close < |lines| ==> Closes(lines[close], fence))
  }

  lemma {:induction false} RegionsFaithful(lines: seq<Text>, n: nat)
    requires n <= |lines|
    ensures forall r <- TopLevel(lines, n) :: Faithful(lines, r)
    decreases |lines| - n
  {
    hide OpeningOf, Closes;
    if n < |lines| {
      match OpeningOf(lines[n])
      case OpensNothing => RegionsFaithful(lines, n + 1);
      case Refused(_) =>
      case Opens(fence) =>
        var close := CloseAt(lines, n + 1, fence);
        CloseAtIsFirst(lines, n + 1, fence);
        if close < |lines| { RegionsFaithful(lines, close + 1); }
    }
  }

  // ---- accepted exactly when there is one findings block, closed, in bounds, nothing refused

  ghost predicate Fine(lines: seq<Text>, r: Region) {
    r.Region? && (r.fence.isFindings ==>
      r.open < r.close < |lines| && Size(lines[r.open + 1..r.close]) <= MAX_FINDINGS_BLOCK_CHARS)
  }

  function FindingsOf(regions: seq<Region>): seq<Region> {
    if regions == [] then [] else
      (if IsFindings(regions[0]) then [regions[0]] else []) + FindingsOf(regions[1..])
  }

  /** The content of the one findings block, or of the one already found. */
  ghost predicate OneBlock(lines: seq<Text>, regions: seq<Region>, content: Option<Text>, text: Text) {
    && (forall r <- regions :: Fine(lines, r))
    && var found := FindingsOf(regions);
       if content.Some? then found == [] && text == content.value
       else |found| == 1 && text == ContentOf(lines, found[0])
  }

  function ContentOf(lines: seq<Text>, r: Region): Text {
    if r.Region? && r.open < r.close <= |lines| then Join(lines[r.open + 1..r.close]) else []
  }

  lemma OneBlockFirst(lines: seq<Text>, r: Region, rest: seq<Region>, content: Option<Text>, text: Text)
    ensures OneBlock(lines, [r] + rest, content, text) <==>
      Fine(lines, r) &&
      (if IsFindings(r) then content.None? && OneBlock(lines, rest, Some(ContentOf(lines, r)), text)
       else OneBlock(lines, rest, content, text))
  {
    hide Size, Join;
    var regions := [r] + rest;
    assert regions[1..] == rest;
    FindingsFound(rest);
    assert FindingsOf(regions) == (if IsFindings(r) then [r] else []) + FindingsOf(rest);
    assert (forall x <- regions :: Fine(lines, x)) <==> Fine(lines, r) && forall x <- rest :: Fine(lines, x);
    if IsFindings(r) {
      assert FindingsOf(regions)[0] == r;
    } else {
      assert FindingsOf(regions) == FindingsOf(rest);
    }
  }

  lemma {:induction false} JudgedBlock(lines: seq<Text>, regions: seq<Region>, content: Option<Text>, text: Text)
    requires forall r <- regions :: InLines(lines, r)
    ensures Judge(lines, regions, content) == Block(text) <==> OneBlock(lines, regions, content, text)
  {
    hide Size, Join;
    if regions != [] {
      var r, rest := regions[0], regions[1..];
      assert regions == [r] + rest;
      assert r in regions && InLines(lines, r);
      OneBlockFirst(lines, r, rest, content, text);
      if r.Region? {
        JudgedBlock(lines, rest, if r.fence.isFindings then Some(ContentOf(lines, r)) else content, text);
      }
    }
  }

  lemma {:induction false} FindingsFound(regions: seq<Region>)
    ensures forall r :: r in FindingsOf(regions) <==> r in regions && IsFindings(r)
  {
    if regions != [] {
      assert regions == [regions[0]] + regions[1..];
      FindingsFound(regions[1..]);
    }
  }

  /**
   * Content is accepted exactly when one findings block was opened, it was closed, it fits
   * the size bound and no line was refused; and it is the lines between its fences.
   */
  lemma AcceptedExactlyWhen(lines: seq<Text>, text: Text)
    ensures Read(lines) == Block(text) <==>
      (forall r <- TopLevel(lines, 0) :: Fine(lines, r)) &&
      |FindingsOf(TopLevel(lines, 0))| == 1 && text == ContentOf(lines, FindingsOf(TopLevel(lines, 0))[0])
  {
    TopLevelInLines(lines, 0);
    JudgedBlock(lines, TopLevel(lines, 0), None, text);
    FindingsFound(TopLevel(lines, 0));
  }

  lemma {:induction false} JudgedAbsent(lines: seq<Text>, regions: seq<Region>, content: Option<Text>)
    requires forall r <- regions :: InLines(lines, r)
    ensures Judge(lines, regions, content) == Absent <==>
      content.None? && forall r <- regions :: r.Region? && !r.fence.isFindings
  {
    hide Size, Join;
    if regions != [] {
      var r, rest := regions[0], regions[1..];
      assert regions == [r] + rest;
      assert r in regions && InLines(lines, r);
      if r.Region? {
        JudgedAbsent(lines, rest, content);
        if r.fence.isFindings { JudgedAbsent(lines, rest, Some(Join(lines[r.open + 1..r.close]))); }
      }
    }
  }

  /** Absent means that no findings fence was opened at all, and none was refused. */
  lemma AbsentExactlyWhen(lines: seq<Text>)
    ensures Read(lines) == Absent <==> forall r <- TopLevel(lines, 0) :: r.Region? && !r.fence.isFindings
  {
    TopLevelInLines(lines, 0);
    JudgedAbsent(lines, TopLevel(lines, 0), None);
  }

  // --------------------------------------------------------------------- a cut response

  /** Two responses that share their first k lines. */
  ghost predicate Share(lines: seq<Text>, other: seq<Text>, k: nat) {
    k <= |lines| && k <= |other| && forall j :: 0 <= j < k ==> lines[j] == other[j]
  }

  ghost predicate NoneCloses(lines: seq<Text>, k: nat, fence: Fence) {
    forall j :: k <= j < |lines| ==> !Closes(lines[j], fence)
  }

  lemma {:induction false} CloseShared(lines: seq<Text>, other: seq<Text>, n: nat, k: nat, fence: Fence)
    requires Share(lines, other, k) && n <= k && CloseAt(lines, n, fence) < k
    ensures CloseAt(other, n, fence) == CloseAt(lines, n, fence)
    decreases k - n
  {
    hide OpeningOf, Closes;
    if n < k && !Closes(lines[n], fence) { CloseShared(lines, other, n + 1, k, fence); }
  }

  lemma {:induction false} CloseCut(lines: seq<Text>, other: seq<Text>, n: nat, k: nat, fence: Fence)
    requires Share(lines, other, k) && n <= k <= CloseAt(lines, n, fence) && NoneCloses(other, k, fence)
    ensures CloseAt(other, n, fence) == |other|
  {
    hide OpeningOf, Closes;
    CloseAtIsFirst(lines, n, fence);
    CloseAtIsFirst(other, n, fence);
  }

  lemma FirstRegion(lines: seq<Text>, n: nat, close: nat, fence: Fence)
    requires n < |lines| && OpeningOf(lines[n]) == Opens(fence) && close == CloseAt(lines, n + 1, fence)
    ensures Region(n, close, fence) in TopLevel(lines, n)
  {
    hide OpeningOf, Closes;
    TopLevelAtFence(lines, n, fence);
    AtHead(Region(n, close, fence), TopLevel(lines, AfterFence(lines, close)));
  }

  lemma AtHead(first: Region, rest: seq<Region>)
    ensures first in [first] + rest
  {
    assert ([first] + rest)[0] == first;
  }

  lemma RestRegion(lines: seq<Text>, n: nat, fence: Fence, r: Region)
    requires n < |lines| && OpeningOf(lines[n]) == Opens(fence)
    requires r in TopLevel(lines, AfterFence(lines, CloseAt(lines, n + 1, fence)))
    ensures r in TopLevel(lines, n)
  {
    hide OpeningOf, Closes;
    TopLevelAtFence(lines, n, fence);
  }

  /** A region after the first fence starts after that fence closes. */
  lemma LaterRegion(lines: seq<Text>, n: nat, fence: Fence, r: Region)
    requires n < |lines| && OpeningOf(lines[n]) == Opens(fence)
    requires r in TopLevel(lines, n) && r != Region(n, CloseAt(lines, n + 1, fence), fence)
    ensures var close := CloseAt(lines, n + 1, fence);
      close < r.open < |lines| && r in TopLevel(lines, close + 1)
  {
    hide OpeningOf, Closes;
    var close := CloseAt(lines, n + 1, fence);
    TopLevelAtFence(lines, n, fence);
    assert r in TopLevel(lines, AfterFence(lines, close));
    TopLevelInLines(lines, AfterFence(lines, close));
  }

  lemma SameFirstFence(lines: seq<Text>, other: seq<Text>, n: nat, k: nat, fence: Fence, r: Region)
    requires Share(lines, other, k) && n < k && OpeningOf(lines[n]) == Opens(fence)
    requires CloseAt(lines, n + 1, fence) < k
    requires r in TopLevel(other, CloseAt(lines, n + 1, fence) + 1)
    ensures r in TopLevel(other, n)
  {
    hide OpeningOf, Closes;
    CloseShared(lines, other, n + 1, k, fence);
    RestRegion(other, n, fence, r);
  }

  /** A region open at the cut stays open if nothing after the cut closes it. */
  lemma {:induction false} CutRegion(lines: seq<Text>, other: seq<Text>, n: nat, k: nat, r: Region)
    requires Share(lines, other, k) && n <= k
    requires r in TopLevel(lines, n) && r.Region? && r.open < k <= r.close
    requires NoneCloses(other, k, r.fence)
    ensures Region(r.open, |other|, r.fence) in TopLevel(other, n)
    decreases |lines| - n
  {
    hide OpeningOf, Closes, CloseAt;
    TopLevelInLines(lines, n);
    match OpeningOf(lines[n])
    case OpensNothing => CutRegion(lines, other, n + 1, k, r);
    case Refused(_) =>
    case Opens(fence) =>
      var close := CloseAt(lines, n + 1, fence);
      if r == Region(n, close, fence) {
        CloseCut(lines, other, n + 1, k, fence);
        FirstRegion(other, n, |other|, fence);
      } else {
        LaterRegion(lines, n, fence, r);
        CutRegion(lines, other, close + 1, k, r);
        SameFirstFence(lines, other, n, k, fence, Region(r.open, |other|, r.fence));
      }
  }

  lemma {:induction false} UnclosedIsUnreadable(
    lines: seq<Text>, regions: seq<Region>, content: Option<Text>, r: Region
  )
    requires forall x <- regions :: InLines(lines, x)
    requires r in regions && IsFindings(r) && r.close == |lines|
    ensures Judge(lines, regions, content).Unreadable?
  {
    hide Size, Join;
    var first, rest := regions[0], regions[1..];
    assert regions == [first] + rest;
    assert first in regions && InLines(lines, first);
    if first.Region? && first != r {
      UnclosedIsUnreadable(lines, rest, content, r);
      if first.fence.isFindings {
        UnclosedIsUnreadable(lines, rest, Some(Join(lines[first.open + 1..first.close])), r);
      }
    }
  }

  /**
   * A response that stops inside a findings block is unreadable, never absent: cut at the
   * line boundary k, or carrying on from there without a line that closes the block.
   */
  lemma CutInsideBlockIsUnreadable(lines: seq<Text>, other: seq<Text>, k: nat, r: Region)
    requires r in TopLevel(lines, 0) && IsFindings(r) && r.open < k <= r.close
    requires Share(lines, other, k) && NoneCloses(other, k, r.fence)
    ensures Read(other).Unreadable?
  {
    hide OpeningOf, Closes, TopLevel, NoneCloses;
    CutRegion(lines, other, 0, k, r);
    TopLevelInLines(other, 0);
    UnclosedIsUnreadable(other, TopLevel(other, 0), None, Region(r.open, |other|, r.fence));
  }

  predicate EndsLine(t: Text) {
    t != [] && (t[|t| - 1] == RETURN || t[|t| - 1] == NEWLINE)
  }

  lemma EndOfPrefix(a: Text, b: Text)
    requires a != []
    ensures EndOfLine(a + b) == EndOfLine(a) || (|a| == 1 && a[0] == RETURN && b != [] && b[0] == NEWLINE)
  {
  }

  lemma ShareOneMore(first: Text, a: seq<Text>, b: seq<Text>, k: nat)
    requires Share(a, b, k)
    ensures Share([first] + a, [first] + b, k + 1)
  {
  }

  lemma ShareLonger(u: CodeUnit, a: seq<Text>, b: seq<Text>, k: nat)
    requires a != [] && b != [] && Share(a, b, k)
    ensures Share(LongerFirst(u, a), LongerFirst(u, b), k)
  {
    if k > 0 { assert a[0] == b[0]; }
  }

  lemma OnlyLineEnd(a: Text, b: Text)
    requires a != [] && EndOfLine(a) == |a|
    ensures SplitLines(a) == [[], []]
    ensures SplitLines(a + b)[0] == []
  {
    EndOfPrefix(a, b);
    assert a[|a|..] == [];
    assert SplitLines(a[|a|..]) == [[]];
  }

  /** How a text splits when another follows it: into the same lines, all but the last of them. */
  ghost predicate Prefixes(a: Text, b: Text) {
    && Share(SplitLines(a + b), SplitLines(a), |SplitLines(a)| - 1)
    && (EndsLine(a) ==> |SplitLines(a)| >= 2 && SplitLines(a)[|SplitLines(a)| - 1] == [])
  }

  lemma PastLineEnd(a: Text, b: Text, n: nat)
    requires 0 < n == EndOfLine(a) < |a| && Prefixes(a[n..], b)
    ensures Prefixes(a, b)
  {
    EndOfPrefix(a, b);
    DropFirst(a, b, n);
    ShareOneMore([], SplitLines(a[n..] + b), SplitLines(a[n..]), |SplitLines(a[n..])| - 1);
  }

  lemma SplitUnit(t: Text)
    requires t != [] && EndOfLine(t) == 0
    ensures SplitLines(t) == LongerFirst(t[0], SplitLines(t[1..]))
  {
  }

  lemma EndsLater(t: Text)
    requires t != [] && EndOfLine(t) == 0
    ensures EndsLine(t) ==> EndsLine(t[1..])
  {
  }

  lemma PastUnit(a: Text, b: Text)
    requires a != [] && EndOfLine(a) == 0 && Prefixes(a[1..], b)
    ensures Prefixes(a, b)
  {
    hide SplitLines, LongerFirst, EndsLine;
    EndOfPrefix(a, b);
    DropFirst(a, b, 1);
    EndsLater(a);
    SplitUnit(a);
    SplitUnit(a + b);
    ShareLonger(a[0], SplitLines(a[1..] + b), SplitLines(a[1..]), |SplitLines(a[1..])| - 1);
  }

  lemma DropFirst(a: Text, b: Text, n: nat)
    requires n <= |a|
    ensures (a + b)[n..] == a[n..] + b
  {
  }

  /** A text splits into the lines it shares with any continuation, and what it has of the next one. */
  lemma {:induction false} SplitPrefix(a: Text, b: Text)
    ensures Prefixes(a, b)
    decreases |a|
  {
    if a != [] {
      var n := EndOfLine(a);
      if n == |a| {
        OnlyLineEnd(a, b);
      } else if n > 0 {
        SplitPrefix(a[n..], b);
        PastLineEnd(a, b, n);
      } else {
        SplitPrefix(a[1..], b);
        PastUnit(a, b);
      }
    }
  }

  lemma BlankClosesNothing(fence: Fence)
    ensures !Closes([], fence)
  {
  }

  /** So a response cut off at any line end inside a findings block is unreadable. */
  lemma CutResponseIsUnreadable(cut: Text, rest: Text, r: Region)
    requires EndsLine(cut)
    requires r in TopLevel(SplitLines(cut + rest), 0) && IsFindings(r)
    requires r.open < |SplitLines(cut)| - 1 <= r.close
    ensures Read(SplitLines(cut)).Unreadable?
  {
    hide OpeningOf, Closes, SplitLines, Read, TopLevel;
    var lines, k := SplitLines(cut), |SplitLines(cut)| - 1;
    SplitPrefix(cut, rest);
    BlankClosesNothing(r.fence);
    CutInsideBlockIsUnreadable(SplitLines(cut + rest), lines, k, r);
  }

  /** The regions before the one opened at a line: the same, wherever the text is cut after that line. */
  ghost predicate Before(regions: seq<Region>, before: seq<Region>, open: nat) {
    && (forall q <- before :: q.Region? && q.open < q.close < open)
    && (forall q :: q in before <==> q in regions && q.open < open)
  }

  lemma CutAtFirst(lines: seq<Text>, other: seq<Text>, n: nat, k: nat, fence: Fence)
    requires Share(lines, other, k) && n < k && |other| == k + 1 && OpeningOf(lines[n]) == Opens(fence)
    requires k <= CloseAt(lines, n + 1, fence) && Closes(other[k], fence)
    ensures TopLevel(other, n) == [Region(n, k, fence)]
    ensures Before(TopLevel(lines, n), [], n)
  {
    hide OpeningOf, Closes, CloseAt;
    CloseAtIsFirst(lines, n + 1, fence);
    CloseAtIsFirst(other, n + 1, fence);
    assert CloseAt(other, n + 1, fence) == k;
    TopLevelAtFence(other, n, fence);
    NoneLeft(other);
    TopLevelInLines(lines, n);
  }

  lemma NoneLeft(lines: seq<Text>)
    ensures TopLevel(lines, |lines|) == []
  {
  }

  lemma BeforeOneMore(lines: seq<Text>, n: nat, fence: Fence, before: seq<Region>, open: nat)
    requires n < |lines| && OpeningOf(lines[n]) == Opens(fence) && CloseAt(lines, n + 1, fence) < open
    requires CloseAt(lines, n + 1, fence) < |lines|
    requires Before(TopLevel(lines, CloseAt(lines, n + 1, fence) + 1), before, open)
    ensures Before(TopLevel(lines, n), [Region(n, CloseAt(lines, n + 1, fence), fence)] + before, open)
  {
    hide OpeningOf, Closes;
    TopLevelAtFence(lines, n, fence);
  }

  lemma CutAfterFence(
    lines: seq<Text>, other: seq<Text>, n: nat, k: nat, fence: Fence, later: seq<Region>, r: Region
  )
    returns (before: seq<Region>)
    requires Share(lines, other, k) && n < k && |other| == k + 1 && OpeningOf(lines[n]) == Opens(fence)
    requires r.Region? && CloseAt(lines, n + 1, fence) < r.open < k
    requires TopLevel(other, CloseAt(lines, n + 1, fence) + 1) == later + [Region(r.open, k, r.fence)]
    requires Before(TopLevel(lines, CloseAt(lines, n + 1, fence) + 1), later, r.open)
    ensures TopLevel(other, n) == before + [Region(r.open, k, r.fence)]
    ensures Before(TopLevel(lines, n), before, r.open)
  {
    hide OpeningOf, Closes, Before, CloseAt, TopLevel;
    var first := Region(n, CloseAt(lines, n + 1, fence), fence);
    CloseShared(lines, other, n + 1, k, fence);
    TopLevelAtFence(other, n, fence);
    before := [first] + later;
    BeforeOneMore(lines, n, fence, later, r.open);
    assert [first] + (later + [Region(r.open, k, r.fence)]) == before + [Region(r.open, k, r.fence)];
  }

  lemma TopLevelPastLine(lines: seq<Text>, n: nat)
    requires n < |lines|
    ensures OpeningOf(lines[n]) == OpensNothing ==> TopLevel(lines, n) == TopLevel(lines, n + 1)
    ensures OpeningOf(lines[n]).Refused? ==> forall r <- TopLevel(lines, n) :: r.BadLine?
  {
    hide OpeningOf;
  }

  /** Cut in the last line it has of a region, which closes the region, a text has no region after it. */
  lemma {:induction false} CutClosed(lines: seq<Text>, other: seq<Text>, n: nat, k: nat, r: Region)
    returns (before: seq<Region>)
    requires Share(lines, other, k) && n <= k && |other| == k + 1
    requires r in TopLevel(lines, n) && r.Region? && r.open < k <= r.close && Closes(other[k], r.fence)
    ensures TopLevel(other, n) == before + [Region(r.open, k, r.fence)]
    ensures Before(TopLevel(lines, n), before, r.open)
    decreases |lines| - n
  {
    hide OpeningOf, Closes, CloseAt, Before, InLines, TopLevel;
    TopLevelInLines(lines, n);
    TopLevelPastLine(lines, n);
    TopLevelPastLine(other, n);
    match OpeningOf(lines[n])
    case OpensNothing =>
      before := CutClosed(lines, other, n + 1, k, r);
    case Refused(_) =>
    case Opens(fence) =>
      var close := CloseAt(lines, n + 1, fence);
      if r == Region(n, close, fence) {
        CutAtFirst(lines, other, n, k, fence);
        before := [];
      } else {
        LaterRegion(lines, n, fence, r);
        before := CutClosed(lines, other, close + 1, k, r);
        before := CutAfterFence(lines, other, n, k, fence, before, r);
      }
  }

  lemma {:induction false} FindingsAppended(regions: seq<Region>, r: Region)
    requires IsFindings(r)
    ensures FindingsOf(regions + [r]) == FindingsOf(regions) + [r]
  {
    if regions == [] {
      assert [] + [r] == [r];
      assert [r][1..] == [];
    } else {
      FindingsAppended(regions[1..], r);
      assert (regions + [r])[1..] == regions[1..] + [r];
    }
  }

  ghost predicate HasFindings(regions: seq<Region>) {
    exists q :: q in regions && IsFindings(q)
  }

  /** What a text reads as whose last fence is a findings block. */
  lemma LastBlockRead(lines: seq<Text>, before: seq<Region>, r: Region)
    requires IsFindings(r) && r.open < r.close < |lines| && TopLevel(lines, 0) == before + [r]
    requires forall q <- before :: q.Region?
    ensures
      if HasFindings(before) || Size(lines[r.open + 1..r.close]) > MAX_FINDINGS_BLOCK_CHARS
      then Read(lines).Unreadable?
      else Read(lines) == Block(Join(lines[r.open + 1..r.close]))
  {
    hide OpeningOf, Closes, TopLevel, Read, Size, Join, FindingsOf;
    var regions := TopLevel(lines, 0);
    assert regions[|before|] == r;
    AbsentExactlyWhen(lines);
    FindingsAppended(before, r);
    FindingsFound(before);
    var text := if Read(lines).Block? then Read(lines).content else ContentOf(lines, r);
    AcceptedExactlyWhen(lines, text);
    if FindingsOf(before) != [] {
      assert FindingsOf(before)[0] in before;
    } else {
      assert forall q <- before :: Fine(lines, q);
      assert FindingsOf(regions) == [r];
    }
  }

  /** What a response cut in line k reads as, where the line before the cut belongs to a findings block. */
  ghost predicate ReadsAsCut(lines: seq<Text>, whole: seq<Text>, r: Region)
    requires lines != [] && r.Region? && r.open < |lines| - 1
  {
    var k := |lines| - 1;
    var content := lines[r.open + 1..k];
    if Closes(lines[k], r.fence) && Size(content) <= MAX_FINDINGS_BLOCK_CHARS && !FindingsBefore(whole, r.open)
    then Read(lines) == Block(Join(content))
    else Read(lines).Unreadable?
  }

  /** A findings block opened before a line. */
  ghost predicate FindingsBefore(lines: seq<Text>, n: nat) {
    exists q :: q in TopLevel(lines, 0) && IsFindings(q) && q.open < n
  }

  lemma CutLines(lines: seq<Text>, other: seq<Text>, k: nat, r: Region)
    requires Share(lines, other, k) && |other| == k + 1
    requires r in TopLevel(lines, 0) && IsFindings(r) && r.open < k <= r.close
    ensures ReadsAsCut(other, lines, r)
  {
    hide OpeningOf, Closes, TopLevel, Read, Size, Join;
    if Closes(other[k], r.fence) {
      var before := CutClosed(lines, other, 0, k, r);
      LastBlockRead(other, before, Region(r.open, k, r.fence));
      assert HasFindings(before) <==> FindingsBefore(lines, r.open);
    } else {
      CutInsideBlockIsUnreadable(lines, other, k, r);
    }
  }

  /**
   * A response cut anywhere past the opening line of a findings block, and not past its closing
   * line, is never absent. It is unreadable unless what is left of the last line closes the block
   * by itself; then the block reads as a whole one would, though its content is cut.
   */
  lemma CutResponse(cut: Text, rest: Text, r: Region)
    requires r in TopLevel(SplitLines(cut + rest), 0) && IsFindings(r)
    requires r.open < |SplitLines(cut)| - 1 <= r.close
    ensures ReadsAsCut(SplitLines(cut), SplitLines(cut + rest), r)
  {
    hide OpeningOf, Closes, SplitLines, TopLevel, ReadsAsCut;
    SplitPrefix(cut, rest);
    CutLines(SplitLines(cut + rest), SplitLines(cut), |SplitLines(cut)| - 1, r);
  }

  // ---- lines that open or close a fence

  const TICKS: Text := [BACKTICK, BACKTICK, BACKTICK]

  /** Three backticks and what follows them, with nothing to trim. */
  lemma TickLine(rest: Text)
    requires OneLine(rest) && (rest != [] ==> rest[0] != BACKTICK && !IsSpace(rest[|rest| - 1]))
    ensures Trim(TICKS + rest) == TICKS + rest && !Indented(TICKS + rest)
    ensures FenceOf(TICKS + rest) == Some(FenceLine(BACKTICK, 3, rest))
  {
    var line := TICKS + rest;
    assert line[1..] == [BACKTICK, BACKTICK] + rest && line[2..] == [BACKTICK] + rest && line[3..] == rest;
    assert line[1..][1..] == line[2..] && line[2..][1..] == line[3..];
    assert RunLength(rest, BACKTICK) == 0;
    assert RunLength(line[2..], BACKTICK) == 1;
    assert RunLength(line[1..], BACKTICK) == 2;
    assert line[|line| - 1] == if rest == [] then BACKTICK else rest[|rest| - 1];
  }

  lemma {:induction false} OneWord(t: Text)
    requires forall u <- t :: !IsSpace(u)
    ensures FirstWord(t) == t
  {
    if t != [] { OneWord(t[1..]); }
  }

  const FINDINGS_FENCE: Fence := Fence(BACKTICK, 3, true)

  ghost predicate Plain(t: Text) {
    forall i :: 0 <= i < |t| ==> !IsSpace(t[i]) && t[i] != BACKTICK && t[i] !in {NEWLINE, RETURN, 0x2028, 0x2029}
  }

  lemma PlainInfo(info: Text)
    requires Plain(info) && info != []
    ensures FenceOf(Trim(TICKS + info)) == Some(FenceLine(BACKTICK, 3, info)) && !Indented(TICKS + info)
    ensures BACKTICK !in info && Trim(info) == info && FirstWord(info) == info
  {
    TickLine(info);
    OneWord(info);
  }

  lemma FindingsOpens()
    ensures OpeningOf(TICKS + INFO_STRING) == Opens(FINDINGS_FENCE)
  {
    hide FenceOf, Trim, Indented, FirstWord;
    PlainInfo(INFO_STRING);
  }

  lemma TicksClose()
    ensures Closes(TICKS, FINDINGS_FENCE) && !Closes(TICKS + [0x78], FINDINGS_FENCE) && !Closes([0x78], FINDINGS_FENCE)
  {
    TickLine([]);
    TickLine([0x78]);
    assert TICKS + [] == TICKS;
  }

  lemma {:induction false} SplitOnly(line: Text)
    requires NEWLINE !in line && RETURN !in line
    ensures SplitLines(line) == [line]
  {
    if line != [] {
      SplitOnly(line[1..]);
      assert line == [line[0]] + line[1..];
    }
  }

  lemma SplitAtEnd(rest: Text)
    ensures SplitLines([NEWLINE] + rest) == [[]] + SplitLines(rest)
  {
    assert ([NEWLINE] + rest)[1..] == rest;
  }

  lemma {:induction false} SplitFirst(line: Text, rest: Text)
    requires NEWLINE !in line && RETURN !in line
    ensures SplitLines(line + [NEWLINE] + rest) == [line] + SplitLines(rest)
  {
    hide SplitLines;
    var all := line + [NEWLINE] + rest;
    if line == [] {
      SplitAtEnd(rest);
      assert all == [NEWLINE] + rest;
    } else {
      SplitFirst(line[1..], rest);
      SplitUnit(all);
      assert all[1..] == line[1..] + [NEWLINE] + rest && line == [line[0]] + line[1..];
    }
  }

  /** A findings block of a few lines, with nothing around it. */
  lemma BlockAlone(lines: seq<Text>)
    requires |lines| >= 3 && lines[0] == TICKS + INFO_STRING && lines[|lines| - 1] == TICKS
    requires forall j :: 0 < j < |lines| - 1 ==> !Closes(lines[j], FINDINGS_FENCE)
    requires Size(lines[1..|lines| - 1]) <= MAX_FINDINGS_BLOCK_CHARS
    ensures Read(lines) == Block(Join(lines[1..|lines| - 1]))
  {
    hide OpeningOf, Closes, CloseAt, Size, Join, Read, TopLevel;
    var k := |lines| - 1;
    FindingsOpens();
    TicksClose();
    CloseAtIsFirst(lines, 1, FINDINGS_FENCE);
    assert CloseAt(lines, 1, FINDINGS_FENCE) == k;
    TopLevelAtFence(lines, 0, FINDINGS_FENCE);
    NoneLeft(lines);
    LastBlockRead(lines, [], Region(0, k, FINDINGS_FENCE));
  }

  const LETTER: Text := [0x78]

  /**
   * A line of a block that starts as a closing fence does, cut just after that start: the response
   * reads as a whole block, of less.
   */
  lemma CutReadsAsWhole() returns (cut: Text, rest: Text)
    ensures Read(SplitLines(cut + rest)) == Block(LETTER + [NEWLINE] + TICKS + LETTER)
    ensures Read(SplitLines(cut)) == Block(LETTER)
  {
    hide OpeningOf, Closes, Read, SplitLines;
    var open, end := TICKS + INFO_STRING, TICKS + LETTER;
    cut, rest := open + [NEWLINE] + (LETTER + [NEWLINE] + TICKS), LETTER + [NEWLINE] + TICKS;
    TicksClose();
    SplitFirst(open, LETTER + [NEWLINE] + TICKS);
    SplitFirst(LETTER, TICKS);
    SplitOnly(TICKS);
    var lines := [open, LETTER, TICKS];
    assert SplitLines(cut) == lines;
    assert lines[1..2] == [LETTER];
    BlockAlone(lines);
    var tail := end + [NEWLINE] + TICKS;
    assert cut + rest == open + [NEWLINE] + (LETTER + [NEWLINE] + tail);
    SplitFirst(open, LETTER + [NEWLINE] + tail);
    SplitFirst(LETTER, tail);
    SplitFirst(end, TICKS);
    var whole := [open, LETTER, end, TICKS];
    assert SplitLines(cut + rest) == whole;
    assert whole[1..3] == [LETTER, end];
    BlockAlone(whole);
  }

  const NO_BREAK_SPACE: CodeUnit := 0xa0

  /**
   * A no-break space before a fence is trimmed away, and is no indentation: the line opens a
   * fence, and closes one.
   */
  lemma NoBreakSpaceIsTrimmed()
    ensures OpeningOf([NO_BREAK_SPACE] + TICKS) == Opens(Fence(BACKTICK, 3, false))
    ensures Closes([NO_BREAK_SPACE] + TICKS, FINDINGS_FENCE)
  {
    var line := [NO_BREAK_SPACE] + TICKS;
    TickLine([]);
    assert TICKS + [] == TICKS && line[1..] == TICKS;
    assert Trim(line) == TICKS;
  }

  lemma {:induction false} JoinFits(lines: seq<Text>)
    ensures |Join(lines)| <= Size(lines)
  {
    if lines != [] {
      var front, last := lines[..|lines| - 1], lines[|lines| - 1];
      assert lines == front + [last];
      JoinFits(front);
      JoinLast(front, last);
    }
  }

  /** Accepted content fits the size bound, so that the check on it once joined never refuses. */
  lemma AcceptedContentFits(lines: seq<Text>, text: Text)
    requires Read(lines) == Block(text)
    ensures |text| <= MAX_FINDINGS_BLOCK_CHARS
  {
    hide OpeningOf, Closes, TopLevel, Read, Size, Join, FindingsOf;
    AcceptedExactlyWhen(lines, text);
    var r := FindingsOf(TopLevel(lines, 0))[0];
    FindingsFound(TopLevel(lines, 0));
    assert r in FindingsOf(TopLevel(lines, 0)) && Fine(lines, r);
    JoinFits(lines[r.open + 1..r.close]);
  }
}
