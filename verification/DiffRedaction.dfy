/**
 * Redacting a unified diff without changing its shape: the bodies of its rows are scanned
 * as one document, and what is found is written back row by row.
 */
module DiffRedaction {
  import opened CodeUnits
  import opened Lines
  import opened Options
  import opened RedactionRanges
  import opened SecretDetection
  import opened Sequences

  const DIFF_HEADER_PREFIXES: seq<string> := [
    "diff --git", "index ", "--- ", "+++ ", "@@", "old mode", "new mode", "deleted file mode", "new file mode",
    "similarity index", "rename from", "rename to", "copy from", "copy to", "Binary files"
  ]

  predicate Begins(line: Text, prefix: string) {
    |prefix| <= |line| && forall i :: 0 <= i < |prefix| ==> line[i] == prefix[i] as int
  }

  predicate IsDiffHeaderLine(line: Text) {
    exists prefix <- DIFF_HEADER_PREFIXES :: Begins(line, prefix)
  }

  predicate ContinuesHunkBody(line: Text) {
    Begins(line, " ") || Begins(line, "+") || Begins(line, "-") || Begins(line, "\\")
  }

  // ------------------------------------------------------------------------- layout

  /** Where each row's body starts in the document, if it has one; and the document so far. */
  datatype Layout = Layout(offsets: seq<Option<nat>>, bodies: seq<Text>, cursor: nat, inHunk: bool)

  /** Whether the row is still, or newly, in a hunk; and whether it is structure. */
  function Row(line: Text, inHunk: bool): (r: (bool, bool))
    ensures !r.1 ==> line != []
  {
    var still := inHunk && ContinuesHunkBody(line);
    if !still && Begins(line, "@@") then (true, true)
    else (still, (if still then Begins(line, "\\") else IsDiffHeaderLine(line)) || line == [])
  }

  function Place(l: Layout, line: Text): Layout {
    var (inHunk, structure) := Row(line, l.inHunk);
    if structure then l.(offsets := l.offsets + [None], inHunk := inHunk)
    else Layout(l.offsets + [Some(l.cursor)], l.bodies + [line[1..]], l.cursor + |line|, inHunk)
  }

  function LayOut(lines: seq<Text>, hunkBody: bool): Layout {
    if lines == [] then Layout([], [], 0, hunkBody)
    else Place(LayOut(lines[..|lines| - 1], hunkBody), lines[|lines| - 1])
  }

  method LayOutRows(lines: seq<Text>, hunkBody: bool) returns (layout: Layout)
    ensures layout == LayOut(lines, hunkBody)
  {
    var offsets: seq<Option<nat>> := [];
    var bodies: seq<Text> := [];
    var cursor: nat := 0;
    var inHunk := hunkBody;
    for n := 0 to |lines|
      invariant Layout(offsets, bodies, cursor, inHunk) == LayOut(lines[..n], hunkBody)
    {
      var line := lines[n];
      assert lines[..n + 1][..n] == lines[..n];
      if inHunk && !ContinuesHunkBody(line) { inHunk := false; }
      if !inHunk && Begins(line, "@@") {
        inHunk := true;
        offsets := offsets + [None];
        continue;
      }
      var structure := if inHunk then Begins(line, "\\") else IsDiffHeaderLine(line);
      if structure || line == [] {
        offsets := offsets + [None];
        continue;
      }
      offsets := offsets + [Some(cursor)];
      bodies := bodies + [line[1..]];
      cursor := cursor + |line[1..]| + 1;
    }
    assert lines[..|lines|] == lines;
    layout := Layout(offsets, bodies, cursor, inHunk);
  }

  function Bodied(offsets: seq<Option<nat>>): nat {
    if offsets == [] then 0
    else Bodied(offsets[..|offsets| - 1]) + (if offsets[|offsets| - 1].Some? then 1 else 0)
  }

  /** The body of row k is the one its place among the bodies says, and stands at its offset. */
  ghost predicate Stands(lines: seq<Text>, l: Layout, k: nat)
    requires k < |lines| == |l.offsets|
  {
    l.offsets[k].Some? ==>
      var o, n := l.offsets[k].value, Bodied(l.offsets[..k]);
      && lines[k] != [] && n < |l.bodies| && l.bodies[n] == lines[k][1..]
      && o + |lines[k]| - 1 <= |Join(l.bodies)| && Join(l.bodies)[o..o + |lines[k]| - 1] == lines[k][1..]
  }

  ghost predicate Sound(lines: seq<Text>, l: Layout) {
    && |l.offsets| == |lines| && Bodied(l.offsets) == |l.bodies|
    && l.cursor == (if l.bodies == [] then 0 else |Join(l.bodies)| + 1)
    && forall k :: 0 <= k < |lines| ==> Stands(lines, l, k)
  }

  lemma PrefixStands(a: Text, b: Text, from: nat, upTo: nat)
    requires from <= upTo <= |a|
    ensures (a + b)[from..upTo] == a[from..upTo]
  {
  }

  lemma SuffixStands(a: Text, b: Text)
    ensures (a + b)[|a|..|a + b|] == b
  {
  }

  lemma PlacedStands(lines: seq<Text>, line: Text, l: Layout, k: nat)
    requires Sound(lines, l) && k < |lines|
    ensures |Place(l, line).offsets| == |lines + [line]| && Stands(lines + [line], Place(l, line), k)
  {
    hide Stands, Sound, Row, Place, Join, Bodied;
    var next := Place(l, line);
    SoundAt(lines, l, k);
    PlacedLast(l, line, k);
    if next.bodies != l.bodies { StillStands(lines, l, k, next.bodies, line[1..]); }
    StandsAlike(lines, l.(bodies := next.bodies), lines + [line], next, k);
  }

  lemma SoundAt(lines: seq<Text>, l: Layout, k: nat)
    requires Sound(lines, l) && k < |lines|
    ensures |lines| == |l.offsets| && Stands(lines, l, k)
  {
  }

  lemma PlacedLast(l: Layout, line: Text, k: nat)
    requires k < |l.offsets|
    ensures var next := Place(l, line);
      && |next.offsets| == |l.offsets| + 1
      && next.offsets[..k] == l.offsets[..k] && next.offsets[k] == l.offsets[k]
      && (next.bodies == l.bodies || (line != [] && next.bodies == l.bodies + [line[1..]]))
  {
  }

  /** Whether a row stands depends on that row, the offsets up to it, and the bodies. */
  lemma StandsAlike(lines: seq<Text>, l: Layout, other: seq<Text>, l': Layout, k: nat)
    requires k < |lines| == |l.offsets| && k < |other| == |l'.offsets| && lines[k] == other[k]
    requires l'.bodies == l.bodies && l'.offsets[..k] == l.offsets[..k] && l'.offsets[k] == l.offsets[k]
    requires Stands(lines, l, k)
    ensures Stands(other, l', k)
  {
    hide Join, Bodied;
  }

  /** A row's body stands where it did when another one comes after it. */
  lemma StillStands(lines: seq<Text>, l: Layout, k: nat, bodies: seq<Text>, body: Text)
    requires k < |lines| == |l.offsets| && Stands(lines, l, k) && bodies == l.bodies + [body]
    ensures Stands(lines, l.(bodies := bodies), k)
  {
    if l.offsets[k].Some? {
      JoinLast(l.bodies, body);
      var o, end := l.offsets[k].value, l.offsets[k].value + |lines[k]| - 1;
      PrefixStands(Join(l.bodies), [NEWLINE] + body, o, end);
      Reassociated(Join(l.bodies), [NEWLINE], body);
    }
  }

  /** Where the last body of a document stands in it. */
  lemma LastBodyStands(bodies: seq<Text>, body: Text)
    ensures var o := if bodies == [] then 0 else |Join(bodies)| + 1; var all := Join(bodies + [body]);
      |all| == o + |body| && all[o..] == body
  {
    JoinLast(bodies, body);
    if bodies != [] { SuffixStands(Join(bodies) + [NEWLINE], body); }
  }

  lemma NewBodyStands(lines: seq<Text>, line: Text, l: Layout)
    requires Sound(lines, l) && !Row(line, l.inHunk).1
    ensures |Place(l, line).offsets| == |lines| + 1 && Stands(lines + [line], Place(l, line), |lines|)
    ensures Place(l, line).cursor == |Join(Place(l, line).bodies)| + 1
  {
    hide Join, Stands, Row;
    LastBodyStands(l.bodies, line[1..]);
    NewBodyAt(lines, line, l, Place(l, line));
  }

  lemma NewBodyAt(lines: seq<Text>, line: Text, l: Layout, next: Layout)
    requires |l.offsets| == |lines| && Bodied(l.offsets) == |l.bodies| && line != []
    requires next.offsets == l.offsets + [Some(l.cursor)] && next.bodies == l.bodies + [line[1..]]
    requires |Join(next.bodies)| == l.cursor + |line| - 1 && Join(next.bodies)[l.cursor..] == line[1..]
    ensures Stands(lines + [line], next, |lines|)
  {
    hide Join, Bodied;
    assert next.offsets[..|lines|] == l.offsets;
    assert Join(next.bodies)[l.cursor..l.cursor + |line| - 1] == Join(next.bodies)[l.cursor..];
  }

  lemma PlaceKeepsSound(lines: seq<Text>, line: Text, l: Layout)
    requires Sound(lines, l)
    ensures Sound(lines + [line], Place(l, line))
  {
    var next := Place(l, line);
    assert next.offsets[..|lines|] == l.offsets;
    forall k | 0 <= k < |lines| ensures Stands(lines + [line], next, k) { PlacedStands(lines, line, l, k); }
    if !Row(line, l.inHunk).1 { NewBodyStands(lines, line, l); }
  }

  /** Each row with a body has it in the document, where its offset says. */
  lemma {:induction false} LayoutIsSound(lines: seq<Text>, hunkBody: bool)
    ensures Sound(lines, LayOut(lines, hunkBody))
  {
    if lines != [] {
      var front, last := lines[..|lines| - 1], lines[|lines| - 1];
      LayoutIsSound(front, hunkBody);
      PlaceKeepsSound(front, last, LayOut(front, hunkBody));
      assert lines == front + [last];
    }
  }

  // ---------------------------------------------------------------- ranges on one row

  /** What is left of a range on a row of the given length that starts at an offset. */
  function Clip(r: Range, start: nat, length: nat): Option<Range> {
    if r.start < start + length && r.end > start then
      var from := if r.start < start then 0 else r.start - start;
      var upTo := if r.end - start < length then r.end - start else length;
      if upTo > from then Some(Range(from, upTo, r.names)) else None
    else None
  }

  function Local(ranges: seq<Range>, start: nat, length: nat): seq<Range> {
    if ranges == [] then [] else
      var front := Local(ranges[..|ranges| - 1], start, length);
      match Clip(ranges[|ranges| - 1], start, length)
      case None => front
      case Some(r) => front + [r]
  }

  lemma {:induction false} LocalFits(ranges: seq<Range>, start: nat, length: nat)
    requires Disjoint(ranges)
    ensures Fits(Local(ranges, start, length), length)
    ensures Local(ranges, start, length) != [] ==>
      start + Local(ranges, start, length)[|Local(ranges, start, length)| - 1].end <= ranges[|ranges| - 1].end
  {
    if ranges != [] {
      var front, last := ranges[..|ranges| - 1], ranges[|ranges| - 1];
      LocalFits(front, start, length);
      assert front != [] ==> front[|front| - 1].end <= last.start;
      var clipped := Clip(last, start, length);
      if clipped.Some? { AppendFits(Local(front, start, length), clipped.value, length); }
    }
  }

  lemma AppendFits(front: seq<Range>, r: Range, length: nat)
    requires Fits(front, length) && r.start < r.end <= length && (front != [] ==> front[|front| - 1].end <= r.start)
    ensures Fits(front + [r], length)
  {
  }

  /** A unit of the row lies in a clipped range exactly when it lies in a range of the document. */
  lemma {:induction false} LocalCovers(ranges: seq<Range>, start: nat, length: nat, i: nat)
    requires i < length
    ensures Covers(Local(ranges, start, length), i) <==> Covers(ranges, start + i)
  {
    if ranges != [] {
      var front, last := ranges[..|ranges| - 1], ranges[|ranges| - 1];
      assert ranges == front + [last];
      LocalCovers(front, start, length, i);
      EitherPart(front, last, start + i);
      var clipped := Clip(last, start, length);
      if clipped.Some? { EitherPart(Local(front, start, length), clipped.value, i); }
    }
  }

  function RedactRow(line: Text, offset: Option<nat>, ranges: seq<Range>): Text
    requires Disjoint(ranges)
  {
    if offset.None? || line == [] then line else
      LocalFits(ranges, offset.value, |line| - 1);
      var local := Local(ranges, offset.value, |line| - 1);
      if local == [] then line else [line[0]] + Redacted(line[1..], local)
  }

  function RedactRows(lines: seq<Text>, offsets: seq<Option<nat>>, ranges: seq<Range>): (out: seq<Text>)
    requires |offsets| == |lines| && Disjoint(ranges)
    ensures |out| == |lines|
    ensures forall k :: 0 <= k < |lines| ==> out[k] == RedactRow(lines[k], offsets[k], ranges)
  {
    seq(|lines|, k requires 0 <= k < |lines| => RedactRow(lines[k], offsets[k], ranges))
  }

  /** The ranges found in the bodies of a diff, read as one document. */
  function DiffRanges(p: Patterns, lines: seq<Text>, hunkBody: bool): seq<Range> {
    SecretRanges(p, Join(LayOut(lines, hunkBody).bodies))
  }

  lemma DiffRangesFit(p: Patterns, lines: seq<Text>, hunkBody: bool)
    requires SanePatterns(p)
    ensures Disjoint(DiffRanges(p, lines, hunkBody)) && Sound(lines, LayOut(lines, hunkBody))
  {
    LayoutIsSound(lines, hunkBody);
    SecretRangesUsable(p, Join(LayOut(lines, hunkBody).bodies));
  }

  function RedactDiff(p: Patterns, diff: Text, hunkBody: bool): Text
    requires SanePatterns(p)
  {
    if diff == [] then diff else
      var lines := Split(diff);
      var layout, ranges := LayOut(lines, hunkBody), DiffRanges(p, lines, hunkBody);
      if ranges == [] then diff else
        DiffRangesFit(p, lines, hunkBody);
        Join(RedactRows(lines, layout.offsets, ranges))
  }

  // ------------------------------------------------------------------------ the method

  method RedactOneRow(line: Text, body: Text, start: nat, ranges: seq<Range>) returns (out: Text)
    requires Disjoint(ranges) && line != [] && body == line[1..]
    ensures out == RedactRow(line, Some(start), ranges)
  {
    LocalFits(ranges, start, |body|);
    var local := Local(ranges, start, |body|);
    if |local| == 0 { return line; }
    var redacted := RedactRanges(body, MARKER, local);
    out := [line[0]] + redacted;
  }

  lemma BodyOfRow(lines: seq<Text>, l: Layout, i: nat)
    requires Sound(lines, l) && i < |lines|
    ensures l.offsets[i].None? ==> Bodied(l.offsets[..i + 1]) == Bodied(l.offsets[..i])
    ensures l.offsets[i].Some? ==>
      && Bodied(l.offsets[..i + 1]) == Bodied(l.offsets[..i]) + 1
      && lines[i] != [] && Bodied(l.offsets[..i]) < |l.bodies| && l.bodies[Bodied(l.offsets[..i])] == lines[i][1..]
  {
    assert l.offsets[..i + 1][..i] == l.offsets[..i] && Stands(lines, l, i);
  }

  lemma StructureStays(line: Text, ranges: seq<Range>)
    requires Disjoint(ranges)
    ensures RedactRow(line, None, ranges) == line
  {
  }

  lemma NoBodies(offsets: seq<Option<nat>>)
    ensures Bodied(offsets[..0]) == 0
  {
  }

  method RedactAllRows(lines: seq<Text>, layout: Layout, ranges: seq<Range>) returns (out: seq<Text>)
    requires Sound(lines, layout) && Disjoint(ranges)
    ensures out == RedactRows(lines, layout.offsets, ranges)
  {
    hide RedactRow, Bodied, Stands, Disjoint;
    out := [];
    var bodyIndex: nat := 0;
    NoBodies(layout.offsets);
    for i := 0 to |lines|
      invariant |out| == i && bodyIndex == Bodied(layout.offsets[..i])
      invariant forall k :: 0 <= k < i ==> out[k] == RedactRow(lines[k], layout.offsets[k], ranges)
    {
      BodyOfRow(lines, layout, i);
      if layout.offsets[i].None? {
        StructureStays(lines[i], ranges);
        out := out + [lines[i]];
      } else {
        var row := RedactOneRow(lines[i], layout.bodies[bodyIndex], layout.offsets[i].value, ranges);
        bodyIndex := bodyIndex + 1;
        out := out + [row];
      }
    }
  }

  method RedactSecretsInUnifiedDiff(p: Patterns, diff: Text, hunkBody: bool) returns (redacted: Text)
    requires SanePatterns(p)
    ensures redacted == RedactDiff(p, diff, hunkBody)
  {
    if |diff| == 0 { return diff; }
    var lines := Split(diff);
    var layout := LayOutRows(lines, hunkBody);
    DiffRangesFit(p, lines, hunkBody);
    var ranges := FindSecretRanges(p, Join(layout.bodies));
    if |ranges| == 0 { return diff; }
    var out := RedactAllRows(lines, layout, ranges);
    redacted := Join(out);
  }

  // ------------------------------------------------------------------- what it keeps

  lemma {:induction false} RenderedSingle(text: Text, marker: Text, pieces: seq<Piece>)
    requires NoNewline(text) && NoNewline(marker)
    ensures NoNewline(Render(text, marker, pieces))
  {
    if pieces != [] { RenderedSingle(text, marker, pieces[1..]); }
  }

  lemma NothingLocal(text: Text)
    ensures Redacted(text, []) == text
  {
    RenderOriginals(text, MARKER, 0, |text|);
    assert text[0..|text|] == text;
  }

  lemma MarkerIsSingle()
    ensures NoNewline(MARKER)
  {
  }

  lemma RowStaysSingle(line: Text, offset: Option<nat>, ranges: seq<Range>)
    requires Disjoint(ranges) && NoNewline(line)
    ensures NoNewline(RedactRow(line, offset, ranges))
  {
    if offset.Some? && line != [] {
      LocalFits(ranges, offset.value, |line| - 1);
      var local := Local(ranges, offset.value, |line| - 1);
      MarkerIsSingle();
      RenderedSingle(line[1..], MARKER, Pieces(local, 0, |line| - 1));
    }
  }

  /** A row of a redacted diff: structure as it was, and after the sign only what is in no range. */
  ghost predicate RowKept(line: Text, out: Text, offset: Option<nat>, ranges: seq<Range>)
    requires Disjoint(ranges)
  {
    if offset.None? then out == line
    else
      && line != [] && out != [] && out[0] == line[0]
      && Fits(Local(ranges, offset.value, |line| - 1), |line| - 1)
      && out[1..] == Redacted(line[1..], Local(ranges, offset.value, |line| - 1))
  }

  lemma RowIsKept(line: Text, offset: Option<nat>, ranges: seq<Range>)
    requires Disjoint(ranges) && (offset.Some? ==> line != [])
    ensures RowKept(line, RedactRow(line, offset, ranges), offset, ranges)
  {
    if offset.Some? {
      LocalFits(ranges, offset.value, |line| - 1);
      NothingLocal(line[1..]);
    }
  }

  ghost predicate RowsKept(lines: seq<Text>, out: seq<Text>, offsets: seq<Option<nat>>, ranges: seq<Range>)
    requires Disjoint(ranges)
  {
    && |out| == |lines| == |offsets|
    && forall k :: 0 <= k < |lines| ==> RowKept(lines[k], out[k], offsets[k], ranges)
  }

  lemma RowsAreKept(lines: seq<Text>, l: Layout, ranges: seq<Range>)
    requires Sound(lines, l) && Disjoint(ranges)
    ensures RowsKept(lines, RedactRows(lines, l.offsets, ranges), l.offsets, ranges)
    ensures ranges == [] ==> RedactRows(lines, l.offsets, ranges) == lines
  {
    forall k | 0 <= k < |lines|
      ensures RowKept(lines[k], RedactRow(lines[k], l.offsets[k], ranges), l.offsets[k], ranges)
    {
      assert Stands(lines, l, k);
      RowIsKept(lines[k], l.offsets[k], ranges);
    }
  }

  /** The lines of a redacted diff are the lines of the diff, redacted one by one. */
  lemma RedactedLines(p: Patterns, diff: Text, hunkBody: bool, lines: seq<Text>, ranges: seq<Range>)
    requires SanePatterns(p) && lines == Split(diff) && ranges == DiffRanges(p, lines, hunkBody)
    ensures Disjoint(ranges) && Sound(lines, LayOut(lines, hunkBody))
    ensures Split(RedactDiff(p, diff, hunkBody)) == RedactRows(lines, LayOut(lines, hunkBody).offsets, ranges)
  {
    JoinOfSplit(diff);
    DiffRangesFit(p, lines, hunkBody);
    RowsSplit(lines, LayOut(lines, hunkBody).offsets, ranges);
    NoRangesNoChange(p, diff, hunkBody);
    if ranges == [] { RowsAreKept(lines, LayOut(lines, hunkBody), ranges); }
  }

  /**
   * Redacting a diff keeps its number of lines, every structure line, and the sign column of
   * every other row, of which no more is replaced than the ranges that fall on it.
   */
  lemma DiffKeepsShape(p: Patterns, diff: Text, hunkBody: bool, lines: seq<Text>, ranges: seq<Range>)
    requires SanePatterns(p) && lines == Split(diff) && ranges == DiffRanges(p, lines, hunkBody)
    ensures Disjoint(ranges)
    ensures RowsKept(lines, Split(RedactDiff(p, diff, hunkBody)), LayOut(lines, hunkBody).offsets, ranges)
  {
    RedactedLines(p, diff, hunkBody, lines, ranges);
    RowsAreKept(lines, LayOut(lines, hunkBody), ranges);
  }

  lemma RowsSplit(lines: seq<Text>, offsets: seq<Option<nat>>, ranges: seq<Range>)
    requires lines != [] && |offsets| == |lines| && Disjoint(ranges) && AllSingle(lines)
    ensures Split(Join(RedactRows(lines, offsets, ranges))) == RedactRows(lines, offsets, ranges)
  {
    forall k | 0 <= k < |lines| ensures NoNewline(RedactRows(lines, offsets, ranges)[k]) {
      RowStaysSingle(lines[k], offsets[k], ranges);
    }
    SplitOfJoin(RedactRows(lines, offsets, ranges));
  }

  lemma NoRangesNoChange(p: Patterns, diff: Text, hunkBody: bool)
    requires SanePatterns(p)
    ensures diff == [] ==> DiffRanges(p, Split(diff), hunkBody) == []
    ensures DiffRanges(p, Split(diff), hunkBody) == [] ==> RedactDiff(p, diff, hunkBody) == diff
  {
    if diff == [] {
      var lines := Split(diff);
      assert lines == [[]] && lines[..0] == [];
      assert LayOut(lines, hunkBody).bodies == [];
      NothingInNoText(p);
    }
  }

  /** A row after its sign: the units that no range of the document covers, in order, and markers. */
  ghost predicate OnlyUncovered(line: Text, out: Text, start: nat, ranges: seq<Range>, pieces: seq<Piece>) {
    && line != [] && out == [line[0]] + Render(line[1..], MARKER, pieces)
    && Ranging(pieces, 0, |line| - 1)
    && forall i :: 0 <= i < |line| - 1 ==> (Original(i) in pieces <==> !Covers(ranges, start + i))
  }

  lemma RowHides(line: Text, out: Text, start: nat, ranges: seq<Range>) returns (pieces: seq<Piece>)
    requires Disjoint(ranges) && RowKept(line, out, Some(start), ranges)
    ensures OnlyUncovered(line, out, start, ranges, pieces)
  {
    hide Render, Local, Covers, Pieces;
    var local, length := Local(ranges, start, |line| - 1), |line| - 1;
    pieces := Pieces(local, 0, length);
    PiecesRange(local, 0, length);
    forall i | 0 <= i < length ensures Original(i) in pieces <==> !Covers(ranges, start + i) {
      LocalCovers(ranges, start, length, i);
      PiecesAreExact(local, 0, length, i);
    }
    assert out == [out[0]] + out[1..];
  }

  /**
   * Line k of a redacted diff. A row with a body stands in the bodies read as one document, and
   * what is left of it is what no range found there covers.
   */
  ghost predicate RowRedacted(p: Patterns, diff: Text, hunkBody: bool, k: nat, pieces: seq<Piece>)
    requires SanePatterns(p)
  {
    var lines, out := Split(diff), Split(RedactDiff(p, diff, hunkBody));
    var l := LayOut(lines, hunkBody);
    var ranges := SecretRanges(p, Join(l.bodies));
    && k < |lines| == |out| && |l.offsets| == |lines| && Stands(lines, l, k)
    && (l.offsets[k].None? ==> out[k] == lines[k])
    && (l.offsets[k].Some? ==> OnlyUncovered(lines[k], out[k], l.offsets[k].value, ranges, pieces))
  }

  /**
   * Row by row, a redacted diff is the diff with no unit left that lies in a range found in its
   * bodies read as one document, even when the range spans rows; every other unit is left, in order.
   */
  lemma DiffHidesSecrets(p: Patterns, diff: Text, hunkBody: bool, k: nat) returns (pieces: seq<Piece>)
    requires SanePatterns(p) && k < |Split(diff)|
    ensures RowRedacted(p, diff, hunkBody, k, pieces)
  {
    hide Split, LayOut, OnlyUncovered, RedactDiff, Stands;
    var lines, out := Split(diff), Split(RedactDiff(p, diff, hunkBody));
    var l, ranges := LayOut(lines, hunkBody), DiffRanges(p, lines, hunkBody);
    pieces := [];
    DiffRangesFit(p, lines, hunkBody);
    DiffKeepsShape(p, diff, hunkBody, lines, ranges);
    SoundAt(lines, l, k);
    assert RowKept(lines[k], out[k], l.offsets[k], ranges);
    if l.offsets[k].Some? { pieces := RowHides(lines[k], out[k], l.offsets[k].value, ranges); }
  }
}
