/** Which rows of a diff are scanned for secrets, told from the lines above them. */
module DiffRows {
  import opened CodeUnits
  import opened Lines
  import opened Options
  import opened RedactionRanges
  import opened SecretDetection
  import opened DiffRedaction

  const PLUS: CodeUnit := 0x2b
  const MINUS: CodeUnit := 0x2d
  const BLANK: CodeUnit := 0x20
  const BACKSLASH: CodeUnit := 0x5c
  const AT: CodeUnit := 0x40

  /** A row as a hunk has them: context, added, removed, or a remark on the row before. */
  predicate HunkRow(line: Text) {
    line != [] && line[0] in {BLANK, PLUS, MINUS, BACKSLASH}
  }

  /** Two at signs start a hunk. */
  predicate HunkStart(line: Text) {
    |line| >= 2 && line[0] == line[1] == AT
  }

  /** The hunk that row k is in starts at row h, or before the first row if rows of a hunk are given. */
  ghost predicate HunkFrom(lines: seq<Text>, hunkBody: bool, h: int, k: int)
    requires 0 <= k <= |lines|
  {
    && -1 <= h < k
    && (if h == -1 then hunkBody else HunkStart(lines[h]))
    && forall j :: h < j < k ==> HunkRow(lines[j])
  }

  /** All lines between row k and a line that starts a hunk are rows of a hunk. */
  ghost predicate InHunk(lines: seq<Text>, hunkBody: bool, k: nat)
    requires k <= |lines|
  {
    exists h :: HunkFrom(lines, hunkBody, h, k)
  }

  lemma RowsByTheirStart(line: Text)
    ensures ContinuesHunkBody(line) <==> HunkRow(line)
    ensures Begins(line, "@@") <==> HunkStart(line)
    ensures Begins(line, "\\") <==> line != [] && line[0] == BACKSLASH
  {
  }

  /** What a row is depends on what kind of line it is, and on whether a hunk is open. */
  lemma {:induction false} HunkOpen(lines: seq<Text>, hunkBody: bool, k: nat)
    requires k <= |lines|
    ensures LayOut(lines[..k], hunkBody).inHunk <==> InHunk(lines, hunkBody, k)
  {
    if k == 0 {
      assert lines[..0] == [];
      assert hunkBody ==> HunkFrom(lines, hunkBody, -1, 0);
    } else {
      HunkOpen(lines, hunkBody, k - 1);
      HunkGoesOn(lines, hunkBody, k - 1);
      assert lines[..k][..k - 1] == lines[..k - 1];
      RowsByTheirStart(lines[k - 1]);
    }
  }

  lemma HunkGoesOn(lines: seq<Text>, hunkBody: bool, k: nat)
    requires k < |lines|
    ensures InHunk(lines, hunkBody, k + 1) <==>
      HunkStart(lines[k]) || (InHunk(lines, hunkBody, k) && HunkRow(lines[k]))
  {
    if HunkStart(lines[k]) { assert HunkFrom(lines, hunkBody, k, k + 1); }
    if h :| HunkFrom(lines, hunkBody, h, k) && HunkRow(lines[k]) { assert HunkFrom(lines, hunkBody, h, k + 1); }
    var next := k + 1;
    if h :| HunkFrom(lines, hunkBody, h, next) && h < k { assert HunkFrom(lines, hunkBody, h, k); }
  }

  lemma {:induction false} PlacedOnce(lines: seq<Text>, hunkBody: bool, n: nat, k: nat)
    requires k < n <= |lines|
    ensures |LayOut(lines[..n], hunkBody).offsets| == n
    ensures LayOut(lines[..n], hunkBody).offsets[k].None? <==> Row(lines[k], LayOut(lines[..k], hunkBody).inHunk).1
  {
    hide Row;
    assert lines[..n][..n - 1] == lines[..n - 1];
    if k < n - 1 {
      PlacedOnce(lines, hunkBody, n - 1, k);
    } else {
      AsManyOffsets(lines[..n - 1], hunkBody);
    }
  }

  lemma {:induction false} AsManyOffsets(lines: seq<Text>, hunkBody: bool)
    ensures |LayOut(lines, hunkBody).offsets| == |lines|
  {
    if lines != [] { AsManyOffsets(lines[..|lines| - 1], hunkBody); }
  }

  /**
   * In a hunk a row with a sign has a body, whatever comes after the sign, and a remark has none.
   * Anywhere else exactly the headers and the empty lines have none.
   */
  lemma BodyExactlyWhen(lines: seq<Text>, hunkBody: bool, k: nat)
    requires k < |lines|
    ensures |LayOut(lines, hunkBody).offsets| == |lines|
    ensures LayOut(lines, hunkBody).offsets[k].Some? <==>
      if InHunk(lines, hunkBody, k) && HunkRow(lines[k]) then lines[k][0] != BACKSLASH
      else lines[k] != [] && !IsDiffHeaderLine(lines[k])
  {
    hide InHunk, HunkRow, LayOut, IsDiffHeaderLine, HunkStart, ContinuesHunkBody, Begins;
    assert lines[..|lines|] == lines;
    PlacedOnce(lines, hunkBody, |lines|, k);
    HunkOpen(lines, hunkBody, k);
    RowsByTheirStart(lines[k]);
    HunkStartIsHeader(lines[k]);
    RowIsNotEmpty(lines[k]);
  }

  lemma RowIsNotEmpty(line: Text)
    ensures HunkRow(line) ==> line != []
  {
  }

  lemma HunkStartIsHeader(line: Text)
    ensures Begins(line, "@@") ==> IsDiffHeaderLine(line) && !ContinuesHunkBody(line)
  {
    hide Begins, ContinuesHunkBody;
    RowsByTheirStart(line);
    assert DIFF_HEADER_PREFIXES[4] == "@@" && DIFF_HEADER_PREFIXES[4] in DIFF_HEADER_PREFIXES;
  }

  /**
   * A row of a hunk, even one that looks like a header with its sign, has its body among those
   * scanned, and nothing found there is left of it.
   */
  lemma HunkRowsAreScanned(p: Patterns, diff: Text, hunkBody: bool, k: nat) returns (pieces: seq<Piece>)
    requires SanePatterns(p) && k < |Split(diff)|
    requires InHunk(Split(diff), hunkBody, k) && HunkRow(Split(diff)[k]) && Split(diff)[k][0] != BACKSLASH
    ensures |LayOut(Split(diff), hunkBody).offsets| == |Split(diff)|
    ensures LayOut(Split(diff), hunkBody).offsets[k].Some? && RowRedacted(p, diff, hunkBody, k, pieces)
  {
    hide InHunk, LayOut, RowRedacted, RedactDiff, DiffRanges, Split;
    BodyExactlyWhen(Split(diff), hunkBody, k);
    pieces := DiffHidesSecrets(p, diff, hunkBody, k);
  }
}
