/** Ranges of text that hold secrets: merging them, masking them and redacting them. */
module RedactionRanges {
  import opened CodeUnits
  import opened Sequences

  const BRACKET: CodeUnit := 0x5b
  const MASK: CodeUnit := 0

  /** [REDACTED_SECRET] */
  const MARKER: Text :=
    [BRACKET, 0x52, 0x45, 0x44, 0x41, 0x43, 0x54, 0x45, 0x44, 0x5f, 0x53, 0x45, 0x43, 0x52, 0x45, 0x54, 0x5d]

  datatype Range = Range(start: nat, end: nat, names: seq<Text>)

  predicate In(r: Range, i: int) {
    r.start <= i < r.end
  }

  /** Strictly inside: with a unit of the range on either side of the boundary. */
  predicate Spans(r: Range, b: int) {
    r.start < b < r.end
  }

  predicate Covers(ranges: seq<Range>, i: int) {
    exists r <- ranges :: In(r, i)
  }

  predicate Joins(ranges: seq<Range>, b: int) {
    exists r <- ranges :: Spans(r, b)
  }

  ghost predicate Proper(ranges: seq<Range>) {
    forall r <- ranges :: r.start < r.end
  }

  // ------------------------------------------------------------------------ sorting

  predicate Sooner(a: Range, b: Range) {
    a.start < b.start || (a.start == b.start && a.end < b.end)
  }

  function Insert(x: Range, s: seq<Range>): seq<Range> {
    if s != [] && Sooner(s[0], x) then [s[0]] + Insert(x, s[1..]) else [x] + s
  }

  /** The stable sort by start, then end. */
  function Sort(s: seq<Range>): seq<Range> {
    if s == [] then [] else Insert(s[0], Sort(s[1..]))
  }

  ghost predicate Sorted(s: seq<Range>) {
    forall j, k :: 0 <= j < k < |s| ==> !Sooner(s[k], s[j])
  }

  lemma {:induction false} InsertSorts(x: Range, s: seq<Range>)
    requires Sorted(s)
    ensures Sorted(Insert(x, s)) && forall r :: r in Insert(x, s) <==> r == x || r in s
  {
    if s != [] {
      assert s == [s[0]] + s[1..];
      if Sooner(s[0], x) {
        InsertSorts(x, s[1..]);
        SortedPrepends(s[0], Insert(x, s[1..]));
      } else {
        SortedPrepends(x, s);
      }
    }
  }

  lemma SortedPrepends(first: Range, rest: seq<Range>)
    requires Sorted(rest) && forall r <- rest :: !Sooner(r, first)
    ensures Sorted([first] + rest)
  {
  }

  lemma {:induction false} SortSorts(s: seq<Range>)
    ensures Sorted(Sort(s)) && forall r :: r in Sort(s) <==> r in s
  {
    if s != [] {
      assert s == [s[0]] + s[1..];
      SortSorts(s[1..]);
      InsertSorts(s[0], Sort(s[1..]));
    }
  }

  // ------------------------------------------------------------------------ merging

  function AddNames(names: seq<Text>, more: seq<Text>): seq<Text>
    decreases |more|
  {
    if more == [] then names
    else AddNames(if more[0] in names then names else names + [more[0]], more[1..])
  }

  lemma {:induction false} NamesAdded(names: seq<Text>, more: seq<Text>, n: Text)
    ensures n in AddNames(names, more) <==> n in names || n in more
    decreases |more|
  {
    if more != [] {
      assert more == [more[0]] + more[1..];
      NamesAdded(if more[0] in names then names else names + [more[0]], more[1..], n);
    }
  }

  function Max(a: nat, b: nat): nat {
    if a < b then b else a
  }

  predicate Overlaps(merged: seq<Range>, r: Range) {
    merged != [] && r.start < merged[|merged| - 1].end
  }

  /** One more range: it extends the last one if it overlaps it, and otherwise stands alone. */
  function Absorb(merged: seq<Range>, r: Range): seq<Range> {
    if !Overlaps(merged, r) then merged + [r] else
      var last := merged[|merged| - 1];
      merged[..|merged| - 1] + [Grown(last, r)]
  }

  function AbsorbAll(ranges: seq<Range>): seq<Range> {
    if ranges == [] then [] else Absorb(AbsorbAll(ranges[..|ranges| - 1]), ranges[|ranges| - 1])
  }

  function Merge(ranges: seq<Range>): seq<Range> {
    AbsorbAll(Sort(ranges))
  }

  method AddName(names: seq<Text>, more: seq<Text>) returns (all: seq<Text>)
    ensures all == AddNames(names, more)
  {
    all := names;
    assert more[|more|..] == [];
    for n := 0 to |more|
      invariant AddNames(all, more[n..]) == AddNames(names, more)
    {
      assert more[n..][1..] == more[n + 1..];
      if more[n] !in all { all := all + [more[n]]; }
    }
  }

  method MergeRange(merged: seq<Range>, range: Range) returns (more: seq<Range>)
    ensures more == Absorb(merged, range)
  {
    if |merged| == 0 || range.start >= merged[|merged| - 1].end { return merged + [range]; }
    var previous := merged[|merged| - 1];
    var names := AddName(previous.names, range.names);
    var end := if previous.end < range.end then range.end else previous.end;
    more := merged[..|merged| - 1] + [Range(previous.start, end, names)];
  }

  method MergeRedactionRanges(ranges: seq<Range>) returns (merged: seq<Range>)
    ensures merged == Merge(ranges)
  {
    var sorted := Sort(ranges);
    merged := [];
    for n := 0 to |sorted|
      invariant merged == AbsorbAll(sorted[..n])
    {
      assert sorted[..n + 1][..n] == sorted[..n];
      merged := MergeRange(merged, sorted[n]);
    }
    assert sorted[..|sorted|] == sorted;
  }

  // ------------------------------------------------------------- what merging means

  /** In order, none empty, no two overlapping; two may touch. */
  ghost predicate Disjoint(m: seq<Range>) {
    && (forall k :: 0 <= k < |m| ==> m[k].start < m[k].end)
    && (forall j, k :: 0 <= j < k < |m| ==> m[j].end <= m[k].start)
  }

  lemma AbsorbKeepsOrder(m: seq<Range>, r: Range)
    requires Disjoint(m) && r.start < r.end && (m != [] ==> m[|m| - 1].start <= r.start)
    ensures Disjoint(Absorb(m, r)) && Absorb(m, r) != []
    ensures Absorb(m, r)[|Absorb(m, r)| - 1].start <= r.start
  {
  }

  lemma {:induction false} Absorbed(s: seq<Range>)
    requires Sorted(s) && Proper(s)
    ensures Disjoint(AbsorbAll(s))
    ensures s != [] ==> AbsorbAll(s) != [] && AbsorbAll(s)[|AbsorbAll(s)| - 1].start <= s[|s| - 1].start
  {
    if s != [] {
      var front, last := s[..|s| - 1], s[|s| - 1];
      assert s == front + [last];
      Absorbed(front);
      AbsorbKeepsOrder(AbsorbAll(front), last);
    }
  }

  lemma AbsorbCovers(m: seq<Range>, r: Range, i: int)
    requires m != [] ==> m[|m| - 1].start <= r.start
    ensures Covers(Absorb(m, r), i) <==> Covers(m, i) || In(r, i)
    ensures Joins(Absorb(m, r), i) <==> Joins(m, i) || Spans(r, i)
  {
    if Overlaps(m, r) {
      var front, last := m[..|m| - 1], m[|m| - 1];
      assert m == front + [last];
      EitherPart(front, last, i);
      EitherPart(front, Absorb(m, r)[|m| - 1], i);
    } else {
      EitherPart(m, r, i);
    }
  }

  lemma EitherPart(front: seq<Range>, last: Range, i: int)
    ensures Covers(front + [last], i) <==> Covers(front, i) || In(last, i)
    ensures Joins(front + [last], i) <==> Joins(front, i) || Spans(last, i)
  {
    assert last in front + [last];
    if r :| r in front && In(r, i) { assert r in front + [last]; }
    if r :| r in front && Spans(r, i) { assert r in front + [last]; }
  }

  lemma {:induction false} AbsorbAllCovers(s: seq<Range>, i: int)
    requires Sorted(s) && Proper(s)
    ensures Covers(AbsorbAll(s), i) <==> Covers(s, i)
    ensures Joins(AbsorbAll(s), i) <==> Joins(s, i)
  {
    if s != [] {
      var front, last := s[..|s| - 1], s[|s| - 1];
      assert s == front + [last];
      AbsorbAllCovers(front, i);
      Absorbed(front);
      AbsorbCovers(AbsorbAll(front), last, i);
      EitherPart(front, last, i);
    }
  }

  /**
   * Merged ranges are in order and disjoint; a unit lies in one exactly when it lies in some
   * range given, and two neighbouring units lie in the same one exactly when some range given
   * holds both. Ranges that only touch stay apart.
   */
  lemma MergeIsExact(ranges: seq<Range>, i: int)
    requires Proper(ranges)
    ensures Disjoint(Merge(ranges))
    ensures Covers(Merge(ranges), i) <==> Covers(ranges, i)
    ensures Joins(Merge(ranges), i) <==> Joins(ranges, i)
  {
    SortSorts(ranges);
    Absorbed(Sort(ranges));
    AbsorbAllCovers(Sort(ranges), i);
    SameCover(Sort(ranges), ranges, i);
  }

  lemma SameCover(a: seq<Range>, b: seq<Range>, i: int)
    requires forall r :: r in a <==> r in b
    ensures Covers(a, i) <==> Covers(b, i)
    ensures Joins(a, i) <==> Joins(b, i)
  {
    if r :| r in a && In(r, i) { assert r in b; }
    if r :| r in b && In(r, i) { assert r in a; }
    if r :| r in a && Spans(r, i) { assert r in b; }
    if r :| r in b && Spans(r, i) { assert r in a; }
  }

  lemma MergeNothing(ranges: seq<Range>)
    ensures Merge(ranges) == [] <==> ranges == []
  {
    if ranges != [] {
      SortSorts(ranges);
      assert ranges[0] in Sort(ranges);
    }
  }

  ghost predicate Within(r: Range, m: Range) {
    m.start <= r.start && r.end <= m.end && forall n <- r.names :: n in m.names
  }

  ghost predicate Held(m: seq<Range>, r: Range) {
    exists x <- m :: Within(r, x)
  }

  ghost predicate StartsOne(ranges: seq<Range>, x: Range) {
    exists r <- ranges :: r.start == x.start
  }

  ghost predicate NamedWithin(ranges: seq<Range>, x: Range, n: Text) {
    exists r <- ranges :: x.start <= r.start && r.end <= x.end && n in r.names
  }

  /** The last range after absorbing one that overlaps it. */
  function Grown(last: Range, r: Range): Range {
    Range(last.start, Max(last.end, r.end), AddNames(last.names, r.names))
  }

  lemma GrownHolds(last: Range, r: Range)
    requires last.start <= r.start
    ensures Within(last, Grown(last, r)) && Within(r, Grown(last, r))
  {
    forall n ensures n in Grown(last, r).names <==> n in last.names || n in r.names {
      NamesAdded(last.names, r.names, n);
    }
  }

  lemma AbsorbHolds(m: seq<Range>, r: Range, q: Range)
    requires m != [] ==> m[|m| - 1].start <= r.start
    requires q == r || Held(m, q)
    ensures Held(Absorb(m, r), q)
  {
    var k := if Overlaps(m, r) then |m| - 1 else |m|;
    var added := if Overlaps(m, r) then Grown(m[k], r) else r;
    assert Absorb(m, r) == m[..k] + [added] && added in m[..k] + [added];
    if Overlaps(m, r) { GrownHolds(m[k], r); }
    if q != r {
      var x :| x in m && Within(q, x);
      var i :| 0 <= i < |m| && m[i] == x;
      if i < k { assert (m[..k] + [added])[i] == x; } else { assert Within(q, added); }
    }
  }

  /** The last of some sorted ranges is absorbed into what the others merge to. */
  lemma LastAbsorbed(s: seq<Range>, before: seq<Range>, r: Range)
    requires Sorted(s) && Proper(s) && s == before + [r]
    ensures Sorted(before) && Proper(before) && AbsorbAll(s) == Absorb(AbsorbAll(before), r)
    ensures AbsorbAll(before) != [] ==> AbsorbAll(before)[|AbsorbAll(before)| - 1].start <= r.start
  {
    assert s[..|s| - 1] == before;
    forall q | q in before ensures q in s && q.start < q.end {}
    Absorbed(before);
  }

  lemma {:induction false} AbsorbAllHolds(s: seq<Range>, q: Range)
    requires Sorted(s) && Proper(s) && q in s
    ensures Held(AbsorbAll(s), q)
  {
    hide Held, Absorb, AbsorbAll, Sorted;
    var before, r := s[..|s| - 1], s[|s| - 1];
    assert s == before + [r];
    LastAbsorbed(s, before, r);
    if q != r { AbsorbAllHolds(before, q); }
    AbsorbHolds(AbsorbAll(before), r, q);
  }

  /** A range after absorbing another is that one, or grew out of one that was there. */
  lemma AbsorbFrom(m: seq<Range>, r: Range, x: Range) returns (was: Range)
    requires (m != [] ==> m[|m| - 1].start <= r.start) && x in Absorb(m, r) && x != r
    ensures was in m && was.start == x.start && was.end <= x.end
    ensures forall n <- x.names :: n in was.names || (n in r.names && x.start <= r.start && r.end <= x.end)
  {
    if Overlaps(m, r) {
      var k := |m| - 1;
      was := if x in m[..k] then x else m[k];
      if x !in m[..k] {
        forall n | n in x.names ensures n in was.names || n in r.names { NamesAdded(was.names, r.names, n); }
      }
    } else {
      was := x;
    }
  }

  lemma {:induction false} AbsorbAllStarts(s: seq<Range>, x: Range)
    requires Sorted(s) && Proper(s) && x in AbsorbAll(s)
    ensures StartsOne(s, x)
  {
    hide Absorb, Sorted;
    var before, r := s[..|s| - 1], s[|s| - 1];
    assert s == before + [r];
    LastAbsorbed(s, before, r);
    if x == r {
      assert r in s;
    } else {
      var was := AbsorbFrom(AbsorbAll(before), r, x);
      AbsorbAllStarts(before, was);
      var q :| q in before && q.start == was.start;
      assert q in s;
    }
  }

  lemma {:induction false} AbsorbAllNames(s: seq<Range>, x: Range, n: Text)
    requires Sorted(s) && Proper(s) && x in AbsorbAll(s) && n in x.names
    ensures NamedWithin(s, x, n)
  {
    hide Absorb, Sorted;
    var before, r := s[..|s| - 1], s[|s| - 1];
    assert s == before + [r];
    LastAbsorbed(s, before, r);
    if x == r {
      assert r in s;
    } else {
      var was := AbsorbFrom(AbsorbAll(before), r, x);
      if n in was.names {
        AbsorbAllNames(before, was, n);
        var q :| q in before && was.start <= q.start && q.end <= was.end && n in q.names;
        assert q in s;
      } else {
        assert r in s;
      }
    }
  }

  /** Every range given lies, names and all, within one merged range. */
  lemma MergeHolds(ranges: seq<Range>, r: Range)
    requires Proper(ranges) && r in ranges
    ensures Held(Merge(ranges), r)
  {
    SortSorts(ranges);
    AbsorbAllHolds(Sort(ranges), r);
  }

  /** A merged range starts where a range given starts, and bears only names of ranges given within it. */
  lemma MergeInvents(ranges: seq<Range>, x: Range)
    requires Proper(ranges) && x in Merge(ranges)
    ensures StartsOne(ranges, x)
    ensures forall n <- x.names :: NamedWithin(ranges, x, n)
  {
    SortSorts(ranges);
    AbsorbAllStarts(Sort(ranges), x);
    var r :| r in Sort(ranges) && r.start == x.start;
    assert r in ranges;
    forall n | n in x.names ensures NamedWithin(ranges, x, n) {
      AbsorbAllNames(Sort(ranges), x, n);
      var q :| q in Sort(ranges) && x.start <= q.start && q.end <= x.end && n in q.names;
      assert q in ranges;
    }
  }

  // ------------------------------------------------------------------------ masking

  /** The text with the covered units masked out. */
  function Mask(text: Text, ranges: seq<Range>): (masked: Text)
    ensures |masked| == |text|
    ensures forall i :: 0 <= i < |text| ==> masked[i] == if Covers(ranges, i) then MASK else text[i]
  {
    seq(|text|, i requires 0 <= i < |text| => if Covers(ranges, i) then MASK else text[i])
  }

  ghost predicate Fits(ranges: seq<Range>, length: nat) {
    Disjoint(ranges) && (ranges != [] ==> ranges[|ranges| - 1].end <= length)
  }

  lemma FitsEach(ranges: seq<Range>, length: nat, k: nat)
    requires Fits(ranges, length) && k < |ranges|
    ensures ranges[k].start < ranges[k].end <= length
    ensures k > 0 ==> ranges[k - 1].end <= ranges[k].start
  {
  }

  /** Between two disjoint ranges nothing is covered; within one everything is. */
  lemma CoveredByTurns(ranges: seq<Range>, k: nat, i: int)
    requires Disjoint(ranges) && k < |ranges| && (if k == 0 then 0 else ranges[k - 1].end) <= i < ranges[k].end
    ensures Covers(ranges, i) <==> ranges[k].start <= i
  {
    assert ranges[k] in ranges;
    if r :| r in ranges && In(r, i) {
      var j :| 0 <= j < |ranges| && ranges[j] == r;
    }
  }

  lemma UncoveredAfter(ranges: seq<Range>, i: int)
    requires Disjoint(ranges) && (ranges != [] ==> ranges[|ranges| - 1].end <= i)
    ensures !Covers(ranges, i)
  {
    forall r | r in ranges ensures !In(r, i) {
      var j :| 0 <= j < |ranges| && ranges[j] == r;
    }
  }

  method MaskFoundRanges(text: Text, ranges: seq<Range>) returns (masked: Text)
    requires Fits(ranges, |text|)
    ensures masked == Mask(text, ranges)
  {
    masked := [];
    var cursor := 0;
    for n := 0 to |ranges|
      invariant 0 <= cursor <= |text| && |masked| == cursor
      invariant cursor == if n == 0 then 0 else ranges[n - 1].end
      invariant masked == Mask(text, ranges)[..cursor]
    {
      FitsEach(ranges, |text|, n);
      var range := ranges[n];
      MaskedPiece(text, ranges, n, cursor);
      masked := masked + text[cursor..range.start] + Repeated(MASK, range.end - range.start);
      cursor := range.end;
    }
    MaskedRest(text, ranges, cursor);
    masked := masked + text[cursor..];
  }

  lemma MaskedPiece(text: Text, ranges: seq<Range>, n: nat, cursor: nat)
    requires Fits(ranges, |text|) && n < |ranges| && cursor == (if n == 0 then 0 else ranges[n - 1].end)
    requires cursor <= ranges[n].start < ranges[n].end <= |text|
    ensures var r := ranges[n];
      Mask(text, ranges)[..r.end] ==
        Mask(text, ranges)[..cursor] + text[cursor..r.start] + Repeated(MASK, r.end - r.start)
  {
    var r, m := ranges[n], Mask(text, ranges);
    forall i | cursor <= i < r.end ensures m[i] == if i < r.start then text[i] else MASK {
      CoveredByTurns(ranges, n, i);
    }
  }

  lemma MaskedRest(text: Text, ranges: seq<Range>, cursor: nat)
    requires Fits(ranges, |text|) && cursor == (if ranges == [] then 0 else ranges[|ranges| - 1].end) <= |text|
    ensures Mask(text, ranges) == Mask(text, ranges)[..cursor] + text[cursor..]
  {
    var m := Mask(text, ranges);
    forall i | cursor <= i < |text| ensures m[i] == text[i] {
      UncoveredAfter(ranges, i);
    }
  }

  // ---------------------------------------------------------------------- redacting

  /** What redacted text is made of: units of the original, and markers. */
  datatype Piece = Original(at: nat) | Marker

  function Originals(from: nat, upTo: nat): seq<Piece>
    requires from <= upTo
    decreases upTo - from
  {
    if from == upTo then [] else [Original(from)] + Originals(from + 1, upTo)
  }

  /** From the cursor on: what is not in a range, and one marker for each range. */
  function Pieces(ranges: seq<Range>, cursor: nat, length: nat): seq<Piece>
    requires Disjoint(ranges) && cursor <= length
    requires ranges != [] ==> cursor <= ranges[0].start && ranges[|ranges| - 1].end <= length
    decreases |ranges|
  {
    if ranges == [] then Originals(cursor, length)
    else
      Originals(cursor, ranges[0].start) + [Marker] + Pieces(ranges[1..], ranges[0].end, length)
  }

  function RenderPiece(text: Text, marker: Text, piece: Piece): Text {
    match piece
    case Original(at) => if at < |text| then [text[at]] else []
    case Marker => marker
  }

  function Render(text: Text, marker: Text, pieces: seq<Piece>): Text {
    if pieces == [] then [] else RenderPiece(text, marker, pieces[0]) + Render(text, marker, pieces[1..])
  }

  function RedactedWith(text: Text, marker: Text, ranges: seq<Range>): Text
    requires Fits(ranges, |text|)
  {
    Render(text, marker, Pieces(ranges, 0, |text|))
  }

  function Redacted(text: Text, ranges: seq<Range>): Text
    requires Fits(ranges, |text|)
  {
    RedactedWith(text, MARKER, ranges)
  }

  lemma RenderHead(text: Text, marker: Text, piece: Piece, rest: seq<Piece>)
    ensures Render(text, marker, [piece] + rest) == RenderPiece(text, marker, piece) + Render(text, marker, rest)
  {
    assert ([piece] + rest)[1..] == rest;
  }

  lemma {:induction false} RenderJoins(text: Text, marker: Text, a: seq<Piece>, b: seq<Piece>)
    ensures Render(text, marker, a + b) == Render(text, marker, a) + Render(text, marker, b)
  {
    if a == [] {
      assert a + b == b;
    } else {
      var first, rest := a[0], a[1..];
      RenderJoins(text, marker, rest, b);
      assert a == [first] + rest && a + b == [first] + (rest + b);
      RenderHead(text, marker, first, rest + b);
      Reassociated(RenderPiece(text, marker, first), Render(text, marker, rest), Render(text, marker, b));
    }
  }

  lemma {:induction false} RenderOriginals(text: Text, marker: Text, from: nat, upTo: nat)
    requires from <= upTo <= |text|
    ensures Render(text, marker, Originals(from, upTo)) == text[from..upTo]
    decreases upTo - from
  {
    if from < upTo {
      RenderOriginals(text, marker, from + 1, upTo);
      RenderHead(text, marker, Original(from), Originals(from + 1, upTo));
      assert text[from..upTo] == [text[from]] + text[from + 1..upTo];
    } else {
      assert text[from..upTo] == [];
    }
  }

  lemma RenderMarker(text: Text, marker: Text)
    ensures Render(text, marker, [Marker]) == marker
  {
    assert Render(text, marker, [Marker][1..]) == [];
  }

  /** The chunk for the first range, and what is left after it. */
  lemma RenderFirst(text: Text, marker: Text, ranges: seq<Range>, cursor: nat)
    requires Disjoint(ranges) && ranges != [] && cursor <= ranges[0].start && ranges[|ranges| - 1].end <= |text|
    ensures Render(text, marker, Pieces(ranges, cursor, |text|)) ==
      text[cursor..ranges[0].start] + marker + Render(text, marker, Pieces(ranges[1..], ranges[0].end, |text|))
  {
    var before, after := Originals(cursor, ranges[0].start), Pieces(ranges[1..], ranges[0].end, |text|);
    RenderJoins(text, marker, before + [Marker], after);
    RenderJoins(text, marker, before, [Marker]);
    RenderOriginals(text, marker, cursor, ranges[0].start);
    RenderMarker(text, marker);
  }

  /** What is written so far, and what is left, make up the redacted text. */
  ghost predicate Redacts(text: Text, marker: Text, ranges: seq<Range>, n: nat, cursor: nat, written: Text)
    requires Fits(ranges, |text|)
  {
    && n <= |ranges| && cursor <= |text| && (n < |ranges| ==> cursor <= ranges[n].start)
    && RedactedWith(text, marker, ranges) == written + Render(text, marker, Pieces(ranges[n..], cursor, |text|))
  }

  lemma RangeRedacted(text: Text, marker: Text, ranges: seq<Range>, n: nat, cursor: nat, written: Text)
    requires Fits(ranges, |text|) && n < |ranges| && Redacts(text, marker, ranges, n, cursor, written)
    ensures ranges[n].end <= |text|
    ensures Redacts(text, marker, ranges, n + 1, ranges[n].end, written + (text[cursor..ranges[n].start] + marker))
  {
    hide Render, RedactedWith, Pieces;
    var rest := ranges[n..];
    RenderFirst(text, marker, rest, cursor);
    assert rest[0] == ranges[n] && rest[1..] == ranges[n + 1..];
    var after := Render(text, marker, Pieces(ranges[n + 1..], ranges[n].end, |text|));
    Reassociated(written, text[cursor..ranges[n].start] + marker, after);
  }

  lemma AllRedacted(text: Text, marker: Text, ranges: seq<Range>, cursor: nat, written: Text)
    requires Fits(ranges, |text|) && Redacts(text, marker, ranges, |ranges|, cursor, written)
    ensures RedactedWith(text, marker, ranges) == written + text[cursor..]
  {
    assert ranges[|ranges|..] == [];
    RenderOriginals(text, marker, cursor, |text|);
    assert text[cursor..|text|] == text[cursor..];
  }

  lemma NothingRedacted(text: Text, marker: Text, ranges: seq<Range>)
    requires Fits(ranges, |text|)
    ensures Redacts(text, marker, ranges, 0, 0, [])
  {
    assert ranges[0..] == ranges;
    assert [] + RedactedWith(text, marker, ranges) == RedactedWith(text, marker, ranges);
  }

  method RedactRanges(text: Text, marker: Text, ranges: seq<Range>) returns (redacted: Text)
    requires Fits(ranges, |text|)
    ensures redacted == RedactedWith(text, marker, ranges)
  {
    redacted := [];
    var cursor: nat := 0;
    NothingRedacted(text, marker, ranges);
    for n := 0 to |ranges|
      invariant Redacts(text, marker, ranges, n, cursor, redacted)
    {
      RangeRedacted(text, marker, ranges, n, cursor, redacted);
      redacted := redacted + (text[cursor..ranges[n].start] + marker);
      cursor := ranges[n].end;
    }
    AllRedacted(text, marker, ranges, cursor, redacted);
    redacted := redacted + text[cursor..];
  }

  function Markers(pieces: seq<Piece>): nat {
    if pieces == [] then 0 else (if pieces[0].Marker? then 1 else 0) + Markers(pieces[1..])
  }

  lemma {:induction false} OriginalsAre(from: nat, upTo: nat, i: nat)
    requires from <= upTo
    ensures Original(i) in Originals(from, upTo) <==> from <= i < upTo
    ensures Markers(Originals(from, upTo)) == 0
    decreases upTo - from
  {
    if from < upTo {
      OriginalsAre(from + 1, upTo, i);
      assert ([Original(from)] + Originals(from + 1, upTo))[1..] == Originals(from + 1, upTo);
    }
  }

  lemma {:induction false} MarkersJoin(a: seq<Piece>, b: seq<Piece>)
    ensures Markers(a + b) == Markers(a) + Markers(b)
  {
    if a == [] {
      assert a + b == b;
    } else {
      MarkersJoin(a[1..], b);
      assert (a + b)[1..] == a[1..] + b;
    }
  }

  /** Exactly the units in no range survive, and each range leaves one marker. */
  lemma {:induction false} PiecesAreExact(ranges: seq<Range>, cursor: nat, length: nat, i: nat)
    requires Disjoint(ranges) && cursor <= length
    requires ranges != [] ==> cursor <= ranges[0].start && ranges[|ranges| - 1].end <= length
    ensures Original(i) in Pieces(ranges, cursor, length) <==> cursor <= i < length && !Covers(ranges, i)
    ensures Markers(Pieces(ranges, cursor, length)) == |ranges|
    decreases |ranges|
  {
    if ranges == [] {
      OriginalsAre(cursor, length, i);
    } else {
      var first, rest := ranges[0], ranges[1..];
      assert ranges == [first] + rest;
      PiecesAreExact(rest, first.end, length, i);
      OriginalsAre(cursor, first.start, i);
      FirstCovers(first, rest, i);
      MarkersJoin(Originals(cursor, first.start) + [Marker], Pieces(rest, first.end, length));
      MarkersJoin(Originals(cursor, first.start), [Marker]);
      assert Markers([Marker]) == 1 + Markers([Marker][1..]);
    }
  }

  /** Units of the original keep their order, each at most once. */
  ghost predicate Ascending(pieces: seq<Piece>) {
    forall j, k :: 0 <= j < k < |pieces| && pieces[j].Original? && pieces[k].Original? ==> pieces[j].at < pieces[k].at
  }

  /** All units from one index up to another. */
  ghost predicate Ranging(pieces: seq<Piece>, from: nat, upTo: nat) {
    Ascending(pieces) && forall j :: 0 <= j < |pieces| && pieces[j].Original? ==> from <= pieces[j].at < upTo
  }

  lemma RangingJoins(a: seq<Piece>, b: seq<Piece>, from: nat, middle: nat, upTo: nat)
    requires Ranging(a, from, middle) && Ranging(b, middle, upTo) && from <= middle <= upTo
    ensures Ranging(a + b, from, upTo)
  {
  }

  lemma {:induction false} OriginalsRange(from: nat, upTo: nat)
    requires from <= upTo
    ensures Ranging(Originals(from, upTo), from, upTo)
    decreases upTo - from
  {
    if from < upTo {
      OriginalsRange(from + 1, upTo);
      RangingJoins([Original(from)], Originals(from + 1, upTo), from, from + 1, upTo);
    }
  }

  /** What is left of a text is left in its order. */
  lemma {:induction false} PiecesRange(ranges: seq<Range>, cursor: nat, length: nat)
    requires Disjoint(ranges) && cursor <= length
    requires ranges != [] ==> cursor <= ranges[0].start && ranges[|ranges| - 1].end <= length
    ensures Ranging(Pieces(ranges, cursor, length), cursor, length)
    decreases |ranges|
  {
    if ranges == [] {
      OriginalsRange(cursor, length);
    } else {
      var first, rest := ranges[0], ranges[1..];
      OriginalsRange(cursor, first.start);
      PiecesRange(rest, first.end, length);
      RangingJoins(Originals(cursor, first.start), [Marker], cursor, first.start, first.end);
      var before := Originals(cursor, first.start) + [Marker];
      RangingJoins(before, Pieces(rest, first.end, length), cursor, first.end, length);
    }
  }

  lemma FirstCovers(first: Range, rest: seq<Range>, i: nat)
    requires Disjoint([first] + rest)
    ensures Covers([first] + rest, i) <==> In(first, i) || Covers(rest, i)
    ensures i < first.end ==> !Covers(rest, i)
  {
    var ranges := [first] + rest;
    assert first in ranges;
    if r :| r in rest && In(r, i) {
      assert r in ranges;
      var k :| 0 <= k < |rest| && rest[k] == r;
      assert ranges[0].end <= ranges[k + 1].start;
    }
    if r :| r in ranges && In(r, i) { assert r == first || r in rest; }
  }

  /** Redacting something changes the text, if the marker starts with no unit that a range starts with. */
  lemma RedactionShows(text: Text, marker: Text, ranges: seq<Range>)
    requires Fits(ranges, |text|) && ranges != [] && ranges[0].start < |text|
    requires marker != [] && text[ranges[0].start] != marker[0]
    ensures RedactedWith(text, marker, ranges) != text
  {
    RenderFirst(text, marker, ranges, 0);
    var at := ranges[0].start;
    var rest := Render(text, marker, Pieces(ranges[1..], ranges[0].end, |text|));
    MarkerAt(text[0..at], marker, rest);
  }

  lemma MarkerAt(before: Text, marker: Text, rest: Text)
    requires marker != []
    ensures (before + marker + rest)[|before|] == marker[0]
  {
  }
}
