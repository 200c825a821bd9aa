/**
 * Which units of a text are taken for secret, told from what the patterns match: in the text, in its
 * normalized form, and in the text with those finds hidden.
 */
module SecretCoverage {
  import opened CodeUnits
  import opened DetectionNormalization
  import opened RedactionRanges
  import opened SecretDetection
  import opened TerminalFormatting
  import opened TerminalSequences

  // ---------------------------------------------------------------- the normalized pass

  /** Whatever the key scan or the patterns match in a text. */
  function Found(p: Patterns, text: Text): seq<Range> {
    p.keys(text) + p.matches(text)
  }

  /** A unit of the source that lies between the first and the last unit of a match in the normalized text. */
  ghost predicate Under(offsets: seq<nat>, r: Range, i: int) {
    r.start < r.end <= |offsets| && offsets[r.start] <= i <= offsets[r.end - 1]
  }

  ghost predicate FoundUnder(offsets: seq<nat>, ranges: seq<Range>, i: int) {
    exists r <- ranges :: Under(offsets, r, i)
  }

  lemma {:induction false} MappedCovers(offsets: seq<nat>, ranges: seq<Range>, i: int)
    requires forall r <- ranges :: r.start < r.end <= |offsets|
    ensures Covers(MapRanges(offsets, ranges), i) <==> FoundUnder(offsets, ranges, i)
  {
    if ranges != [] {
      var front, last := ranges[..|ranges| - 1], ranges[|ranges| - 1];
      assert ranges == front + [last] && last in ranges;
      MappedCovers(offsets, front, i);
      EitherPart(MapRanges(offsets, front), MapRange(offsets, last), i);
      assert FoundUnder(offsets, ranges, i) <==> FoundUnder(offsets, front, i) || Under(offsets, last, i);
    }
  }

  /** The last of the offsets from one index to another that is not past a unit. */
  lemma {:induction false} OffsetBefore(offsets: seq<nat>, from: nat, upTo: nat, i: int) returns (j: nat)
    requires from <= upTo < |offsets| && offsets[from] <= i <= offsets[upTo]
    ensures from <= j <= upTo && offsets[j] <= i && (j < upTo ==> i < offsets[j + 1])
    decreases upTo - from
  {
    if from < upTo && offsets[from + 1] <= i {
      j := OffsetBefore(offsets, from + 1, upTo, i);
    } else {
      j := from;
    }
  }

  ghost predicate Ascends(offsets: seq<nat>) {
    forall j, k :: 0 <= j < k < |offsets| ==> offsets[j] < offsets[k]
  }

  lemma UnderWider(offsets: seq<nat>, r: Range, m: Range, i: int)
    requires Ascends(offsets) && Under(offsets, r, i) && m.start <= r.start && r.end <= m.end <= |offsets|
    ensures Under(offsets, m, i)
  {
  }

  /** Between the units of a range, a unit of the source lies at one of them, or between two neighbours. */
  lemma UnderNarrower(offsets: seq<nat>, given: seq<Range>, merged: seq<Range>, m: Range, i: int)
    requires Ascends(offsets) && m in merged && Under(offsets, m, i)
    requires forall r <- given :: r.start < r.end <= |offsets|
    requires forall j :: Covers(merged, j) ==> Covers(given, j)
    requires forall j :: Joins(merged, j) ==> Joins(given, j)
    ensures FoundUnder(offsets, given, i)
  {
    var j := OffsetBefore(offsets, m.start, m.end - 1, i);
    if offsets[j] == i {
      assert In(m, j) && Covers(merged, j);
      var r :| r in given && In(r, j);
      assert Under(offsets, r, i);
    } else {
      assert Spans(m, j + 1) && Joins(merged, j + 1);
      var r :| r in given && Spans(r, j + 1);
      assert Under(offsets, r, i);
    }
  }

  /** Merging changes nothing in what lies under the ranges. */
  lemma MergeUnder(offsets: seq<nat>, given: seq<Range>, i: int)
    requires Ascends(offsets) && forall r <- given :: r.start < r.end <= |offsets|
    ensures FoundUnder(offsets, Merge(given), i) <==> FoundUnder(offsets, given, i)
  {
    hide Merge;
    var merged := Merge(given);
    forall j ensures Covers(merged, j) <==> Covers(given, j) { MergeIsExact(given, j); }
    forall j ensures Joins(merged, j) <==> Joins(given, j) { MergeIsExact(given, j); }
    if m :| m in merged && Under(offsets, m, i) { UnderNarrower(offsets, given, merged, m, i); }
    if r :| r in given && Under(offsets, r, i) {
      MergeHolds(given, r);
      var m :| m in merged && Within(r, m);
      MergedEnds(given, m, |offsets|);
      UnderWider(offsets, r, m, i);
    }
  }

  lemma MergedEnds(given: seq<Range>, m: Range, length: nat)
    requires (forall r <- given :: r.start < r.end <= length) && m in Merge(given)
    ensures m.start < m.end <= length
  {
    hide Merge;
    MergeIsExact(given, m.end - 1);
    var k :| 0 <= k < |Merge(given)| && Merge(given)[k] == m;
    assert In(m, m.end - 1);
    var r :| r in given && In(r, m.end - 1);
  }

  lemma UnderEither(offsets: seq<nat>, a: seq<Range>, b: seq<Range>, i: int)
    ensures FoundUnder(offsets, a + b, i) <==> FoundUnder(offsets, a, i) || FoundUnder(offsets, b, i)
  {
    if r :| r in a && Under(offsets, r, i) { assert r in a + b; }
    if r :| r in b && Under(offsets, r, i) { assert r in a + b; }
  }

  /** What one pass collects over a text lies under what the patterns match in it. */
  lemma CollectUnder(p: Patterns, text: Text, offsets: seq<nat>, i: int)
    requires SanePatterns(p) && |offsets| == |text| && Ascends(offsets)
    ensures FoundUnder(offsets, Collect(p, text), i) <==> FoundUnder(offsets, Found(p, text), i)
  {
    hide FoundUnder, Merge;
    var keys, matches := p.keys(text), p.matches(text);
    assert Usable(keys, text) && Usable(matches, text);
    MergeUsable(matches, text);
    MergeUnder(offsets, matches, i);
    MergeUnder(offsets, keys + Merge(matches), i);
    UnderEither(offsets, keys, Merge(matches), i);
    UnderEither(offsets, keys, matches, i);
  }

  /**
   * The normalized pass covers a unit exactly when it lies between the sources of the first and the
   * last unit of something matched in the normalized text.
   */
  lemma NormalizedPassCovers(p: Patterns, text: Text, i: int)
    requires SanePatterns(p) && !AllPlain(text)
    ensures Covers(Obfuscated(p, text), i) <==> FoundUnder(Offsets(text), Found(p, Normalized(text)), i)
  {
    hide Collect, Offsets, Normalized, MapRanges, Covers;
    OffsetsAreFaithful(text);
    CollectUsable(p, Normalized(text));
    CollectUnder(p, Normalized(text), Offsets(text), i);
    MappedCovers(Offsets(text), Collect(p, Normalized(text)), i);
  }

  // ---------------------------------------------------------------------- all passes

  /** A unit that is matched in the text, or lies under a match in the normalized text. */
  ghost predicate Shown(p: Patterns, text: Text, i: int) {
    || Covers(p.keys(text), i) || Covers(p.matches(text), i)
    || FoundUnder(Offsets(text), Found(p, Normalized(text)), i)
  }

  lemma {:induction false} RangeAt(i: nat, j: nat, k: nat)
    requires i + k < j
    ensures |DetectionNormalization.Range(i, j)| == j - i && DetectionNormalization.Range(i, j)[k] == i + k
    decreases j - i
  {
    RangeGrows(i, j);
    if k > 0 { RangeAt(i + 1, j, k - 1); }
  }

  /** Of a plain text, everything is kept where it is. */
  lemma PlainOffsets(text: Text)
    requires AllPlain(text)
    ensures Normalized(text) == text && |Offsets(text)| == |text|
    ensures forall k :: 0 <= k < |text| ==> Offsets(text)[k] == k
  {
    PlainIsNormal(text);
    RunKept(text, 0, |text|);
    RangeGrows(0, |text|);
    forall k | 0 <= k < |text| ensures Offsets(text)[k] == k { RangeAt(0, |text|, k); }
  }

  lemma PlainPass(p: Patterns, text: Text, i: int)
    requires SanePatterns(p) && AllPlain(text)
    ensures FoundUnder(Offsets(text), Found(p, Normalized(text)), i) ==>
      Covers(p.keys(text), i) || Covers(p.matches(text), i)
  {
    PlainOffsets(text);
    if FoundUnder(Offsets(text), Found(p, Normalized(text)), i) {
      var r :| r in Found(p, text) && Under(Offsets(text), r, i);
      assert In(r, i);
    }
  }

  lemma FirstFoundShown(p: Patterns, text: Text, i: int)
    requires SanePatterns(p)
    ensures Covers(FirstFound(p, text), i) <==> Shown(p, text, i)
  {
    hide FirstFound, Offsets, Normalized, Found, FoundUnder;
    FirstFoundCovers(p, text, i);
    if AllPlain(text) {
      PlainPass(p, text, i);
    } else {
      NormalizedPassCovers(p, text, i);
    }
  }

  /** The text with every unit shown so far replaced by U+0000. */
  ghost predicate HidesShown(p: Patterns, text: Text, masked: Text) {
    && |masked| == |text|
    && forall i :: 0 <= i < |text| ==> masked[i] == if Shown(p, text, i) then 0 else text[i]
  }

  lemma MaskHides(p: Patterns, text: Text, masked: Text)
    requires SanePatterns(p) && HidesShown(p, text, masked)
    ensures Mask(text, FirstFound(p, text)) == masked
    ensures FirstFound(p, text) == [] ==> masked == text
  {
    hide FirstFound, Shown;
    forall i | 0 <= i < |text| ensures Mask(text, FirstFound(p, text))[i] == masked[i] { FirstFoundShown(p, text, i); }
  }

  /**
   * A unit is secret exactly when it is matched in the text, lies under a match in the normalized
   * text, or is matched once all of those are hidden.
   */
  lemma SecretUnits(p: Patterns, text: Text, masked: Text, i: int)
    requires SanePatterns(p) && HidesShown(p, text, masked)
    ensures Covers(SecretRanges(p, text), i) <==> Shown(p, text, i) || Covers(p.matches(masked), i)
  {
    hide FirstFound, Shown, Obfuscated, SecretRanges, HidesShown, Mask;
    MaskHides(p, text, masked);
    FirstFoundShown(p, text, i);
    FirstFoundCovers(p, text, i);
    SecretRangesAreExact(p, text, i);
  }

  /** Redaction takes out exactly the secret units, and leaves the others in order. */
  lemma SecretsAreTakenOut(p: Patterns, text: Text, masked: Text) returns (pieces: seq<Piece>)
    requires SanePatterns(p) && HidesShown(p, text, masked)
    ensures RedactSecrets(p, text) == Render(text, MARKER, pieces) && Ranging(pieces, 0, |text|)
    ensures forall i: nat :: i < |text| ==>
      (Original(i) in pieces <==> !Shown(p, text, i) && !Covers(p.matches(masked), i))
  {
    hide SecretRanges, Shown, HidesShown, Render, Ranging, Covers, Pieces;
    var ranges := SecretRanges(p, text);
    SecretRangesUsable(p, text);
    pieces := Pieces(ranges, 0, |text|);
    PiecesRange(ranges, 0, |text|);
    forall i: nat | i < |text| ensures Original(i) in pieces <==> !Shown(p, text, i) && !Covers(p.matches(masked), i) {
      PiecesAreExact(ranges, 0, |text|, i);
      SecretUnits(p, text, masked, i);
    }
  }

  // ---------------------------------------------------------------------- tokens broken up

  /** What is seen of a text written out as visible units and terminal sequences. */
  function Rendered(items: seq<Item>): Text {
    if items == [] then [] else
      (match items[0]
       case Visible(u) => if IsInvisible(u) then [] else if IsSpaceLike(u) then [SPACE] else [u]
       case _ => [])
      + Rendered(items[1..])
  }

  lemma {:induction false} VisibleIsRendered(items: seq<Item>)
    ensures FoldSpaces(RemoveInvisible(VisibleOf(items))) == Rendered(items)
  {
    if items != [] {
      var rest := VisibleOf(items[1..]);
      VisibleIsRendered(items[1..]);
      if items[0].Visible? {
        FoldFirst(items[0].unit, rest);
        FoldFirst(items[0].unit, RemoveInvisible(rest));
      } else {
        assert VisibleOf(items) == rest;
      }
      assert [] + Rendered(items[1..]) == Rendered(items[1..]);
    }
  }

  /** However a token is broken up by sequences and invisible units, the normalized text has it whole. */
  lemma BrokenUpIsRejoined(items: seq<Item>)
    requires forall x <- items :: WellFormed(x)
    ensures Normalized(TerminalSequences.Written(items)) == Rendered(items)
  {
    SequencesAreRemoved(items);
    VisibleIsRendered(items);
  }
}
