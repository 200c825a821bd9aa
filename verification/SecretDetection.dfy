/**
 * Finding secrets: the direct pass, the pass over normalized text, and the rescan of what
 * the first finds had hidden. What the patterns match is left open; a finder stands for it.
 */
module SecretDetection {
  import opened CodeUnits
  import opened DetectionNormalization
  import opened RedactionRanges

  /** Where the patterns match a text. */
  type Finder = Text -> seq<Range>

  datatype Patterns = Patterns(keys: Finder, matches: Finder)

  /** Ranges that can be redacted: named, not empty, in bounds, and not starting at a bracket. */
  ghost predicate Usable(ranges: seq<Range>, text: Text) {
    forall r <- ranges :: r.start < r.end <= |text| && text[r.start] != BRACKET && r.names != []
  }

  ghost predicate Sane(find: Finder) {
    forall text: Text :: Usable(find(text), text)
  }

  ghost predicate SanePatterns(p: Patterns) {
    Sane(p.keys) && Sane(p.matches)
  }

  // ------------------------------------------------------------------------ one pass

  function CollectMatches(p: Patterns, text: Text): seq<Range> {
    Merge(p.matches(text))
  }

  function Collect(p: Patterns, text: Text): seq<Range> {
    Merge(p.keys(text) + CollectMatches(p, text))
  }

  method CollectPatternRanges(p: Patterns, text: Text) returns (found: seq<Range>)
    ensures found == CollectMatches(p, text)
  {
    found := MergeRedactionRanges(p.matches(text));
  }

  method CollectRedactionRanges(p: Patterns, text: Text) returns (found: seq<Range>)
    ensures found == Collect(p, text)
  {
    var matches := CollectPatternRanges(p, text);
    found := MergeRedactionRanges(p.keys(text) + matches);
  }

  // -------------------------------------------------------- back to original offsets

  /** A range of normalized text, over the units it came from. */
  function MapRange(offsets: seq<nat>, r: Range): Range {
    if r.start < r.end <= |offsets| then Range(offsets[r.start], offsets[r.end - 1] + 1, r.names) else r
  }

  /** All ranges but the empty ones, carried back in order. */
  function MapRanges(offsets: seq<nat>, ranges: seq<Range>): seq<Range> {
    if ranges == [] then [] else
      var last := ranges[|ranges| - 1];
      MapRanges(offsets, ranges[..|ranges| - 1]) + (if last.end <= last.start then [] else [MapRange(offsets, last)])
  }

  lemma {:induction false} MappedRange(offsets: seq<nat>, ranges: seq<Range>, x: Range) returns (r: Range)
    requires x in MapRanges(offsets, ranges)
    ensures r in ranges && r.start < r.end && x == MapRange(offsets, r)
  {
    var last := ranges[|ranges| - 1];
    if last.start < last.end && x == MapRange(offsets, last) {
      r := last;
    } else {
      r := MappedRange(offsets, ranges[..|ranges| - 1], x);
    }
  }

  method MapNormalizedRanges(n: NormalizedText, ranges: seq<Range>) returns (mapped: seq<Range>)
    requires EndsFollow(n) && forall r <- ranges :: r.end <= |n.start|
    ensures mapped == MapRanges(n.start, ranges)
  {
    mapped := [];
    for k := 0 to |ranges|
      invariant mapped == MapRanges(n.start, ranges[..k])
    {
      var range := ranges[k];
      assert range in ranges && ranges[..k + 1][..k] == ranges[..k];
      if range.end <= range.start { continue; }
      mapped := mapped + [Range(n.start[range.start], n.end[range.end - 1], range.names)];
    }
    assert ranges[..|ranges|] == ranges;
  }

  lemma MappedUsable(text: Text, ranges: seq<Range>)
    requires Usable(ranges, Normalized(text))
    ensures Usable(MapRanges(Offsets(text), ranges), text)
  {
    var offsets := Offsets(text);
    OffsetsAreFaithful(text);
    forall x | x in MapRanges(offsets, ranges)
      ensures x.start < x.end <= |text| && text[x.start] != BRACKET && x.names != []
    {
      var r := MappedRange(offsets, ranges, x);
      assert Normalized(text)[r.start] != BRACKET;
      assert offsets[r.start] <= offsets[r.end - 1];
    }
  }

  // ---------------------------------------------------------------------- all passes

  predicate AllPlain(text: Text) {
    forall k :: 0 <= k < |text| ==> IsPlain(text[k])
  }

  /** What the normalized text shows, over the original. */
  function Obfuscated(p: Patterns, text: Text): seq<Range> {
    if AllPlain(text) then [] else MapRanges(Offsets(text), Collect(p, Normalized(text)))
  }

  function FirstFound(p: Patterns, text: Text): seq<Range> {
    Merge(Collect(p, text) + Obfuscated(p, text))
  }

  /** What else the patterns match with the first finds masked out. */
  function Uncovered(p: Patterns, text: Text): seq<Range> {
    var found := FirstFound(p, text);
    if found == [] then [] else p.matches(Mask(text, found))
  }

  function SecretRanges(p: Patterns, text: Text): seq<Range> {
    var found, uncovered := FirstFound(p, text), Uncovered(p, text);
    if uncovered == [] then found else Merge(found + Merge(uncovered))
  }

  // -------------------------------------------------------------- the ranges are usable

  ghost predicate InText(ranges: seq<Range>, length: nat) {
    forall r <- ranges :: r.start < r.end <= length && r.names != []
  }

  lemma MergeStaysInText(ranges: seq<Range>, length: nat)
    requires InText(ranges, length)
    ensures Disjoint(Merge(ranges)) && InText(Merge(ranges), length)
  {
    MergeIsExact(ranges, 0);
    var m := Merge(ranges);
    forall x | x in m ensures x.start < x.end <= length && x.names != [] {
      var k :| 0 <= k < |m| && m[k] == x;
      MergeIsExact(ranges, x.end - 1);
      assert In(x, x.end - 1) && Covers(m, x.end - 1);
      MergeInvents(ranges, x);
      var r :| r in ranges && r.start == x.start;
      MergeHolds(ranges, r);
      SameMerged(m, x, r);
      assert r.names[0] in r.names;
    }
  }

  /** The one merged range that starts where another range does is the one that holds it. */
  lemma SameMerged(m: seq<Range>, x: Range, r: Range)
    requires Disjoint(m) && x in m && Held(m, r) && In(x, r.start) && r.start < r.end
    ensures Within(r, x)
  {
    var y :| y in m && Within(r, y);
    var i :| 0 <= i < |m| && m[i] == x;
    var j :| 0 <= j < |m| && m[j] == y;
  }

  lemma InTextFits(ranges: seq<Range>, length: nat)
    requires Disjoint(ranges) && InText(ranges, length)
    ensures Fits(ranges, length)
  {
    if ranges != [] { assert ranges[|ranges| - 1] in ranges; }
  }

  lemma MergeUsable(ranges: seq<Range>, text: Text)
    requires Usable(ranges, text)
    ensures Usable(Merge(ranges), text) && Disjoint(Merge(ranges))
  {
    MergeStaysInText(ranges, |text|);
    forall x | x in Merge(ranges) ensures text[x.start] != BRACKET {
      MergeInvents(ranges, x);
    }
  }

  lemma UsableTogether(a: seq<Range>, b: seq<Range>, text: Text)
    requires Usable(a, text) && Usable(b, text)
    ensures Usable(a + b, text)
  {
  }

  lemma CollectUsable(p: Patterns, text: Text)
    requires SanePatterns(p)
    ensures Usable(Collect(p, text), text) && Disjoint(Collect(p, text))
  {
    MergeUsable(p.matches(text), text);
    UsableTogether(p.keys(text), CollectMatches(p, text), text);
    MergeUsable(p.keys(text) + CollectMatches(p, text), text);
  }

  lemma FirstFoundUsable(p: Patterns, text: Text)
    requires SanePatterns(p)
    ensures Usable(Collect(p, text), text) && Usable(Obfuscated(p, text), text)
    ensures Usable(FirstFound(p, text), text) && Disjoint(FirstFound(p, text))
  {
    CollectUsable(p, text);
    if !AllPlain(text) {
      CollectUsable(p, Normalized(text));
      MappedUsable(text, Collect(p, Normalized(text)));
    }
    UsableTogether(Collect(p, text), Obfuscated(p, text), text);
    MergeUsable(Collect(p, text) + Obfuscated(p, text), text);
  }

  /** A range found with others masked out starts at a unit of its own, or is merged into one of them. */
  lemma RescanUsable(text: Text, found: seq<Range>, more: seq<Range>)
    requires Usable(found, text) && Disjoint(found) && Usable(more, Mask(text, found))
    ensures Usable(Merge(found + more), text) && Disjoint(Merge(found + more))
  {
    var all, m := found + more, Merge(found + more);
    assert InText(all, |text|);
    MergeStaysInText(all, |text|);
    forall x | x in m ensures text[x.start] != BRACKET {
      MergeInvents(all, x);
      var r :| r in all && r.start == x.start;
      if r !in found && Covers(found, r.start) {
        var f :| f in found && In(f, r.start);
        assert f in all;
        MergeHolds(all, f);
        SameStart(m, x, f);
      }
    }
  }

  lemma SameStart(m: seq<Range>, x: Range, f: Range)
    requires Disjoint(m) && x in m && Held(m, f) && In(f, x.start)
    ensures f.start == x.start
  {
    var y :| y in m && Within(f, y);
    var i :| 0 <= i < |m| && m[i] == x;
    var j :| 0 <= j < |m| && m[j] == y;
  }

  lemma SecretRangesUsable(p: Patterns, text: Text)
    requires SanePatterns(p)
    ensures Usable(SecretRanges(p, text), text) && Disjoint(SecretRanges(p, text))
    ensures Fits(SecretRanges(p, text), |text|) && Fits(FirstFound(p, text), |text|)
  {
    var found := FirstFound(p, text);
    FirstFoundUsable(p, text);
    InTextFits(found, |text|);
    if Uncovered(p, text) != [] {
      MergeUsable(Uncovered(p, text), Mask(text, found));
      RescanUsable(text, found, Merge(Uncovered(p, text)));
    }
    InTextFits(SecretRanges(p, text), |text|);
  }

  // ---------------------------------------------------------------- what they cover

  lemma CoversTogether(a: seq<Range>, b: seq<Range>, i: int)
    ensures Covers(a + b, i) <==> Covers(a, i) || Covers(b, i)
    ensures Joins(a + b, i) <==> Joins(a, i) || Joins(b, i)
  {
    if r :| r in a && In(r, i) { assert r in a + b; }
    if r :| r in b && In(r, i) { assert r in a + b; }
    if r :| r in a && Spans(r, i) { assert r in a + b; }
    if r :| r in b && Spans(r, i) { assert r in a + b; }
  }

  lemma MergeTogether(a: seq<Range>, b: seq<Range>, i: int)
    requires Proper(a) && Proper(b)
    ensures Covers(Merge(a + b), i) <==> Covers(a, i) || Covers(b, i)
    ensures Joins(Merge(a + b), i) <==> Joins(a, i) || Joins(b, i)
  {
    MergeIsExact(a + b, i);
    CoversTogether(a, b, i);
  }

  lemma FirstFoundCovers(p: Patterns, text: Text, i: int)
    requires SanePatterns(p)
    ensures Covers(FirstFound(p, text), i) <==>
      Covers(p.keys(text), i) || Covers(p.matches(text), i) || Covers(Obfuscated(p, text), i)
    ensures Joins(FirstFound(p, text), i) <==>
      Joins(p.keys(text), i) || Joins(p.matches(text), i) || Joins(Obfuscated(p, text), i)
  {
    FirstFoundUsable(p, text);
    MergeUsable(p.matches(text), text);
    MergeIsExact(p.matches(text), i);
    MergeTogether(p.keys(text), CollectMatches(p, text), i);
    MergeTogether(Collect(p, text), Obfuscated(p, text), i);
  }

  /**
   * Secret ranges are in order, disjoint, in bounds and named. They cover exactly what the
   * direct pass, the normalized pass and the rescan cover; and two neighbouring units lie in
   * one range only if one of those passes had them in one.
   */
  lemma SecretRangesAreExact(p: Patterns, text: Text, i: int)
    requires SanePatterns(p)
    ensures Disjoint(SecretRanges(p, text)) && Usable(SecretRanges(p, text), text)
    ensures Covers(SecretRanges(p, text), i) <==>
      (|| Covers(p.keys(text), i) || Covers(p.matches(text), i)
       || Covers(Obfuscated(p, text), i) || Covers(Uncovered(p, text), i))
    ensures Joins(SecretRanges(p, text), i) <==>
      (|| Joins(p.keys(text), i) || Joins(p.matches(text), i)
       || Joins(Obfuscated(p, text), i) || Joins(Uncovered(p, text), i))
  {
    SecretRangesUsable(p, text);
    FirstFoundUsable(p, text);
    FirstFoundCovers(p, text, i);
    var found, more := FirstFound(p, text), Uncovered(p, text);
    if more != [] {
      MergeUsable(more, Mask(text, found));
      MergeIsExact(more, i);
      MergeTogether(found, Merge(more), i);
    }
  }

  // ---------------------------------------------------------------------- the methods

  method FindSecretRanges(p: Patterns, text: Text) returns (ranges: seq<Range>)
    requires SanePatterns(p)
    ensures ranges == SecretRanges(p, text)
  {
    SecretRangesUsable(p, text);
    var direct := CollectRedactionRanges(p, text);
    var obfuscated := FindObfuscated(p, text);
    var found := MergeRedactionRanges(direct + obfuscated);
    if |found| == 0 { return found; }
    var masked := MaskFoundRanges(text, found);
    var rescanned := CollectPatternRanges(p, masked);
    MergeNothing(p.matches(masked));
    if |rescanned| == 0 { return found; }
    ranges := MergeRedactionRanges(found + rescanned);
  }

  method FindObfuscated(p: Patterns, text: Text) returns (obfuscated: seq<Range>)
    requires SanePatterns(p)
    ensures obfuscated == Obfuscated(p, text)
  {
    var normalized := NormalizeForDetection(text);
    if normalized.None? { return []; }
    CollectUsable(p, Normalized(text));
    OffsetsAreFaithful(text);
    var ranges := CollectRedactionRanges(p, normalized.value.text);
    obfuscated := MapNormalizedRanges(normalized.value, ranges);
  }

  function RedactSecrets(p: Patterns, text: Text): Text
    requires SanePatterns(p)
  {
    SecretRangesUsable(p, text);
    Redacted(text, SecretRanges(p, text))
  }

  method RedactBothPasses(p: Patterns, text: Text) returns (redacted: Text)
    requires SanePatterns(p)
    ensures redacted == RedactSecrets(p, text)
  {
    SecretRangesUsable(p, text);
    var ranges := FindSecretRanges(p, text);
    if |ranges| == 0 {
      RenderOriginals(text, MARKER, 0, |text|);
      assert text[0..|text|] == text;
      return text;
    }
    redacted := RedactRanges(text, MARKER, ranges);
  }

  // ------------------------------------------------------------------------ locations

  datatype Tier = Refuse | Warn

  /** One detected run: where and what, never the text. */
  datatype Location = Location(patterns: seq<Text>, tier: Tier, start: nat, end: nat)

  ghost predicate Locates(l: Location, r: Range, refuses: Text -> bool) {
    && l.patterns == r.names && l.start == r.start && l.end == r.end
    && (l.tier == Refuse <==> exists n <- r.names :: refuses(n))
  }

  method AnyRefuses(names: seq<Text>, refuses: Text -> bool) returns (any: bool)
    ensures any <==> exists n <- names :: refuses(n)
  {
    for k := 0 to |names|
      invariant forall j :: 0 <= j < k ==> !refuses(names[j])
    {
      if refuses(names[k]) { return true; }
    }
    any := false;
  }

  ghost predicate LocateAll(locations: seq<Location>, ranges: seq<Range>, refuses: Text -> bool) {
    && |locations| == |ranges|
    && forall k :: 0 <= k < |ranges| ==> Locates(locations[k], ranges[k], refuses)
  }

  method LocationsOf(ranges: seq<Range>, refuses: Text -> bool) returns (locations: seq<Location>)
    ensures LocateAll(locations, ranges, refuses)
  {
    locations := [];
    for k := 0 to |ranges|
      invariant |locations| == k && forall j :: 0 <= j < k ==> Locates(locations[j], ranges[j], refuses)
    {
      var any := AnyRefuses(ranges[k].names, refuses);
      var tier := if any then Refuse else Warn;
      locations := locations + [Location(ranges[k].names, tier, ranges[k].start, ranges[k].end)];
    }
  }

  /** The very ranges that redaction replaces; none exactly when redaction changes nothing. */
  method FindSecretLocations(p: Patterns, refuses: Text -> bool, text: Text) returns (locations: seq<Location>)
    requires SanePatterns(p)
    ensures LocateAll(locations, SecretRanges(p, text), refuses)
    ensures locations == [] <==> RedactSecrets(p, text) == text
  {
    RedactionTells(p, text);
    if |text| == 0 {
      NothingInNoText(p);
      return [];
    }
    var ranges := FindSecretRanges(p, text);
    locations := LocationsOf(ranges, refuses);
  }

  lemma NothingInNoText(p: Patterns)
    requires SanePatterns(p)
    ensures SecretRanges(p, []) == []
  {
    SecretRangesUsable(p, []);
  }

  /** Something is found exactly when redaction changes the text. */
  lemma RedactionTells(p: Patterns, text: Text)
    requires SanePatterns(p)
    ensures SecretRanges(p, text) == [] <==> RedactSecrets(p, text) == text
  {
    SecretRangesUsable(p, text);
    var ranges := SecretRanges(p, text);
    if ranges == [] {
      RenderOriginals(text, MARKER, 0, |text|);
      assert text[0..|text|] == text;
    } else {
      assert ranges[0] in ranges;
      RedactionShows(text, MARKER, ranges);
    }
  }
}
