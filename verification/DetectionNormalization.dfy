/**
 * The text a secret detector looks at: what renders as nothing is removed, what renders as
 * a space becomes one, and every unit remembers where it came from.
 */
module DetectionNormalization {
  import opened CodeUnits
  import opened Options
  import opened Sequences
  import opened TerminalFormatting

  const SPACE: CodeUnit := 0x20

  predicate IsInvisible(u: CodeUnit) {
    || u == 0x00ad || u == 0x061c || u == 0x180e || u == 0xfeff
    || 0x0300 <= u <= 0x036f || 0x200b <= u <= 0x200f || 0x202a <= u <= 0x202e
    || 0x2060 <= u <= 0x2064 || 0x2066 <= u <= 0x2069 || 0xfe00 <= u <= 0xfe0f
  }

  predicate IsSpaceLike(u: CodeUnit) {
    u == 0x00a0 || u == 0x2007 || u == 0x202f
  }

  /** Left as it is. */
  predicate IsPlain(u: CodeUnit) {
    IsVisible(u) && !IsInvisible(u) && !IsSpaceLike(u)
  }

  // ------------------------------------------------------------------ in three passes

  function RemoveInvisible(text: Text): Text {
    if text == [] then []
    else if IsInvisible(text[0]) then RemoveInvisible(text[1..])
    else [text[0]] + RemoveInvisible(text[1..])
  }

  function Folded(u: CodeUnit): CodeUnit {
    if IsSpaceLike(u) then SPACE else u
  }

  function FoldSpaces(text: Text): Text {
    if text == [] then [] else [Folded(text[0])] + FoldSpaces(text[1..])
  }

  /** Terminal sequences stripped, then invisible units removed, then spaces folded. */
  function Normalized(text: Text): Text {
    FoldSpaces(RemoveInvisible(Strip(text)))
  }

  // ------------------------------------------------------------------------- offsets

  /** The offsets of the units kept from index i on. */
  function OffsetsFrom(text: Text, i: nat): seq<nat>
    requires i <= |text|
    decreases |text| - i
  {
    if i == |text| then []
    else if IsVisible(text[i]) && !IsInvisible(text[i]) then [i] + OffsetsFrom(text, i + 1)
    else OffsetsFrom(text, Next(text, i))
  }

  function Offsets(text: Text): seq<nat> {
    OffsetsFrom(text, 0)
  }

  /** The units at the given offsets, spaces folded. */
  function Pick(text: Text, offsets: seq<nat>): Text {
    if offsets == [] then []
    else if offsets[0] < |text| then [Folded(text[offsets[0]])] + Pick(text, offsets[1..])
    else Pick(text, offsets[1..])
  }

  lemma PickFirst(text: Text, i: nat, rest: seq<nat>)
    ensures Pick(text, [i] + rest) == if i < |text| then [Folded(text[i])] + Pick(text, rest) else Pick(text, rest)
  {
    assert ([i] + rest)[1..] == rest;
  }

  lemma {:induction false} PickJoins(text: Text, a: seq<nat>, b: seq<nat>)
    ensures Pick(text, a + b) == Pick(text, a) + Pick(text, b)
  {
    if a == [] {
      assert a + b == b;
    } else {
      var first, rest := a[0], a[1..];
      PickJoins(text, rest, b);
      assert a == [first] + rest && a + b == [first] + (rest + b);
      PickFirst(text, first, rest);
      PickFirst(text, first, rest + b);
      if first < |text| {
        Reassociated([Folded(text[first])], Pick(text, rest), Pick(text, b));
      }
    }
  }

  lemma FoldFirst(u: CodeUnit, rest: Text)
    ensures FoldSpaces([u] + rest) == [Folded(u)] + FoldSpaces(rest)
    ensures RemoveInvisible([u] + rest) == if IsInvisible(u) then RemoveInvisible(rest) else [u] + RemoveInvisible(rest)
  {
    assert ([u] + rest)[1..] == rest;
  }

  lemma {:induction false} PickedFrom(text: Text, i: nat)
    requires i <= |text|
    ensures Pick(text, OffsetsFrom(text, i)) == FoldSpaces(RemoveInvisible(Kept(text, i)))
    decreases |text| - i
  {
    if i < |text| {
      var next := Next(text, i);
      PickedFrom(text, next);
      if IsVisible(text[i]) {
        FoldFirst(text[i], Kept(text, next));
        if !IsInvisible(text[i]) {
          FoldFirst(text[i], RemoveInvisible(Kept(text, next)));
          PickFirst(text, i, OffsetsFrom(text, next));
        }
      }
    }
  }

  ghost predicate Increasing(offsets: seq<nat>, from: nat, to: nat) {
    && (forall k :: 0 <= k < |offsets| ==> from <= offsets[k] < to)
    && (forall j, k :: 0 <= j < k < |offsets| ==> offsets[j] < offsets[k])
  }

  lemma {:induction false} OffsetsIncrease(text: Text, i: nat)
    requires i <= |text|
    ensures Increasing(OffsetsFrom(text, i), i, |text|)
    decreases |text| - i
  {
    if i < |text| { OffsetsIncrease(text, Next(text, i)); }
  }

  lemma {:induction false} PickAt(text: Text, offsets: seq<nat>, k: nat)
    requires (forall j :: 0 <= j < |offsets| ==> offsets[j] < |text|) && k < |offsets|
    ensures |Pick(text, offsets)| == |offsets| && Pick(text, offsets)[k] == Folded(text[offsets[k]])
  {
    PickLength(text, offsets);
    if k > 0 { PickAt(text, offsets[1..], k - 1); }
  }

  lemma {:induction false} PickLength(text: Text, offsets: seq<nat>)
    requires forall j :: 0 <= j < |offsets| ==> offsets[j] < |text|
    ensures |Pick(text, offsets)| == |offsets|
  {
    if offsets != [] { PickLength(text, offsets[1..]); }
  }

  /**
   * The kept units, in three passes or one: their offsets increase strictly, and each is the
   * source unit at its offset, or the space that one was folded into.
   */
  lemma OffsetsAreFaithful(text: Text)
    ensures Increasing(Offsets(text), 0, |text|) && |Normalized(text)| == |Offsets(text)|
    ensures forall k :: 0 <= k < |Offsets(text)| ==>
      var u := text[Offsets(text)[k]];
      Normalized(text)[k] == if IsSpaceLike(u) then SPACE else u
  {
    OffsetsIncrease(text, 0);
    PickedFrom(text, 0);
    PickLength(text, Offsets(text));
    forall k | 0 <= k < |Offsets(text)|
      ensures Normalized(text)[k] == Folded(text[Offsets(text)[k]])
    {
      PickAt(text, Offsets(text), k);
    }
  }

  // ---------------------------------------------------------------------- the one pass

  /** The numbers from i up to j. */
  function Range(i: nat, j: nat): seq<nat>
    requires i <= j
    decreases j - i
  {
    if i == j then [] else [i] + Range(i + 1, j)
  }

  lemma {:induction false} RangeGrows(i: nat, j: nat)
    requires i <= j
    ensures Range(i, j + 1) == Range(i, j) + [j] && |Range(i, j)| == j - i
    decreases j - i
  {
    if i < j { RangeGrows(i + 1, j); }
  }

  ghost predicate PlainRun(text: Text, i: nat, j: nat) {
    i <= j <= |text| && forall k :: i <= k < j ==> IsPlain(text[k])
  }

  /** A run of plain units is kept, offset by offset, as it stands. */
  lemma {:induction false} RunKept(text: Text, i: nat, j: nat)
    requires PlainRun(text, i, j)
    ensures OffsetsFrom(text, i) == Range(i, j) + OffsetsFrom(text, j)
    decreases j - i
  {
    hide IsInvisible, IsSpaceLike, IsVisible;
    if i < j {
      RunKept(text, i + 1, j);
      Reassociated([i], Range(i + 1, j), OffsetsFrom(text, j));
    }
  }

  lemma {:induction false} RunPicked(text: Text, i: nat, j: nat)
    requires PlainRun(text, i, j)
    ensures Pick(text, Range(i, j)) == text[i..j]
    decreases j - i
  {
    hide IsInvisible, IsSpaceLike, IsVisible;
    if i < j {
      RunPicked(text, i + 1, j);
      PickFirst(text, i, Range(i + 1, j));
      assert text[i..j] == [text[i]] + text[i + 1..j];
    }
  }

  /** Each unit, per unit kept: its text, and the source range it came from. */
  datatype NormalizedText = NormalizedText(text: Text, start: seq<nat>, end: seq<nat>)

  /** What has been kept so far, with the plain run under way, and what is left. */
  ghost predicate Normalizes(text: Text, pieces: Text, starts: seq<nat>, runStart: nat) {
    && runStart <= |text| && |starts| <= runStart
    && pieces == Pick(text, starts)
    && Offsets(text) == starts + OffsetsFrom(text, runStart)
  }

  lemma NoMoreThanPassed(text: Text, pieces: Text, starts: seq<nat>, runStart: nat)
    requires Normalizes(text, pieces, starts, runStart)
    ensures |starts| <= runStart <= |text|
  {
  }

  lemma RunTaken(text: Text, pieces: Text, starts: seq<nat>, runStart: nat, upTo: nat)
    requires Normalizes(text, pieces, starts, runStart) && PlainRun(text, runStart, upTo)
    ensures Normalizes(text, pieces + text[runStart..upTo], starts + Range(runStart, upTo), upTo)
  {
    hide IsPlain, Pick, OffsetsFrom, Range;
    RunKept(text, runStart, upTo);
    RunPicked(text, runStart, upTo);
    RangeGrows(runStart, upTo);
    PickJoins(text, starts, Range(runStart, upTo));
    Reassociated(starts, Range(runStart, upTo), OffsetsFrom(text, upTo));
  }

  /** A unit that ends a run: folded, or dropped with the span it begins. */
  lemma UnitTaken(text: Text, pieces: Text, starts: seq<nat>, i: nat)
    requires i < |text| && Normalizes(text, pieces, starts, i) && !IsPlain(text[i])
    ensures IsSpaceLike(text[i]) && IsVisible(text[i]) ==>
      Normalizes(text, pieces + [SPACE], starts + [i], i + 1)
    ensures !(IsSpaceLike(text[i]) && IsVisible(text[i])) ==> Normalizes(text, pieces, starts, Next(text, i))
  {
    if IsSpaceLike(text[i]) && IsVisible(text[i]) {
      PickJoins(text, starts, [i]);
      PickFirst(text, i, []);
      Reassociated(starts, [i], OffsetsFrom(text, i + 1));
    }
  }

  method Push(blocks: seq<Text>, segments: seq<Text>, segment: Text) returns (blocks': seq<Text>, segments': seq<Text>)
    ensures Flatten(blocks') + Flatten(segments') == Flatten(blocks) + Flatten(segments) + segment
  {
    FlattenAppend(segments, segment);
    Reassociated(Flatten(blocks), Flatten(segments), segment);
    blocks', segments' := blocks, segments + [segment];
    if |segments'| == SEGMENTS_PER_BLOCK {
      FlattenAppend(blocks, Flatten(segments'));
      assert Flatten<CodeUnit>([]) == [];
      blocks', segments' := blocks + [Flatten(segments')], [];
    }
  }

  /** Each offset is recorded with the one after it. */
  ghost predicate Recorded(start: array<nat>, end: array<nat>, kept: nat, starts: seq<nat>)
    reads start, end
  {
    && start != end && kept <= start.Length == end.Length && start[..kept] == starts
    && forall k :: 0 <= k < kept ==> end[k] == start[k] + 1
  }

  method Record(start: array<nat>, end: array<nat>, kept: nat, ghost starts: seq<nat>, at: nat)
    requires Recorded(start, end, kept, starts) && kept < start.Length
    modifies start, end
    ensures Recorded(start, end, kept + 1, starts + [at])
  {
    start[kept] := at;
    end[kept] := at + 1;
    assert start[..kept + 1] == start[..kept] + [at];
  }

  method RecordRun(start: array<nat>, end: array<nat>, kept: nat, ghost starts: seq<nat>, runStart: nat, upTo: nat)
    returns (kept': nat)
    requires Recorded(start, end, kept, starts) && runStart <= upTo && kept + upTo - runStart <= start.Length
    modifies start, end
    ensures kept' == kept + upTo - runStart && Recorded(start, end, kept', starts + Range(runStart, upTo))
  {
    kept' := kept;
    assert starts + Range(runStart, runStart) == starts;
    for at := runStart to upTo
      invariant kept' == kept + at - runStart && Recorded(start, end, kept', starts + Range(runStart, at))
    {
      RangeGrows(runStart, at);
      Reassociated(starts, Range(runStart, at), [at]);
      Record(start, end, kept', starts + Range(runStart, at), at);
      kept' := kept' + 1;
    }
  }

  method Flush(
    text: Text, blocks: seq<Text>, segments: seq<Text>, start: array<nat>, end: array<nat>, kept: nat,
    ghost starts: seq<nat>, runStart: nat, upTo: nat
  )
    returns (blocks': seq<Text>, segments': seq<Text>, kept': nat, ghost starts': seq<nat>)
    requires Recorded(start, end, kept, starts) && start.Length == |text| && PlainRun(text, runStart, upTo)
    requires Normalizes(text, Flatten(blocks) + Flatten(segments), starts, runStart)
    modifies start, end
    ensures Recorded(start, end, kept', starts')
    ensures Normalizes(text, Flatten(blocks') + Flatten(segments'), starts', upTo)
  {
    hide IsPlain, Normalizes, Flatten;
    blocks', segments', kept', starts' := blocks, segments, kept, starts;
    if upTo <= runStart { return; }
    NoMoreThanPassed(text, Flatten(blocks) + Flatten(segments), starts, runStart);
    RunTaken(text, Flatten(blocks) + Flatten(segments), starts, runStart, upTo);
    RangeGrows(runStart, upTo);
    starts' := starts + Range(runStart, upTo);
    blocks', segments' := Push(blocks, segments, text[runStart..upTo]);
    kept' := RecordRun(start, end, kept, starts, runStart, upTo);
  }

  /** The first unit that calls for normalization, or the end of the text. */
  method Probe(text: Text) returns (probe: nat)
    ensures probe <= |text| && PlainRun(text, 0, probe) && (probe < |text| ==> !IsPlain(text[probe]))
  {
    probe := 0;
    while probe < |text|
      invariant probe <= |text| && PlainRun(text, 0, probe)
    {
      var spanEnd, _ := TerminalFormattingSpanEnd(text, probe);
      if spanEnd != probe { break; }
      if IsInvisible(text[probe]) || IsSpaceLike(text[probe]) { break; }
      probe := probe + 1;
    }
  }

  lemma PlainIsNormal(text: Text)
    requires PlainRun(text, 0, |text|)
    ensures Normalized(text) == text
  {
    RunKept(text, 0, |text|);
    RunPicked(text, 0, |text|);
    PickedFrom(text, 0);
    assert Range(0, |text|) + [] == Range(0, |text|) && text[0..|text|] == text;
  }

  /** A unit that is not plain: a space is folded, anything else is passed over. */
  method TakeUnit(
    text: Text, blocks: seq<Text>, segments: seq<Text>, start: array<nat>, end: array<nat>, kept: nat,
    ghost starts: seq<nat>, cursor: nat, spanEnd: nat
  )
    returns (blocks': seq<Text>, segments': seq<Text>, kept': nat, ghost starts': seq<nat>, next: nat)
    requires Recorded(start, end, kept, starts) && start.Length == |text|
    requires cursor < |text| && !IsPlain(text[cursor]) && spanEnd == SpanEnd(text, cursor)
    requires Normalizes(text, Flatten(blocks) + Flatten(segments), starts, cursor)
    modifies start, end
    ensures cursor < next <= |text| && Recorded(start, end, kept', starts')
    ensures Normalizes(text, Flatten(blocks') + Flatten(segments'), starts', next)
  {
    hide Normalizes, Flatten;
    blocks', segments', kept', starts' := blocks, segments, kept, starts;
    VisibleHasNoSpan(text, cursor);
    NoMoreThanPassed(text, Flatten(blocks) + Flatten(segments), starts, cursor);
    UnitTaken(text, Flatten(blocks) + Flatten(segments), starts, cursor);
    if spanEnd == cursor && IsSpaceLike(text[cursor]) {
      blocks', segments' := Push(blocks, segments, [SPACE]);
      Record(start, end, kept, starts, cursor);
      kept', starts' := kept + 1, starts + [cursor];
    }
    next := if spanEnd > cursor then spanEnd else cursor + 1;
  }

  lemma AllNormalized(text: Text, pieces: Text, starts: seq<nat>)
    requires Normalizes(text, pieces, starts, |text|)
    ensures pieces == Normalized(text) && starts == Offsets(text)
  {
    PickedFrom(text, 0);
    assert starts + [] == starts;
  }

  lemma NothingNormalized(text: Text)
    ensures Normalizes(text, [], [], 0)
  {
    assert [] + Offsets(text) == Offsets(text);
  }

  /** A run of plain units goes on, or the unit after it is not plain. */
  lemma PlainOrNot(text: Text, runStart: nat, cursor: nat)
    requires PlainRun(text, runStart, cursor) && cursor < |text|
    ensures SpanEnd(text, cursor) == cursor && !IsSpaceLike(text[cursor]) && !IsInvisible(text[cursor]) <==>
      IsPlain(text[cursor])
    ensures IsPlain(text[cursor]) ==> PlainRun(text, runStart, cursor + 1)
  {
    VisibleHasNoSpan(text, cursor);
  }

  lemma NothingJoined()
    ensures Flatten<CodeUnit>([]) + Flatten<CodeUnit>([]) == []
  {
  }

  /** Each offset with the one after it. */
  predicate EndsFollow(n: NormalizedText) {
    |n.end| == |n.start| && forall k :: 0 <= k < |n.end| ==> n.end[k] == n.start[k] + 1
  }

  method NormalizeText(text: Text) returns (n: NormalizedText)
    ensures n.text == Normalized(text) && n.start == Offsets(text) && EndsFollow(n)
  {
    hide Normalizes, Normalized, Offsets, SpanEnd, Flatten, IsPlain, IsInvisible, IsSpaceLike;
    var start, end := new nat[|text|](_ => 0), new nat[|text|](_ => 0);
    var blocks: seq<Text>, segments: seq<Text> := [], [];
    var kept: nat, runStart: nat, cursor: nat := 0, 0, 0;
    ghost var starts: seq<nat> := [];
    NothingNormalized(text);
    NothingJoined();
    while cursor < |text|
      invariant Recorded(start, end, kept, starts) && PlainRun(text, runStart, cursor)
      invariant Normalizes(text, Flatten(blocks) + Flatten(segments), starts, runStart)
    {
      var spanEnd, _ := TerminalFormattingSpanEnd(text, cursor);
      PlainOrNot(text, runStart, cursor);
      if spanEnd == cursor && !IsSpaceLike(text[cursor]) && !IsInvisible(text[cursor]) {
        cursor := cursor + 1;
        continue;
      }
      blocks, segments, kept, starts := Flush(text, blocks, segments, start, end, kept, starts, runStart, cursor);
      blocks, segments, kept, starts, cursor :=
        TakeUnit(text, blocks, segments, start, end, kept, starts, cursor, spanEnd);
      runStart := cursor;
    }
    blocks, segments, kept, starts := Flush(text, blocks, segments, start, end, kept, starts, runStart, |text|);
    AllNormalized(text, Flatten(blocks) + Flatten(segments), starts);
    var joined := JoinBlocks(blocks, segments);
    n := NormalizedText(joined, start[..kept], end[..kept]);
  }

  method JoinBlocks(blocks: seq<Text>, segments: seq<Text>) returns (joined: Text)
    ensures joined == Flatten(blocks) + Flatten(segments)
  {
    var all := blocks;
    if |segments| > 0 {
      FlattenAppend(blocks, Flatten(segments));
      all := blocks + [Flatten(segments)];
    }
    joined := Flatten(all);
  }

  method NormalizeForDetection(text: Text) returns (r: Option<NormalizedText>)
    ensures r.None? <==> forall k :: 0 <= k < |text| ==> IsPlain(text[k])
    ensures r.None? ==> Normalized(text) == text
    ensures r.Some? ==> r.value.text == Normalized(text) && r.value.start == Offsets(text) && EndsFollow(r.value)
  {
    var probe := Probe(text);
    if probe == |text| {
      PlainIsNormal(text);
      return None;
    }
    var n := NormalizeText(text);
    r := Some(n);
  }
}
