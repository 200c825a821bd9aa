/**
 * Removing terminal control sequences from untrusted text: sections 5.4 and 5.6 of ECMA-48.
 * A unit is either visible or the start of a span, which is removed whole.
 */
module TerminalFormatting {
  import opened CodeUnits
  import opened Sequences

  const TAB: CodeUnit := 0x09
  const LF: CodeUnit := 0x0a
  const C0_END: CodeUnit := 0x1f
  const DEL: CodeUnit := 0x7f
  const C1_END: CodeUnit := 0x9f
  const ESC: CodeUnit := 0x1b
  const CAN: CodeUnit := 0x18
  const SUB: CodeUnit := 0x1a
  const BEL: CodeUnit := 0x07
  const C1_DCS: CodeUnit := 0x90
  const C1_SOS: CodeUnit := 0x98
  const C1_CSI: CodeUnit := 0x9b
  const C1_ST: CodeUnit := 0x9c
  const C1_OSC: CodeUnit := 0x9d
  const C1_PM: CodeUnit := 0x9e
  const C1_APC: CodeUnit := 0x9f
  const SEGMENTS_PER_BLOCK: nat := 1024

  predicate IsTerminalControl(u: CodeUnit) {
    u != TAB && u != LF &&
    (|| u <= C0_END || DEL <= u <= C1_END || u == 0x061c
     || 0x200e <= u <= 0x200f || 0x202a <= u <= 0x202e || 0x2066 <= u <= 0x2069)
  }

  /** The unit at an index; none past the end. */
  predicate HasAt(text: Text, i: nat, u: CodeUnit) {
    i < |text| && text[i] == u
  }

  // ------------------------------------------------------------------ control sequences

  datatype CsiStep = CsiEnds(past: bool) | CsiMalformed | CsiGoesOn

  /** What a unit in the body of a control sequence does to it. */
  function CsiAt(u: CodeUnit): CsiStep {
    if u == CAN || u == SUB then CsiEnds(true)
    else if u == ESC || 0x80 <= u <= C1_END then CsiEnds(false)
    else if u <= C0_END || u == DEL then CsiGoesOn
    else if 0x40 <= u <= 0x7e then CsiEnds(true)
    else if u > 0x3f then CsiMalformed
    else CsiGoesOn
  }

  /** Where the scan of a body stops: at the unit that decides, or at the end of the text. */
  function CsiStop(text: Text, at: nat): (stop: nat)
    requires at <= |text|
    ensures at <= stop <= |text|
    ensures stop < |text| ==> !CsiAt(text[stop]).CsiGoesOn?
    decreases |text| - at
  {
    if at == |text| || !CsiAt(text[at]).CsiGoesOn? then at else CsiStop(text, at + 1)
  }

  function CsiEnd(text: Text, introducer: nat, at: nat): (end: nat)
    requires introducer < at <= |text|
    ensures introducer < end <= |text|
  {
    var stop := CsiStop(text, at);
    if stop == |text| || CsiAt(text[stop]).CsiMalformed? then introducer + 1
    else if CsiAt(text[stop]).past then stop + 1 else stop
  }

  method CsiSpanEnd(text: Text, introducer: nat, bodyStart: nat) returns (end: nat, ghost examined: nat)
    requires introducer < bodyStart <= |text|
    ensures end == CsiEnd(text, introducer, bodyStart)
    ensures examined == Examined(text, bodyStart, CsiStop(text, bodyStart))
  {
    var cursor := bodyStart;
    examined := 0;
    while cursor < |text|
      invariant bodyStart <= cursor <= |text| && examined == cursor - bodyStart
      invariant CsiStop(text, bodyStart) == CsiStop(text, cursor)
    {
      var u := text[cursor];
      examined := examined + 1;
      if u == CAN || u == SUB { return cursor + 1, examined; }
      if u == ESC || 0x80 <= u <= C1_END { return cursor, examined; }
      if u <= C0_END || u == DEL {
        cursor := cursor + 1;
        continue;
      }
      if 0x40 <= u <= 0x7e { return cursor + 1, examined; }
      if u > 0x3f { return introducer + 1, examined; }
      cursor := cursor + 1;
    }
    end := introducer + 1;
  }

  /** How many units a scan looked at: the one that stopped it as well, unless the text ran out. */
  function Examined(text: Text, from: nat, stop: nat): nat
    requires from <= stop <= |text|
  {
    (if stop < |text| then stop + 1 else stop) - from
  }

  // ------------------------------------------------------------------- string sequences

  predicate IsIntroducer(u: CodeUnit) {
    u == ESC || u == C1_CSI || u == C1_OSC || u == C1_DCS || u == C1_SOS || u == C1_PM || u == C1_APC
  }

  predicate StopsString(u: CodeUnit, bellTerminates: bool) {
    (bellTerminates && u == BEL) || u == C1_ST || IsIntroducer(u)
  }

  function StringStop(text: Text, at: nat, bellTerminates: bool): (stop: nat)
    requires at <= |text|
    ensures at <= stop <= |text|
    decreases |text| - at
  {
    if at == |text| || StopsString(text[at], bellTerminates) then at else StringStop(text, at + 1, bellTerminates)
  }

  function StringEnd(text: Text, introducer: nat, at: nat, bellTerminates: bool): (end: nat)
    requires introducer < at <= |text|
    ensures introducer < end <= |text|
  {
    var stop := StringStop(text, at, bellTerminates);
    if stop == |text| then introducer + 1
    else if (bellTerminates && text[stop] == BEL) || text[stop] == C1_ST then stop + 1
    else if text[stop] == ESC && HasAt(text, stop + 1, 0x5c) then stop + 2
    else introducer + 1
  }

  method StringSequenceSpanEnd(text: Text, introducer: nat, bodyStart: nat, bellTerminates: bool)
    returns (end: nat, ghost examined: nat)
    requires introducer < bodyStart <= |text|
    ensures end == StringEnd(text, introducer, bodyStart, bellTerminates)
    ensures examined == Examined(text, bodyStart, StringStop(text, bodyStart, bellTerminates))
  {
    examined := 0;
    for cursor := bodyStart to |text|
      invariant examined == cursor - bodyStart
      invariant StringStop(text, bodyStart, bellTerminates) == StringStop(text, cursor, bellTerminates)
    {
      var u := text[cursor];
      examined := examined + 1;
      if bellTerminates && u == BEL { return cursor + 1, examined; }
      if u == C1_ST { return cursor + 1, examined; }
      if u == ESC && HasAt(text, cursor + 1, 0x5c) { return cursor + 2, examined; }
      if IsIntroducer(u) { return introducer + 1, examined; }
    }
    end := introducer + 1;
  }

  // --------------------------------------------------------------------- one span

  /** The scan, if any, that a unit sets off: of which kind, and from where. */
  datatype Scan = NoScan | Csi(from: nat) | Str(from: nat, bellTerminates: bool)

  function ScanAt(text: Text, i: nat): (scan: Scan)
    requires i < |text|
    ensures !scan.NoScan? ==> i < scan.from <= |text| && scan.from <= i + 2
  {
    var u := text[i];
    if u == ESC && HasAt(text, i + 1, 0x5b) then Csi(i + 2)
    else if u == ESC && HasAt(text, i + 1, 0x5d) then Str(i + 2, true)
    else if u == ESC && i + 1 < |text| && text[i + 1] in {0x50, 0x58, 0x5e, 0x5f} then Str(i + 2, false)
    else if u == C1_CSI then Csi(i + 1)
    else if u == C1_OSC then Str(i + 1, true)
    else if u in {C1_DCS, C1_SOS, C1_PM, C1_APC} then Str(i + 1, false)
    else NoScan
  }

  /** The exclusive end of the span that begins at an index; the index itself if the unit there is visible. */
  function SpanEnd(text: Text, i: nat): (end: nat)
    requires i < |text|
    ensures i <= end <= |text|
  {
    match ScanAt(text, i)
    case Csi(from) => CsiEnd(text, i, from)
    case Str(from, bell) => StringEnd(text, i, from, bell)
    case NoScan => if IsTerminalControl(text[i]) then i + 1 else i
  }

  predicate IsVisible(u: CodeUnit) {
    !IsTerminalControl(u)
  }

  /** Every unit that could set off a scan is itself a control unit. */
  lemma VisibleHasNoSpan(text: Text, i: nat)
    requires i < |text|
    ensures SpanEnd(text, i) == i <==> IsVisible(text[i])
  {
  }

  method TerminalFormattingSpanEnd(text: Text, index: nat) returns (end: nat, ghost examined: nat)
    requires index < |text|
    ensures end == SpanEnd(text, index) && examined == Work(text, index)
    ensures end == index <==> IsVisible(text[index])
  {
    VisibleHasNoSpan(text, index);
    var u := text[index];
    if u == ESC && index + 1 < |text| {
      var next := text[index + 1];
      if next == 0x5b { end, examined := CsiSpanEnd(text, index, index + 2); return; }
      if next == 0x5d { end, examined := StringSequenceSpanEnd(text, index, index + 2, true); return; }
      if next == 0x50 || next == 0x58 || next == 0x5e || next == 0x5f {
        end, examined := StringSequenceSpanEnd(text, index, index + 2, false);
        return;
      }
    }
    if u == C1_CSI { end, examined := CsiSpanEnd(text, index, index + 1); return; }
    if u == C1_OSC { end, examined := StringSequenceSpanEnd(text, index, index + 1, true); return; }
    if u == C1_DCS || u == C1_SOS || u == C1_PM || u == C1_APC {
      end, examined := StringSequenceSpanEnd(text, index, index + 1, false);
      return;
    }
    end, examined := if IsTerminalControl(u) then index + 1 else index, 0;
  }

  // ------------------------------------------------------------------------ stripping

  /** Where the main walk goes from an index: past a visible unit, or past a span. */
  function Next(text: Text, i: nat): (next: nat)
    requires i < |text|
    ensures i < next <= |text|
  {
    VisibleHasNoSpan(text, i);
    if IsVisible(text[i]) then i + 1 else SpanEnd(text, i)
  }

  /** The visible units from index i on. */
  function Kept(text: Text, i: nat): Text
    requires i <= |text|
    decreases |text| - i
  {
    if i == |text| then []
    else if IsVisible(text[i]) then [text[i]] + Kept(text, i + 1)
    else Kept(text, Next(text, i))
  }

  function Strip(text: Text): Text {
    Kept(text, 0)
  }

  /** A run of visible units is kept as it stands. */
  lemma {:induction false} KeptRun(text: Text, i: nat, j: nat)
    requires i <= j <= |text| && forall k :: i <= k < j ==> IsVisible(text[k])
    ensures Kept(text, i) == text[i..j] + Kept(text, j)
    decreases j - i
  {
    if i < j {
      KeptRun(text, i + 1, j);
      FirstOfRun(text, i, j, Kept(text, j));
    } else {
      assert text[i..j] == [];
    }
  }

  lemma FirstOfRun(text: Text, i: nat, j: nat, rest: Text)
    requires i < j <= |text|
    ensures text[i..j] + rest == [text[i]] + (text[i + 1..j] + rest)
  {
  }

  /** What has been collected so far, the run under way and what is left make up the result. */
  ghost predicate Collects(text: Text, blocks: seq<Text>, segments: seq<Text>, visibleStart: nat, cursor: nat) {
    && visibleStart <= cursor <= |text|
    && (forall k :: visibleStart <= k < cursor ==> IsVisible(text[k]))
    && Strip(text) == Flatten(blocks) + Flatten(segments) + Kept(text, visibleStart)
  }

  lemma NothingCollected(text: Text, cursor: nat)
    requires cursor <= |text| && forall k :: 0 <= k < cursor ==> IsVisible(text[k])
    ensures Collects(text, [], [], 0, cursor)
  {
    assert Flatten<CodeUnit>([]) + Flatten<CodeUnit>([]) + Kept(text, 0) == Kept(text, 0);
  }

  lemma SegmentTaken(text: Text, blocks: seq<Text>, segments: seq<Text>, visibleStart: nat, cursor: nat)
    requires Collects(text, blocks, segments, visibleStart, cursor)
    ensures Collects(text, blocks, segments + [text[visibleStart..cursor]], cursor, cursor)
  {
    var run := text[visibleStart..cursor];
    KeptRun(text, visibleStart, cursor);
    FlattenAppend(segments, run);
    Regroup(Flatten(blocks), Flatten(segments), run, Kept(text, cursor));
  }

  lemma Regroup(a: Text, b: Text, c: Text, d: Text)
    ensures a + b + (c + d) == a + (b + c) + d
  {
  }

  lemma BlockJoined(text: Text, blocks: seq<Text>, segments: seq<Text>, visibleStart: nat, cursor: nat)
    requires Collects(text, blocks, segments, visibleStart, cursor)
    ensures Collects(text, blocks + [Flatten(segments)], [], visibleStart, cursor)
  {
    FlattenAppend(blocks, Flatten(segments));
    assert Flatten(blocks) + Flatten(segments) + [] == Flatten(blocks) + Flatten(segments);
  }

  lemma AllKept(text: Text)
    requires forall k :: 0 <= k < |text| ==> IsVisible(text[k])
    ensures Strip(text) == text
  {
    KeptRun(text, 0, |text|);
    assert text[0..|text|] + [] == text;
  }

  // ------------------------------------------------------------ what stripping leaves

  /** No control unit is left. */
  lemma {:induction false} NoControlLeft(text: Text, i: nat)
    requires i <= |text|
    ensures forall k :: 0 <= k < |Kept(text, i)| ==> !IsTerminalControl(Kept(text, i)[k])
    decreases |text| - i
  {
    if i < |text| {
      NoControlLeft(text, Next(text, i));
    }
  }

  /** Stripped text has no control unit, and stripping it again changes nothing. */
  lemma StrippedIsClean(text: Text)
    ensures forall k :: 0 <= k < |Strip(text)| ==> !IsTerminalControl(Strip(text)[k])
    ensures Strip(Strip(text)) == Strip(text)
  {
    NoControlLeft(text, 0);
    AllKept(Strip(text));
  }

  // ----------------------------------------------------------------- how much is scanned

  /** The stretch of text that the scan set off at an index looks at. */
  function ScanEnd(text: Text, i: nat): (end: nat)
    requires i < |text|
    ensures !ScanAt(text, i).NoScan? ==> ScanAt(text, i).from <= end <= |text|
  {
    match ScanAt(text, i)
    case NoScan => i
    case Csi(from) => from + Examined(text, from, CsiStop(text, from))
    case Str(from, bell) => from + Examined(text, from, StringStop(text, from, bell))
  }

  function Work(text: Text, i: nat): nat
    requires i < |text|
  {
    if ScanAt(text, i).NoScan? then 0 else ScanEnd(text, i) - ScanAt(text, i).from
  }

  /** The stretches looked at by the scans of the main walk from a cursor on, in order. */
  function Stretches(text: Text, cursor: nat): seq<(nat, nat)>
    requires cursor <= |text|
    decreases |text| - cursor
  {
    if cursor == |text| then []
    else if ScanAt(text, cursor).NoScan? then Stretches(text, Next(text, cursor))
    else [(ScanAt(text, cursor).from, ScanEnd(text, cursor))] + Stretches(text, Next(text, cursor))
  }

  lemma {:induction false} CsiBody(text: Text, at: nat, k: nat)
    requires at <= k < |text| && k < CsiStop(text, at)
    ensures !IsIntroducer(text[k])
    decreases |text| - at
  {
    if at < k { CsiBody(text, at + 1, k); }
  }

  lemma {:induction false} StringBody(text: Text, at: nat, bell: bool, k: nat)
    requires at <= k < |text| && k < StringStop(text, at, bell)
    ensures !IsIntroducer(text[k])
    decreases |text| - at
  {
    if at < k { StringBody(text, at + 1, bell, k); }
  }

  /** No unit before the floor sets off a scan that looks below it. */
  ghost predicate Clear(text: Text, cursor: nat, floor: nat) {
    forall k :: cursor <= k < floor && k < |text| ==> ScanAt(text, k).NoScan? || ScanAt(text, k).from >= floor
  }

  /** After a scan, the walk resumes where nothing sets off a scan of what was looked at. */
  lemma ScannedOnce(text: Text, i: nat)
    requires i < |text| && !ScanAt(text, i).NoScan?
    ensures Clear(text, Next(text, i), ScanEnd(text, i))
  {
    var scan := ScanAt(text, i);
    forall k | Next(text, i) <= k < ScanEnd(text, i) && k < |text|
      ensures ScanAt(text, k).NoScan? || ScanAt(text, k).from >= ScanEnd(text, i)
    {
      if scan.from <= k && k + 1 < ScanEnd(text, i) {
        match scan
        case Csi(from) => CsiBody(text, from, k);
        case Str(from, bell) => StringBody(text, from, bell, k);
      }
    }
  }

  ghost predicate InOrder(s: seq<(nat, nat)>, from: nat, to: nat) {
    && (forall i :: 0 <= i < |s| ==> from <= s[i].0 <= s[i].1 <= to)
    && (forall i, j :: 0 <= i < j < |s| ==> s[i].1 <= s[j].0)
  }

  function Length(stretch: (nat, nat)): nat {
    if stretch.0 <= stretch.1 then stretch.1 - stretch.0 else 0
  }

  function Total(s: seq<(nat, nat)>): nat {
    if s == [] then 0 else Length(s[0]) + Total(s[1..])
  }

  lemma NothingAfter(text: Text)
    ensures Total(Stretches(text, |text|)) == 0
  {
  }

  /** What the scan at an index looks at comes first, then what the later ones do. */
  lemma StretchPassed(text: Text, cursor: nat)
    requires cursor < |text|
    ensures Total(Stretches(text, cursor)) == Work(text, cursor) + Total(Stretches(text, Next(text, cursor)))
    ensures IsVisible(text[cursor]) ==> Work(text, cursor) == 0
    ensures Next(text, cursor) == if IsVisible(text[cursor]) then cursor + 1 else SpanEnd(text, cursor)
  {
    if !ScanAt(text, cursor).NoScan? {
      var first := (ScanAt(text, cursor).from, ScanEnd(text, cursor));
      assert ([first] + Stretches(text, Next(text, cursor)))[1..] == Stretches(text, Next(text, cursor));
    }
  }

  lemma InOrderPrepends(first: (nat, nat), rest: seq<(nat, nat)>, from: nat, to: nat)
    requires from <= first.0 <= first.1 <= to && InOrder(rest, first.1, to)
    ensures InOrder([first] + rest, from, to)
  {
  }

  lemma {:induction false} StretchesFrom(text: Text, cursor: nat, floor: nat)
    requires cursor <= |text| && floor <= |text| && Clear(text, cursor, floor)
    ensures InOrder(Stretches(text, cursor), floor, |text|)
    decreases |text| - cursor
  {
    if cursor < |text| {
      var next := Next(text, cursor);
      if ScanAt(text, cursor).NoScan? {
        StretchesFrom(text, next, floor);
      } else {
        ScannedOnce(text, cursor);
        StretchesFrom(text, next, ScanEnd(text, cursor));
        InOrderPrepends((ScanAt(text, cursor).from, ScanEnd(text, cursor)), Stretches(text, next), floor, |text|);
      }
    }
  }

  lemma {:induction false} TotalWithin(s: seq<(nat, nat)>, from: nat, to: nat)
    requires InOrder(s, from, to) && from <= to
    ensures Total(s) <= to - from
  {
    if s != [] {
      assert InOrder(s[1..], s[0].1, to);
      TotalWithin(s[1..], s[0].1, to);
    }
  }

  /** The scans of the main walk look at disjoint stretches: together, no more units than the text has. */
  lemma ScansAreLinear(text: Text)
    ensures InOrder(Stretches(text, 0), 0, |text|)
    ensures Total(Stretches(text, 0)) <= |text|
  {
    StretchesFrom(text, 0, 0);
    TotalWithin(Stretches(text, 0), 0, |text|);
  }

  // --------------------------------------------------------------------- the main walk

  lemma RunGoesOn(text: Text, blocks: seq<Text>, segments: seq<Text>, visibleStart: nat, cursor: nat)
    requires Collects(text, blocks, segments, visibleStart, cursor) && cursor < |text| && IsVisible(text[cursor])
    ensures Collects(text, blocks, segments, visibleStart, cursor + 1)
  {
  }

  lemma SpanPassed(text: Text, blocks: seq<Text>, segments: seq<Text>, cursor: nat)
    requires Collects(text, blocks, segments, cursor, cursor) && cursor < |text| && !IsVisible(text[cursor])
    ensures Collects(text, blocks, segments, SpanEnd(text, cursor), SpanEnd(text, cursor))
  {
    assert SpanEnd(text, cursor) == Next(text, cursor);
  }

  lemma AllCollected(text: Text, blocks: seq<Text>, segments: seq<Text>)
    requires Collects(text, blocks, segments, |text|, |text|)
    ensures Strip(text) == Flatten(blocks) + Flatten(segments)
    ensures segments == [] ==> Strip(text) == Flatten(blocks)
  {
    assert Flatten(blocks) + Flatten(segments) + [] == Flatten(blocks) + Flatten(segments);
    assert Flatten(blocks) + [] == Flatten(blocks);
  }

  /** How far the text is visible from its start, and what the last probe looked at. */
  method VisiblePrefix(text: Text) returns (cursor: nat, ghost probed: nat)
    ensures cursor <= |text| && forall k :: 0 <= k < cursor ==> IsVisible(text[k])
    ensures Total(Stretches(text, cursor)) == Total(Stretches(text, 0))
    ensures probed == if cursor < |text| then Work(text, cursor) else 0
  {
    hide Total, Stretches, SpanEnd, Work, IsVisible;
    cursor, probed := 0, 0;
    while cursor < |text|
      invariant cursor <= |text| && forall k :: 0 <= k < cursor ==> IsVisible(text[k])
      invariant probed == 0 && Total(Stretches(text, cursor)) == Total(Stretches(text, 0))
    {
      StretchPassed(text, cursor);
      var spanEnd;
      spanEnd, probed := TerminalFormattingSpanEnd(text, cursor);
      if spanEnd != cursor { return; }
      cursor := cursor + 1;
    }
  }

  /** The scans of the main walk look at as many units as their stretches hold, the first of them twice. */
  method StripTerminalFormatting(text: Text) returns (visible: Text, ghost probed: nat, ghost walked: nat)
    ensures visible == Strip(text)
    ensures probed <= walked == Total(Stretches(text, 0)) <= |text|
  {
    hide Collects, Strip, Total, Stretches, SpanEnd, IsVisible, Work, Flatten;
    var cursor: nat;
    cursor, probed := VisiblePrefix(text);
    walked := 0;
    ScansAreLinear(text);
    NothingAfter(text);
    if cursor == |text| {
      AllKept(text);
      return text, probed, walked;
    }
    StretchPassed(text, cursor);
    var blocks: seq<Text> := [];
    var segments: seq<Text> := [];
    var visibleStart: nat := 0;
    NothingCollected(text, cursor);
    while cursor < |text|
      invariant Collects(text, blocks, segments, visibleStart, cursor) && visibleStart <= cursor <= |text|
      invariant walked + Total(Stretches(text, cursor)) == Total(Stretches(text, 0))
    {
      StretchPassed(text, cursor);
      var spanEnd, examined := TerminalFormattingSpanEnd(text, cursor);
      walked := walked + examined;
      if spanEnd == cursor {
        RunGoesOn(text, blocks, segments, visibleStart, cursor);
        cursor := cursor + 1;
        continue;
      }
      if visibleStart < cursor {
        SegmentTaken(text, blocks, segments, visibleStart, cursor);
        segments := segments + [text[visibleStart..cursor]];
      }
      SpanPassed(text, blocks, segments, cursor);
      visibleStart, cursor := spanEnd, spanEnd;
      if |segments| == SEGMENTS_PER_BLOCK {
        BlockJoined(text, blocks, segments, visibleStart, cursor);
        blocks, segments := blocks + [Flatten(segments)], [];
      }
    }
    if visibleStart < |text| {
      SegmentTaken(text, blocks, segments, visibleStart, cursor);
      assert text[visibleStart..cursor] == text[visibleStart..];
      segments := segments + [text[visibleStart..]];
    }
    if |segments| > 0 {
      BlockJoined(text, blocks, segments, cursor, cursor);
      blocks, segments := blocks + [Flatten(segments)], [];
    }
    AllCollected(text, blocks, segments);
    visible := Flatten(blocks);
  }
}
