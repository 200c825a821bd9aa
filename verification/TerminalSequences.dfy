/**
 * Text written out as visible units and terminal sequences, after sections 5.4 and 5.6 of ECMA-48:
 * stripping removes the sequences whole, and nothing else.
 */
module TerminalSequences {
  import opened CodeUnits
  import opened TerminalFormatting

  /** How a control string begins: by escape and a letter, or by one unit. */
  datatype Opener = ByEscape(letter: CodeUnit) | ByUnit(unit: CodeUnit)

  /** What ends a control string. */
  datatype Closer = Bell | StringTerminator | EscapeBackslash

  datatype Item =
    | Visible(unit: CodeUnit)
    | Control(unit: CodeUnit)
    | Sequence(short: bool, body: Text, final: CodeUnit)
    | ControlString(opener: Opener, body: Text, closer: Closer)

  const OPEN_BRACKET: CodeUnit := 0x5b
  const CLOSE_BRACKET: CodeUnit := 0x5d

  /** Operating system commands may end with a bell. */
  predicate IsCommand(o: Opener) {
    o == ByEscape(CLOSE_BRACKET) || o == ByUnit(0x9d)
  }

  predicate IsOpener(o: Opener) {
    match o
    case ByEscape(letter) => letter in {CLOSE_BRACKET, 0x50, 0x58, 0x5e, 0x5f}
    case ByUnit(unit) => unit in {0x9d, 0x90, 0x98, 0x9e, 0x9f}
  }

  /** Parameters and intermediates, and the controls that a terminal carries out in between. */
  predicate InSequence(u: CodeUnit) {
    (u <= 0x3f && u !in {0x18, 0x1a, 0x1b}) || u == 0x7f
  }

  /** Anything but what ends a control string, or begins another sequence. */
  predicate InString(u: CodeUnit, command: bool) {
    u !in {0x1b, 0x90, 0x98, 0x9b, 0x9c, 0x9d, 0x9e, 0x9f} && (command ==> u != 0x07)
  }

  /** A final unit, or one of the two controls that cancel a sequence. */
  predicate EndsSequence(u: CodeUnit) {
    0x40 <= u <= 0x7e || u == 0x18 || u == 0x1a
  }

  ghost predicate WellFormed(x: Item) {
    match x
    case Visible(u) => !IsTerminalControl(u)
    case Control(u) => IsTerminalControl(u) && u !in {0x1b, 0x90, 0x98, 0x9b, 0x9d, 0x9e, 0x9f}
    case Sequence(_, body, final) => (forall u <- body :: InSequence(u)) && EndsSequence(final)
    case ControlString(opener, body, closer) =>
      IsOpener(opener) && (forall u <- body :: InString(u, IsCommand(opener))) && (closer == Bell ==> IsCommand(opener))
  }

  function OpenerText(o: Opener): Text {
    match o
    case ByEscape(letter) => [ESC, letter]
    case ByUnit(unit) => [unit]
  }

  function CloserText(c: Closer): Text {
    match c
    case Bell => [0x07]
    case StringTerminator => [0x9c]
    case EscapeBackslash => [ESC, 0x5c]
  }

  function TextOf(x: Item): Text {
    match x
    case Visible(u) => [u]
    case Control(u) => [u]
    case Sequence(short, body, final) => (if short then [0x9b] else [ESC, OPEN_BRACKET]) + body + [final]
    case ControlString(opener, body, closer) => OpenerText(opener) + body + CloserText(closer)
  }

  function Written(items: seq<Item>): Text {
    if items == [] then [] else TextOf(items[0]) + Written(items[1..])
  }

  /** The visible units alone. */
  function VisibleOf(items: seq<Item>): Text {
    if items == [] then [] else (if items[0].Visible? then [items[0].unit] else []) + VisibleOf(items[1..])
  }

  // ------------------------------------------------------------------------------- one sequence

  /** The item stands in the text at an index. */
  predicate StandsAt(text: Text, at: nat, part: Text) {
    at + |part| <= |text| && text[at..at + |part|] == part
  }

  lemma UnitOf(text: Text, at: nat, part: Text, i: nat)
    requires StandsAt(text, at, part) && i < |part|
    ensures text[at + i] == part[i]
  {
    assert text[at..at + |part|][i] == part[i];
  }

  lemma {:induction false} CsiStopAt(text: Text, from: nat, stop: nat)
    requires from <= stop < |text| && (forall k :: from <= k < stop ==> InSequence(text[k])) && EndsSequence(text[stop])
    ensures CsiStop(text, from) == stop
    decreases stop - from
  {
    if from < stop { CsiStopAt(text, from + 1, stop); }
  }

  lemma {:induction false} StringStopAt(text: Text, from: nat, stop: nat, command: bool)
    requires from <= stop < |text| && forall k :: from <= k < stop ==> InString(text[k], command)
    requires text[stop] == 0x1b || text[stop] == 0x9c || (command && text[stop] == 0x07)
    ensures StringStop(text, from, command) == stop
    decreases stop - from
  {
    if from < stop { StringStopAt(text, from + 1, stop, command); }
  }

  /** Three parts of a text, one after the other. */
  lemma PartsStand(text: Text, at: nat, a: Text, b: Text, c: Text)
    requires StandsAt(text, at, a + b + c)
    ensures at + |a| + |b| + |c| <= |text|
    ensures forall i :: 0 <= i < |a| ==> text[at + i] == a[i]
    ensures forall k :: at + |a| <= k < at + |a| + |b| ==> text[k] == b[k - at - |a|]
    ensures forall i :: 0 <= i < |c| ==> text[at + |a| + |b| + i] == c[i]
  {
    var all := a + b + c;
    forall i | 0 <= i < |all| ensures text[at + i] == all[i] { UnitOf(text, at, all, i); }
    forall k | at + |a| <= k < at + |a| + |b| ensures text[k] == b[k - at - |a|] {
      assert text[at + (k - at)] == all[k - at];
    }
    forall i | 0 <= i < |c| ensures text[at + |a| + |b| + i] == c[i] {
      assert text[at + (|a| + |b| + i)] == all[|a| + |b| + i];
    }
  }

  lemma CsiSpan(text: Text, at: nat, from: nat, stop: nat)
    requires at < from <= stop < |text| && ScanAt(text, at) == Csi(from)
    requires (forall k :: from <= k < stop ==> InSequence(text[k])) && EndsSequence(text[stop])
    ensures SpanEnd(text, at) == stop + 1
  {
    CsiStopAt(text, from, stop);
  }

  lemma SequenceSpan(text: Text, at: nat, x: Item)
    requires x.Sequence? && WellFormed(x) && StandsAt(text, at, TextOf(x))
    ensures SpanEnd(text, at) == at + |TextOf(x)|
  {
    hide SpanEnd, StandsAt;
    var open := if x.short then [0x9b] else [ESC, OPEN_BRACKET];
    PartsStand(text, at, open, x.body, [x.final]);
    assert text[at] == open[0] && (!x.short ==> text[at + 1] == open[1]);
    assert text[at + |open| + |x.body| + 0] == [x.final][0];
    CsiSpan(text, at, at + |open|, at + |open| + |x.body|);
  }

  lemma StrSpan(text: Text, at: nat, from: nat, stop: nat, command: bool, closer: Closer)
    requires at < from <= stop < |text| && ScanAt(text, at) == Str(from, command)
    requires forall k :: from <= k < stop ==> InString(text[k], command)
    requires stop + |CloserText(closer)| <= |text| && (closer == Bell ==> command)
    requires forall i :: 0 <= i < |CloserText(closer)| ==> text[stop + i] == CloserText(closer)[i]
    ensures SpanEnd(text, at) == stop + |CloserText(closer)|
  {
    assert text[stop + 0] == CloserText(closer)[0];
    if closer == EscapeBackslash { assert text[stop + 1] == CloserText(closer)[1]; }
    StringStopAt(text, from, stop, command);
  }

  lemma OpenerScanned(text: Text, at: nat, o: Opener)
    requires IsOpener(o) && at + |OpenerText(o)| <= |text|
    requires forall i :: 0 <= i < |OpenerText(o)| ==> text[at + i] == OpenerText(o)[i]
    ensures ScanAt(text, at) == Str(at + |OpenerText(o)|, IsCommand(o))
  {
    assert text[at + 0] == OpenerText(o)[0];
    if o.ByEscape? { assert text[at + 1] == OpenerText(o)[1]; }
  }

  lemma StringSpan(text: Text, at: nat, x: Item)
    requires x.ControlString? && WellFormed(x) && StandsAt(text, at, TextOf(x))
    ensures SpanEnd(text, at) == at + |TextOf(x)|
  {
    hide SpanEnd, StandsAt, ScanAt, InString, IsOpener, IsCommand;
    var open := OpenerText(x.opener);
    PartsStand(text, at, open, x.body, CloserText(x.closer));
    OpenerScanned(text, at, x.opener);
    StrSpan(text, at, at + |open|, at + |open| + |x.body|, IsCommand(x.opener), x.closer);
  }

  /** From an item on, stripping goes on after it. */
  lemma ItemTaken(text: Text, at: nat, x: Item)
    requires WellFormed(x) && StandsAt(text, at, TextOf(x))
    ensures Kept(text, at) == (if x.Visible? then [x.unit] else []) + Kept(text, at + |TextOf(x)|)
  {
    UnitOf(text, at, TextOf(x), 0);
    match x
    case Visible(_) =>
    case Control(_) =>
    case Sequence(_, _, _) =>
      SequenceSpan(text, at, x);
      VisibleHasNoSpan(text, at);
    case ControlString(_, _, _) =>
      StringSpan(text, at, x);
      VisibleHasNoSpan(text, at);
  }

  lemma {:induction false} ItemsTaken(text: Text, at: nat, items: seq<Item>)
    requires (forall x <- items :: WellFormed(x)) && at + |Written(items)| == |text| && text[at..] == Written(items)
    ensures Kept(text, at) == VisibleOf(items)
    decreases |items|
  {
    hide WellFormed, Kept, TextOf;
    if items == [] {
      NothingKept(text);
    } else {
      var x, rest := items[0], items[1..];
      var part := TextOf(x);
      assert x in items && forall y <- rest :: y in items;
      assert text[at..at + |part|] == text[at..][..|part|] == part;
      assert text[at + |part|..] == text[at..][|part|..] == Written(rest);
      ItemTaken(text, at, x);
      ItemsTaken(text, at + |part|, rest);
    }
  }

  lemma NothingKept(text: Text)
    ensures Kept(text, |text|) == []
  {
  }

  /** Of text made of visible units, controls and whole sequences, exactly the visible units are left. */
  lemma SequencesAreRemoved(items: seq<Item>)
    requires forall x <- items :: WellFormed(x)
    ensures Strip(Written(items)) == VisibleOf(items)
  {
    assert Written(items)[0..] == Written(items);
    ItemsTaken(Written(items), 0, items);
  }

  // ---------------------------------------------------------------------------- unfinished sequences

  /** Escape, or a unit of the second set of controls. */
  predicate Interrupts(u: CodeUnit) {
    u == 0x1b || 0x80 <= u <= 0x9f
  }

  lemma {:induction false} CsiStopBefore(text: Text, from: nat, stop: nat)
    requires from <= stop <= |text| && forall k :: from <= k < stop ==> InSequence(text[k])
    requires stop < |text| ==> Interrupts(text[stop])
    ensures CsiStop(text, from) == stop
    decreases stop - from
  {
    if from < stop { CsiStopBefore(text, from + 1, stop); }
  }

  /** A control sequence that another one breaks off is removed up to there, and the other one whole. */
  lemma InterruptedIsRemoved(body: Text, items: seq<Item>)
    requires (forall u <- body :: InSequence(u)) && forall x <- items :: WellFormed(x)
    requires Written(items) != [] && Interrupts(Written(items)[0])
    ensures Strip([ESC, OPEN_BRACKET] + body + Written(items)) == VisibleOf(items)
  {
    hide Written;
    var text := [ESC, OPEN_BRACKET] + body + Written(items);
    var stop := 2 + |body|;
    assert text[stop] == Written(items)[0] && text[stop..] == Written(items);
    CsiStopBefore(text, 2, stop);
    VisibleHasNoSpan(text, 0);
    ItemsTaken(text, stop, items);
  }

  lemma WithoutFirst(next: CodeUnit, body: Text)
    ensures var text := [ESC, next] + body;
      text[1..|text|] + [] == [next] + body
  {
  }

  /** A control sequence that the text breaks off loses its escape alone. */
  lemma UnfinishedIsShown(body: Text)
    requires forall u <- body :: InSequence(u) && !IsTerminalControl(u)
    ensures Strip([ESC, OPEN_BRACKET] + body) == [OPEN_BRACKET] + body
  {
    var text := [ESC, OPEN_BRACKET] + body;
    CsiStopBefore(text, 2, |text|);
    VisibleHasNoSpan(text, 0);
    forall k | 1 <= k < |text| ensures IsVisible(text[k]) { if k >= 2 { assert text[k] == body[k - 2]; } }
    KeptRun(text, 1, |text|);
    NothingKept(text);
    WithoutFirst(OPEN_BRACKET, body);
  }

  lemma {:induction false} StringRunsOut(text: Text, from: nat, command: bool)
    requires from <= |text| && forall k :: from <= k < |text| ==> InString(text[k], command)
    ensures StringStop(text, from, command) == |text|
    decreases |text| - from
  {
    if from < |text| { StringRunsOut(text, from + 1, command); }
  }

  /** So does a control string. */
  lemma UnfinishedStringIsShown(letter: CodeUnit, body: Text)
    requires IsOpener(ByEscape(letter))
    requires forall u <- body :: InString(u, IsCommand(ByEscape(letter))) && !IsTerminalControl(u)
    ensures Strip([ESC, letter] + body) == [letter] + body
  {
    var text := [ESC, letter] + body;
    forall k | 2 <= k < |text| ensures text[k] in body { assert text[k] == body[k - 2]; }
    StringRunsOut(text, 2, IsCommand(ByEscape(letter)));
    VisibleHasNoSpan(text, 0);
    forall k | 1 <= k < |text| ensures IsVisible(text[k]) { if k >= 2 { assert text[k] in body; } }
    KeptRun(text, 1, |text|);
    NothingKept(text);
    WithoutFirst(letter, body);
  }
}
