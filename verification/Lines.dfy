/** Text as lines, split and joined at newlines. */
module Lines {
  import opened CodeUnits

  const NEWLINE: CodeUnit := 0x0a

  function Join(lines: seq<Text>): Text {
    if lines == [] then []
    else if |lines| == 1 then lines[0]
    else Join(lines[..|lines| - 1]) + [NEWLINE] + lines[|lines| - 1]
  }

  function Split(text: Text): (lines: seq<Text>)
    ensures lines != []
  {
    if text == [] then [[]] else
      var n := |text| - 1;
      var front := Split(text[..n]);
      if text[n] == NEWLINE then front + [[]] else LongerLast(front, text[n])
  }

  function LongerLast(lines: seq<Text>, u: CodeUnit): seq<Text>
    requires lines != []
  {
    lines[..|lines| - 1] + [lines[|lines| - 1] + [u]]
  }

  lemma JoinLast(lines: seq<Text>, last: Text)
    ensures Join(lines + [last]) == if lines == [] then last else Join(lines) + [NEWLINE] + last
  {
    assert (lines + [last])[..|lines|] == lines;
  }

  lemma JoinLonger(lines: seq<Text>, u: CodeUnit)
    requires lines != []
    ensures Join(LongerLast(lines, u)) == Join(lines) + [u]
  {
    var n := |lines| - 1;
    assert lines == lines[..n] + [lines[n]];
    JoinLast(lines[..n], lines[n]);
    JoinLast(lines[..n], lines[n] + [u]);
  }

  ghost predicate NoNewline(t: Text) {
    NEWLINE !in t
  }

  ghost predicate AllSingle(lines: seq<Text>) {
    forall k :: 0 <= k < |lines| ==> NoNewline(lines[k])
  }

  /** Splitting loses nothing, and leaves no newline in a line. */
  lemma {:induction false} JoinOfSplit(text: Text)
    ensures Join(Split(text)) == text && AllSingle(Split(text))
  {
    if text != [] {
      var n := |text| - 1;
      var front := Split(text[..n]);
      JoinOfSplit(text[..n]);
      assert text == text[..n] + [text[n]];
      if text[n] == NEWLINE {
        JoinLast(front, []);
      } else {
        JoinLonger(front, text[n]);
        LongerIsSingle(front, text[n]);
      }
    }
  }

  lemma LongerIsSingle(lines: seq<Text>, u: CodeUnit)
    requires lines != [] && AllSingle(lines) && u != NEWLINE
    ensures AllSingle(LongerLast(lines, u))
  {
    forall k | 0 <= k < |lines| ensures NoNewline(LongerLast(lines, u)[k]) {
      assert NoNewline(lines[k]);
    }
  }

  lemma SplitNext(text: Text, u: CodeUnit)
    ensures Split(text + [u]) == if u == NEWLINE then Split(text) + [[]] else LongerLast(Split(text), u)
  {
    assert (text + [u])[..|text|] == text;
  }

  lemma {:induction false} SplitLonger(text: Text, line: Text)
    requires NoNewline(line)
    ensures Split(text + line) == Split(text)[..|Split(text)| - 1] + [Split(text)[|Split(text)| - 1] + line]
  {
    var lines := Split(text);
    if line == [] {
      assert text + line == text && lines[|lines| - 1] + line == lines[|lines| - 1];
    } else {
      var n := |line| - 1;
      assert line == line[..n] + [line[n]];
      SplitLonger(text, line[..n]);
      SplitNext(text + line[..n], line[n]);
      assert text + line == text + line[..n] + [line[n]];
      assert lines[|lines| - 1] + line == lines[|lines| - 1] + line[..n] + [line[n]];
    }
  }

  /** Joined lines split into those lines. */
  lemma {:induction false} SplitOfJoin(lines: seq<Text>)
    requires lines != [] && AllSingle(lines)
    ensures Split(Join(lines)) == lines
  {
    var front, last := lines[..|lines| - 1], lines[|lines| - 1];
    assert lines == front + [last];
    JoinLast(front, last);
    if front == [] {
      SplitLonger([], last);
      assert [] + last == last;
    } else {
      SplitOfJoin(front);
      SplitNext(Join(front), NEWLINE);
      SplitLonger(Join(front) + [NEWLINE], last);
      assert Split(Join(front) + [NEWLINE]) == front + [[]];
      assert [] + last == last;
    }
  }
}
