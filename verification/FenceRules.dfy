/** Which lines open and close a fence, for lines written out: blanks, a run of marks, and a rest. */
module FenceRules {
  import opened CodeUnits
  import opened Lines
  import opened Options
  import opened FindingsFences

  predicate IsMark(u: CodeUnit) {
    u == BACKTICK || u == TILDE
  }

  /** One line with nothing to trim at its end, which does not go on with a mark. */
  ghost predicate Rest(rest: Text, u: CodeUnit) {
    OneLine(rest) && (rest != [] ==> rest[0] != u && !IsSpace(rest[|rest| - 1]))
  }

  lemma {:induction false} RunMeasured(u: CodeUnit, n: nat, rest: Text)
    requires rest != [] ==> rest[0] != u
    ensures RunLength(Repeated(u, n) + rest, u) == n
  {
    if n == 0 {
      assert Repeated(u, 0) + rest == rest;
    } else {
      RunMeasured(u, n - 1, rest);
      assert (Repeated(u, n) + rest)[1..] == Repeated(u, n - 1) + rest;
    }
  }

  lemma FenceOfRun(u: CodeUnit, n: nat, rest: Text)
    requires IsMark(u) && n >= 3 && Rest(rest, u)
    ensures FenceOf(Repeated(u, n) + rest) == Some(FenceLine(u, n, rest))
  {
    var line := Repeated(u, n) + rest;
    RunMeasured(u, n, rest);
    assert line[n..] == rest;
  }

  lemma NothingTrimmed(line: Text)
    requires line != [] && !IsSpace(line[0]) && !IsSpace(line[|line| - 1])
    ensures Trim(line) == line
  {
  }

  lemma {:induction false} BlanksTrimmed(k: nat, line: Text)
    requires line != [] && !IsSpace(line[0]) && !IsSpace(line[|line| - 1])
    ensures Trim(Repeated(SPACE, k) + line) == line
  {
    if k == 0 {
      NothingTrimmed(line);
      assert Repeated(SPACE, 0) + line == line;
    } else {
      BlanksTrimmed(k - 1, line);
      assert (Repeated(SPACE, k) + line)[1..] == Repeated(SPACE, k - 1) + line;
    }
  }

  lemma {:induction false} BlanksCounted(k: nat, line: Text, columns: nat)
    requires line != [] && line[0] != SPACE && line[0] != TAB
    ensures IndentFrom(Repeated(SPACE, k) + line, columns) > MAX_FENCE_INDENT_COLUMNS <==> columns + k > 3
  {
    if k == 0 {
      assert Repeated(SPACE, 0) + line == line;
    } else {
      BlanksCounted(k - 1, line, columns + 1);
      assert (Repeated(SPACE, k) + line)[1..] == Repeated(SPACE, k - 1) + line;
    }
  }

  /** A line of so many blanks, so many marks, and a rest. */
  function Written(k: nat, u: CodeUnit, n: nat, rest: Text): Text {
    Repeated(SPACE, k) + (Repeated(u, n) + rest)
  }

  lemma WrittenRead(k: nat, u: CodeUnit, n: nat, rest: Text)
    requires IsMark(u) && n >= 3 && Rest(rest, u)
    ensures Trim(Written(k, u, n, rest)) == Repeated(u, n) + rest
    ensures FenceOf(Trim(Written(k, u, n, rest))) == Some(FenceLine(u, n, rest))
    ensures Indented(Written(k, u, n, rest)) <==> k > 3
  {
    hide FenceOf, Trim, IndentFrom;
    var line := Repeated(u, n) + rest;
    assert line[|line| - 1] == if rest == [] then u else rest[|rest| - 1];
    FenceOfRun(u, n, rest);
    BlanksTrimmed(k, line);
    BlanksCounted(k, line, 0);
  }

  /**
   * A run of marks closes a fence exactly when it is indented by at most three columns, is of the
   * fence's own mark and at least as long, and has nothing after it.
   */
  lemma RunCloses(k: nat, u: CodeUnit, n: nat, rest: Text, open: Fence)
    requires IsMark(u) && n >= 3 && Rest(rest, u)
    ensures Closes(Written(k, u, n, rest), open) <==> k <= 3 && u == open.mark && n >= open.length && rest == []
  {
    hide FenceOf, Indented, Written;
    WrittenRead(k, u, n, rest);
    RestIsNotBlank(rest, u);
  }

  lemma RestIsNotBlank(rest: Text, u: CodeUnit)
    requires Rest(rest, u)
    ensures Trim(rest) == [] <==> rest == []
  {
    LastStays(rest);
  }

  lemma {:induction false} LastStays(t: Text)
    requires t != [] ==> !IsSpace(t[|t| - 1])
    ensures t != [] ==> TrimStart(t) != [] && TrimStart(t)[|TrimStart(t)| - 1] == t[|t| - 1]
    ensures t == [] ==> TrimStart(t) == []
  {
    if |t| > 1 { LastStays(t[1..]); }
  }

  /** What a fence of the findings does: opened by backticks, refused with tildes, nothing if indented too far. */
  lemma FindingsFence(k: nat, u: CodeUnit, n: nat)
    requires IsMark(u) && n >= 3
    ensures OpeningOf(Written(k, u, n, INFO_STRING)) ==
      if k > 3 then OpensNothing else if u == TILDE then Refused(TildeFence) else Opens(Fence(u, n, true))
  {
    hide FenceOf, Trim, Indented, FirstWord, Written, Contains;
    PlainInfo(INFO_STRING);
    WrittenRead(k, u, n, INFO_STRING);
  }

  /** A fence with no info string, or another one, is not the findings'. */
  lemma OtherFence(k: nat, u: CodeUnit, n: nat, info: Text)
    requires IsMark(u) && n >= 3 && Plain(info) && Rest(info, u) && info != INFO_STRING
    ensures OpeningOf(Written(k, u, n, info)) == if k > 3 then OpensNothing else Opens(Fence(u, n, false))
  {
    hide FenceOf, Indented, FirstWord, Written, Contains;
    WrittenRead(k, u, n, info);
    if info != [] { PlainInfo(info); }
  }

  lemma {:induction false} FirstWordStops(word: Text, more: Text)
    requires (forall u <- word :: !IsSpace(u)) && more != [] && IsSpace(more[0])
    ensures FirstWord(word + more) == word
  {
    if word == [] {
      assert word + more == more;
    } else {
      FirstWordStops(word[1..], more);
      assert (word + more)[1..] == word[1..] + more && word == [word[0]] + word[1..];
    }
  }

  /** With more words after the info string a fence is refused, not taken for another one. */
  lemma FindingsAndMore(k: nat, u: CodeUnit, n: nat, word: Text)
    requires IsMark(u) && n >= 3 && k <= 3 && Plain(word) && word != []
    ensures OpeningOf(Written(k, u, n, INFO_STRING + [SPACE] + word)) ==
      Refused(if u == TILDE then TildeFence else InfoNotExact)
  {
    hide FenceOf, Indented, FirstWord, Written, Contains, TrimStart, TrimEnd;
    PlainInfo(INFO_STRING);
    MoreThanInfo(INFO_STRING, word, u);
    WrittenRead(k, u, n, INFO_STRING + [SPACE] + word);
  }

  lemma MoreThanInfo(info: Text, word: Text, u: CodeUnit)
    requires Plain(info) && Plain(word) && info != [] && word != [] && IsMark(u) && info[0] != u
    ensures var all := info + [SPACE] + word;
      && Rest(all, u) && BACKTICK !in all && Trim(all) == all && FirstWord(all) == info && all != info
  {
    hide FirstWord, Trim;
    var all := info + [SPACE] + word;
    NothingTrimmed(all);
    FirstWordStops(info, [SPACE] + word);
    assert all == info + ([SPACE] + word);
  }

  lemma {:induction false} ContainsPart(before: Text, part: Text, after: Text)
    ensures Contains(before + part + after, part)
    decreases |before|
  {
    var all := before + part + after;
    if before == [] {
      assert all == part + after;
    } else {
      ContainsPart(before[1..], part, after);
      assert all[1..] == before[1..] + part + after;
    }
  }

  /** With a backtick after the info string a backtick fence is refused, not passed over. */
  lemma FindingsAndBacktick(k: nat, n: nat)
    requires n >= 3 && k <= 3
    ensures OpeningOf(Written(k, BACKTICK, n, INFO_STRING + [BACKTICK])) == Refused(BacktickInInfo)
  {
    hide FenceOf, Indented, FirstWord, Written, Contains, Trim;
    WrittenRead(k, BACKTICK, n, INFO_STRING + [BACKTICK]);
    ContainsPart(Repeated(BACKTICK, n), INFO_STRING, [BACKTICK]);
    assert Repeated(BACKTICK, n) + (INFO_STRING + [BACKTICK]) == Repeated(BACKTICK, n) + INFO_STRING + [BACKTICK];
  }

  /** In a region a run of marks ends it exactly when it closes its fence: a shorter one is content. */
  lemma RunEndsRegion(lines: seq<Text>, r: Region, j: nat, k: nat, u: CodeUnit, n: nat, rest: Text)
    requires r in TopLevel(lines, 0) && r.Region? && r.open < j <= r.close && j < |lines|
    requires IsMark(u) && n >= 3 && Rest(rest, u) && lines[j] == Written(k, u, n, rest)
    ensures j == r.close <==> k <= 3 && u == r.fence.mark && n >= r.fence.length && rest == []
  {
    hide OpeningOf, Closes, TopLevel, Written;
    RegionsFaithful(lines, 0);
    RunCloses(k, u, n, rest, r.fence);
  }

  // ------------------------------------------------------------------------ how long a block may be

  lemma {:induction false} SizeExactly(lines: seq<Text>)
    ensures Size(lines) == if lines == [] then 0 else |Join(lines)| + 1
  {
    if lines != [] {
      var front, last := lines[..|lines| - 1], lines[|lines| - 1];
      assert lines == front + [last];
      SizeExactly(front);
      JoinLast(front, last);
    }
  }

  /** A closed findings block fits exactly when it has no lines, or its content is shorter than the bound. */
  lemma BlockFits(lines: seq<Text>, r: Region)
    requires IsFindings(r) && r.open < r.close < |lines|
    ensures Fine(lines, r) <==> r.close == r.open + 1 || |ContentOf(lines, r)| < MAX_FINDINGS_BLOCK_CHARS
  {
    SizeExactly(lines[r.open + 1..r.close]);
  }

  // ------------------------------------------------------------------------ where lines end

  datatype Ending = ByNewline | ByReturn | ByBoth

  datatype EndedLine = EndedLine(text: Text, ending: Ending)

  function EndingText(e: Ending): Text {
    match e
    case ByNewline => [NEWLINE]
    case ByReturn => [RETURN]
    case ByBoth => [RETURN, NEWLINE]
  }

  predicate NoEnding(t: Text) {
    NEWLINE !in t && RETURN !in t
  }

  /** Lines with their endings, and what comes after the last of them. */
  function Response(lines: seq<EndedLine>, last: Text): Text {
    if lines == [] then last else lines[0].text + (EndingText(lines[0].ending) + Response(lines[1..], last))
  }

  function TextsOf(lines: seq<EndedLine>): seq<Text> {
    seq(|lines|, i requires 0 <= i < |lines| => lines[i].text)
  }

  /** No empty line ended by a newline follows a return: the two would be one ending. */
  ghost predicate KeptApart(lines: seq<EndedLine>) {
    forall i :: 0 <= i < |lines| - 1 && lines[i].ending.ByReturn? ==>
      lines[i + 1].text != [] || !lines[i + 1].ending.ByNewline?
  }

  lemma EndingSplit(e: Ending, rest: Text)
    requires e.ByReturn? && rest != [] ==> rest[0] != NEWLINE
    ensures SplitLines(EndingText(e) + rest) == [[]] + SplitLines(rest)
  {
    var all, n := EndingText(e) + rest, |EndingText(e)|;
    assert all[0] == EndingText(e)[0] && all[n..] == rest;
    assert EndOfLine(all) == n;
  }

  lemma {:induction false} SplitFirstBy(line: Text, e: Ending, rest: Text)
    requires NoEnding(line) && (e.ByReturn? && rest != [] ==> rest[0] != NEWLINE)
    ensures SplitLines(line + (EndingText(e) + rest)) == [line] + SplitLines(rest)
  {
    hide SplitLines, EndingText;
    var all := line + (EndingText(e) + rest);
    EndingSplit(e, rest);
    if line == [] {
      assert all == EndingText(e) + rest;
    } else {
      SplitFirstBy(line[1..], e, rest);
      SplitUnit(all);
      assert all[1..] == line[1..] + (EndingText(e) + rest) && line == [line[0]] + line[1..];
    }
  }

  lemma StartsApart(lines: seq<EndedLine>, last: Text)
    requires NoEnding(last) && forall l <- lines :: NoEnding(l.text)
    requires lines != [] ==> lines[0].text != [] || !lines[0].ending.ByNewline?
    ensures Response(lines, last) != [] ==> Response(lines, last)[0] != NEWLINE
  {
    if lines != [] { assert NoEnding(lines[0].text); }
  }

  /** A response is read as its lines, however each of them ends. */
  lemma {:induction false} AnyEndings(lines: seq<EndedLine>, last: Text)
    requires NoEnding(last) && (forall l <- lines :: NoEnding(l.text)) && KeptApart(lines)
    ensures SplitLines(Response(lines, last)) == TextsOf(lines) + [last]
  {
    hide SplitLines;
    if lines == [] {
      SplitOnly(last);
    } else {
      var rest := lines[1..];
      assert NoEnding(lines[0].text) && forall i :: 0 <= i < |rest| ==> rest[i] == lines[i + 1];
      if lines[0].ending.ByReturn? { StartsApart(rest, last); }
      AnyEndings(rest, last);
      SplitFirstBy(lines[0].text, lines[0].ending, Response(rest, last));
      assert TextsOf(lines) == [lines[0].text] + TextsOf(rest);
    }
  }
}
