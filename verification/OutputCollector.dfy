/** The byte-capped output collector, and the trimming of a UTF-8 sequence its cap cut. */
module OutputCollector {
  import opened Bytes
  import opened Sequences

  // -------------------------------------------------------------------- collecting

  datatype Collected = Collected(kept: seq<Byte>, overflowed: bool)

  /** What one chunk does to a collector with the given cap, and whether it crosses it. */
  function Accept(c: Collected, maxBytes: nat, chunk: seq<Byte>): (Collected, bool)
    requires |c.kept| <= maxBytes
  {
    if c.overflowed then (c, false)
    else if |c.kept| + |chunk| > maxBytes then
      (Collected(c.kept + chunk[..maxBytes - |c.kept|], true), true)
    else (Collected(c.kept + chunk, false), false)
  }

  class BoundedUtf8Collector {
    const maxBytes: nat
    var chunks: seq<seq<Byte>>
    var bytes: nat
    var overflowed: bool

    ghost predicate Valid()
      reads this
    {
      bytes == |Flatten(chunks)| <= maxBytes && (overflowed ==> bytes == maxBytes)
    }

    ghost function View(): Collected
      reads this
    {
      Collected(Flatten(chunks), overflowed)
    }

    constructor (maxBytes: nat)
      ensures Valid() && View() == Collected([], false) && this.maxBytes == maxBytes
    {
      this.maxBytes := maxBytes;
      chunks, bytes, overflowed := [], 0, false;
    }

    method Push(chunk: seq<Byte>) returns (crossed: bool)
      requires Valid()
      modifies this
      ensures Valid()
      ensures (View(), crossed) == Accept(old(View()), maxBytes, chunk)
    {
      if overflowed { return false; }
      if bytes + |chunk| > maxBytes {
        FlattenAppend(chunks, chunk[..maxBytes - bytes]);
        chunks := chunks + [chunk[..maxBytes - bytes]];
        bytes := maxBytes;
        overflowed := true;
        return true;
      }
      FlattenAppend(chunks, chunk);
      chunks := chunks + [chunk];
      bytes := bytes + |chunk|;
      crossed := false;
    }

    /** The bytes that get decoded: all of them, or the trimmed cut. */
    method Bytes() returns (kept: seq<Byte>)
      requires Valid()
      ensures kept == if overflowed then Trim(View().kept) else View().kept
    {
      var joined: seq<Byte> := [];
      for n := 0 to |chunks|
        invariant joined == Flatten(chunks[..n])
      {
        FlattenAppend(chunks[..n], chunks[n]);
        assert chunks[..n + 1] == chunks[..n] + [chunks[n]];
        joined := joined + chunks[n];
      }
      assert chunks[..|chunks|] == chunks;
      if overflowed { kept := TrimSplitUtf8Tail(joined); } else { kept := joined; }
    }
  }

  /** A stream pushed piece by piece: the final collector, and how often a push crossed the cap. */
  function Collect(maxBytes: nat, pieces: seq<seq<Byte>>): (r: (Collected, nat))
    ensures |r.0.kept| <= maxBytes
  {
    if pieces == [] then (Collected([], false), 0) else
      var (c, alarms) := Collect(maxBytes, pieces[..|pieces| - 1]);
      var (d, crossed) := Accept(c, maxBytes, pieces[|pieces| - 1]);
      (d, if crossed then alarms + 1 else alarms)
  }

  function Min(a: nat, b: nat): nat {
    if a < b then a else b
  }

  /**
   * However the stream is cut into pieces, what is kept is its first bytes up to the
   * cap, and overflow is signalled once if the stream is longer, else never.
   */
  lemma {:induction false} EveryChunking(maxBytes: nat, pieces: seq<seq<Byte>>)
    ensures var stream := Flatten(pieces); var (c, alarms) := Collect(maxBytes, pieces);
      && c.kept == stream[..Min(|stream|, maxBytes)]
      && (c.overflowed <==> |stream| > maxBytes)
      && alarms == (if |stream| > maxBytes then 1 else 0)
  {
    if pieces != [] {
      var front, last := pieces[..|pieces| - 1], pieces[|pieces| - 1];
      EveryChunking(maxBytes, front);
      var before := Flatten(front);
      if |before| > maxBytes {
        assert (before + last)[..maxBytes] == before[..maxBytes];
      } else if |before| + |last| > maxBytes {
        assert (before + last)[..maxBytes] == before + last[..maxBytes - |before|];
      }
    }
  }

  // --------------------------------------------------------------------- trimming

  /** 10xxxxxx */
  predicate IsContinuation(b: Byte) {
    0x80 <= b < 0xc0
  }

  function Expected(lead: Byte): nat {
    if lead >= 0xf0 then 4 else if lead >= 0xe0 then 3 else if lead >= 0xc0 then 2 else 1
  }

  /** How many of the last bytes are continuation bytes, counting at most limit of them. */
  function TailContinuations(buf: seq<Byte>, limit: nat): (n: nat)
    ensures n <= limit && n <= |buf|
  {
    if limit == 0 || buf == [] || !IsContinuation(buf[|buf| - 1]) then 0
    else 1 + TailContinuations(buf[..|buf| - 1], limit - 1)
  }

  function Trim(buf: seq<Byte>): seq<Byte> {
    var continuations := TailContinuations(buf, 3);
    var i := |buf| - 1 - continuations;
    if i >= 0 && buf[i] >= 0xc0 && continuations + 1 < Expected(buf[i]) then buf[..i] else buf
  }

  method TrimSplitUtf8Tail(buf: seq<Byte>) returns (r: seq<Byte>)
    ensures r == Trim(buf)
  {
    var i := |buf| - 1;
    var continuations := 0;
    assert buf[..i + 1] == buf;
    while i >= 0 && continuations < 3 && IsContinuation(buf[i])
      invariant -1 <= i < |buf| && i == |buf| - 1 - continuations && continuations <= 3
      invariant TailContinuations(buf, 3) == continuations + TailContinuations(buf[..i + 1], 3 - continuations)
    {
      assert buf[..i + 1][..i] == buf[..i];
      continuations := continuations + 1;
      i := i - 1;
    }
    if i < 0 { return buf; }
    assert buf[..i + 1][i] == buf[i];
    var lead := buf[i];
    if lead >= 0xc0 && continuations + 1 < Expected(lead) { return buf[..i]; }
    r := buf;
  }

  // ----------------------------------------------------------- well-formed UTF-8

  /** One encoded character: the UTF8-char production of section 4 of RFC 3629. */
  predicate CodePoint(c: seq<Byte>) {
    || (|c| == 1 && c[0] <= 0x7f)
    || (|c| == 2 && 0xc2 <= c[0] <= 0xdf && IsContinuation(c[1]))
    || (|c| == 3 && 0xe0 <= c[0] <= 0xef && IsContinuation(c[1]) && IsContinuation(c[2])
        && (c[0] == 0xe0 ==> 0xa0 <= c[1]) && (c[0] == 0xed ==> c[1] <= 0x9f))
    || (|c| == 4 && 0xf0 <= c[0] <= 0xf4 && IsContinuation(c[1]) && IsContinuation(c[2]) && IsContinuation(c[3])
        && (c[0] == 0xf0 ==> 0x90 <= c[1]) && (c[0] == 0xf4 ==> c[1] <= 0x8f))
  }

  ghost predicate AllCodePoints(chars: seq<seq<Byte>>) {
    forall c <- chars :: CodePoint(c)
  }

  lemma CodePointShape(c: seq<Byte>)
    requires CodePoint(c)
    ensures 1 <= |c| <= 4 && !IsContinuation(c[0]) && Expected(c[0]) == |c|
    ensures |c| > 1 ==> c[0] >= 0xc0
    ensures forall i :: 1 <= i < |c| ==> IsContinuation(c[i])
  {
  }

  lemma {:induction false} TailOf(front: seq<Byte>, part: seq<Byte>, limit: nat)
    requires 1 <= |part| <= limit + 1 && !IsContinuation(part[0])
    requires forall i :: 1 <= i < |part| ==> IsContinuation(part[i])
    ensures TailContinuations(front + part, limit) == |part| - 1
  {
    var buf := front + part;
    var n := |part| - 1;
    if n > 0 {
      assert buf[..|buf| - 1] == front + part[..n];
      TailOf(front, part[..n], limit - 1);
    }
  }

  /** A cut that falls between characters is left alone. */
  lemma TrimWhole(front: seq<Byte>, c: seq<Byte>)
    requires CodePoint(c)
    ensures Trim(front + c) == front + c
  {
    CodePointShape(c);
    TailOf(front, c, 3);
    assert (front + c)[|front|] == c[0];
  }

  /** A cut inside a character drops what there is of it, and nothing else. */
  lemma TrimPartial(front: seq<Byte>, c: seq<Byte>, n: nat)
    requires CodePoint(c) && 0 < n < |c|
    ensures Trim(front + c[..n]) == front
  {
    CodePointShape(c);
    TailOf(front, c[..n], 3);
    assert (front + c[..n])[|front|] == c[0];
    assert (front + c[..n])[..|front|] == front;
  }

  /** How many leading characters fit whole into n bytes. */
  function WholeWithin(chars: seq<seq<Byte>>, n: nat): (k: nat)
    ensures k <= |chars|
  {
    if |Flatten(chars)| <= n then |chars| else WholeWithin(chars[..|chars| - 1], n)
  }

  /** The longest run of whole characters that fits in n bytes, and how little is dropped. */
  ghost predicate KeepsWhole(chars: seq<seq<Byte>>, n: nat)
    requires n <= |Flatten(chars)|
  {
    var k := WholeWithin(chars, n);
    && Trim(Flatten(chars)[..n]) == Flatten(chars[..k])
    && |Flatten(chars[..k])| <= n <= |Flatten(chars[..k])| + 3
    && (k < |chars| ==> |Flatten(chars[..k + 1])| > n)
  }

  lemma CutAtEnd(chars: seq<seq<Byte>>)
    requires AllCodePoints(chars)
    ensures KeepsWhole(chars, |Flatten(chars)|)
  {
    assert Flatten(chars)[..|Flatten(chars)|] == Flatten(chars) && chars[..|chars|] == chars;
    if chars != [] { TrimWhole(Flatten(chars[..|chars| - 1]), chars[|chars| - 1]); }
  }

  lemma CutInside(front: seq<seq<Byte>>, c: seq<Byte>, part: nat)
    requires CodePoint(c) && 0 < part < |c|
    requires Flatten(front + [c]) == Flatten(front) + c
    ensures KeepsWhole(front + [c], |Flatten(front)| + part)
  {
    hide CodePoint, Trim, Flatten, WholeWithin, KeepsWhole;
    var chars, n := front + [c], |Flatten(front)| + part;
    WholeWhenFits(front, n);
    WholeSkipsLast(front, c, n);
    CutLast(Flatten(front), c, part);
    CodePointShape(c);
    TrimPartial(Flatten(front), c, part);
    FirstAndAll(front, c);
    WholeKept(chars, n, |front|, front, chars);
  }

  lemma WholeKept(chars: seq<seq<Byte>>, n: nat, k: nat, kept: seq<seq<Byte>>, next: seq<seq<Byte>>)
    requires n <= |Flatten(chars)| && k == WholeWithin(chars, n) < |chars|
    requires kept == chars[..k] && next == chars[..k + 1]
    requires Trim(Flatten(chars)[..n]) == Flatten(kept) && |Flatten(kept)| <= n <= |Flatten(kept)| + 3
    requires |Flatten(next)| > n
    ensures KeepsWhole(chars, n)
  {
    hide Trim, Flatten, WholeWithin;
  }

  lemma CutLast(a: seq<Byte>, c: seq<Byte>, part: nat)
    requires part <= |c|
    ensures (a + c)[..|a| + part] == a + c[..part]
  {
  }

  lemma WholeSkipsLast(front: seq<seq<Byte>>, c: seq<Byte>, n: nat)
    requires Flatten(front + [c]) == Flatten(front) + c && |Flatten(front)| + |c| > n
    ensures WholeWithin(front + [c], n) == WholeWithin(front, n)
  {
    FirstAndAll(front, c);
  }

  lemma SamePrefix(front: seq<seq<Byte>>, c: seq<Byte>, k: nat)
    requires k <= |front|
    ensures (front + [c])[..k] == front[..k]
  {
  }

  lemma FirstAndAll(front: seq<seq<Byte>>, c: seq<Byte>)
    ensures (front + [c])[..|front|] == front && (front + [c])[..|front| + 1] == front + [c]
  {
  }

  lemma KeptParts(chars: seq<seq<Byte>>, n: nat, k: nat)
    requires n <= |Flatten(chars)| && KeepsWhole(chars, n) && k == WholeWithin(chars, n)
    ensures Trim(Flatten(chars)[..n]) == Flatten(chars[..k]) && |Flatten(chars[..k])| <= n <= |Flatten(chars[..k])| + 3
    ensures k < |chars| ==> |Flatten(chars[..k + 1])| > n
  {
  }

  lemma CutFirst(a: seq<Byte>, c: seq<Byte>, n: nat)
    requires n <= |a|
    ensures (a + c)[..n] == a[..n]
  {
  }

  /**
   * Cutting well-formed text after n bytes and trimming keeps the longest run of whole
   * characters that fits, and drops at most three bytes.
   */
  lemma {:induction false} TrimKeepsWholeCharacters(chars: seq<seq<Byte>>, n: nat)
    requires AllCodePoints(chars) && n <= |Flatten(chars)|
    ensures KeepsWhole(chars, n)
  {
    hide Trim, KeepsWhole, WholeWithin;
    if n == |Flatten(chars)| {
      CutAtEnd(chars);
    } else {
      var front, c := chars[..|chars| - 1], chars[|chars| - 1];
      assert chars == front + [c];
      CodePointShape(c);
      if n <= |Flatten(front)| {
        var k := WholeWithin(front, n);
        TrimKeepsWholeCharacters(front, n);
        KeptParts(front, n, k);
        CutFirst(Flatten(front), c, n);
        WholeSkipsLast(front, c, n);
        FirstAndAll(front, c);
        SamePrefix(front, c, k);
        if k < |front| { SamePrefix(front, c, k + 1); }
        WholeKept(chars, n, k, chars[..k], chars[..k + 1]);
      } else {
        CutInside(front, c, n - |Flatten(front)|);
      }
    }
  }

  lemma WholeWhenFits(chars: seq<seq<Byte>>, n: nat)
    requires |Flatten(chars)| <= n
    ensures WholeWithin(chars, n) == |chars|
  {
  }

  // ------------------------------------------------------------------ a whole stream collected

  lemma OnePieceMore(maxBytes: nat, pieces: seq<seq<Byte>>, n: nat)
    requires n < |pieces|
    ensures var (c, alarms) := Collect(maxBytes, pieces[..n]); var (d, crossed) := Accept(c, maxBytes, pieces[n]);
      Collect(maxBytes, pieces[..n + 1]) == (d, if crossed then alarms + 1 else alarms)
  {
    assert pieces[..n + 1][..n] == pieces[..n];
  }

  /** What is decoded of a stream: all of it, or what is left of its first bytes by trimming. */
  function Decoded(stream: seq<Byte>, maxBytes: nat): seq<Byte> {
    if |stream| <= maxBytes then stream else Trim(stream[..maxBytes])
  }

  /** Every chunk of a stream pushed, as the handlers of a pipe do, and what is decoded at the end. */
  method CollectStream(maxBytes: nat, pieces: seq<seq<Byte>>) returns (kept: seq<Byte>, alarms: nat)
    ensures kept == Decoded(Flatten(pieces), maxBytes)
    ensures alarms == if |Flatten(pieces)| > maxBytes then 1 else 0
  {
    var collector := new BoundedUtf8Collector(maxBytes);
    alarms := 0;
    assert pieces[..0] == [];
    for n := 0 to |pieces|
      invariant fresh(collector) && collector.Valid() && collector.maxBytes == maxBytes
      invariant (collector.View(), alarms) == Collect(maxBytes, pieces[..n])
    {
      OnePieceMore(maxBytes, pieces, n);
      var crossed := collector.Push(pieces[n]);
      if crossed { alarms := alarms + 1; }
    }
    assert pieces[..|pieces|] == pieces;
    EveryChunking(maxBytes, pieces);
    kept := collector.Bytes();
    assert Flatten(pieces)[..|Flatten(pieces)|] == Flatten(pieces);
  }

  /** Of well-formed text just the characters that fit whole are decoded, however it was cut into chunks. */
  lemma WholeCharactersDecoded(chars: seq<seq<Byte>>, maxBytes: nat)
    requires AllCodePoints(chars)
    ensures Decoded(Flatten(chars), maxBytes) == Flatten(chars[..WholeWithin(chars, maxBytes)])
    ensures |Flatten(chars)| > maxBytes ==> |Decoded(Flatten(chars), maxBytes)| >= maxBytes - 3
  {
    if |Flatten(chars)| <= maxBytes {
      WholeWhenFits(chars, maxBytes);
      assert chars[..|chars|] == chars;
    } else {
      TrimKeepsWholeCharacters(chars, maxBytes);
    }
  }
}
