/**
 * The two byte orders of a write-ahead log and of its shared-memory header. A word and its bytes in
 * reverse leave the same remainder by 255 and opposite ones by 257, and 2^32 leaves 1 by both: a
 * stored sum holds in at most one of the orders.
 */
module WalByteOrder {
  import opened Bytes
  import opened WalChecksum
  import opened WalReconstruction

  /** The magic number for little-endian sums, stored as ever, but read from its last byte. */
  const REVERSED_MAGIC: Word := 0x82067f37

  /** A word read the other way round differs by a multiple of 255. */
  lemma ReadBothWays(b: seq<Byte>, at: nat) returns (k: int)
    requires at + 4 <= |b|
    ensures WordAt(b, at, true) == WordAt(b, at, false) + 255 * k
  {
    FourBytes(FourAt(b, at));
    k := 65793 * (b[at] as int - b[at + 3] as int) + 256 * (b[at + 1] as int - b[at + 2] as int);
  }

  lemma {:induction false} WrapParts(x: nat) returns (q: nat)
    ensures x == Wrap(x) + q * WORD_LIMIT
  {
    if x < WORD_LIMIT {
      q := 0;
    } else {
      q := WrapParts(x - WORD_LIMIT);
      q := q + 1;
    }
  }

  /** How one step of the sum is undone. */
  lemma StepParts(s: Sum, x: Word, y: Word) returns (p: nat, q: nat)
    ensures var t := Step(s, x, y);
      && s.first + x + s.second == t.first + p * WORD_LIMIT
      && s.second + y + t.first == t.second + q * WORD_LIMIT
  {
    p := WrapParts(s.first + x + s.second);
    q := WrapParts(s.second + y + Step(s, x, y).first);
  }

  function ThreeSteps(w: seq<Word>): Sum
    requires |w| == 6
  {
    Step(Step(Step(Sum(0, 0), w[0], w[1]), w[2], w[3]), w[4], w[5])
  }

  /** The sum of six words, but for multiples of 2^32, without the fourth of them. */
  lemma SumOfSix(w: seq<Word>) returns (q: int)
    requires |w| == 6
    ensures var sum := ThreeSteps(w);
      2 * w[0] as int + w[1] as int + w[2] as int + w[4] as int - w[5] as int ==
        2 * sum.first as int - sum.second as int + q * WORD_LIMIT
  {
    var s := Step(Sum(0, 0), w[0], w[1]);
    var t := Step(s, w[2], w[3]);
    var p0, q0 := StepParts(Sum(0, 0), w[0], w[1]);
    var p1, q1 := StepParts(s, w[2], w[3]);
    var p2, q2 := StepParts(t, w[4], w[5]);
    q := p2 as int - q2 as int + p1 + 2 * p0 + q0;
    assert ThreeSteps(w) == Step(t, w[4], w[5]);
  }

  function SixWords(b: seq<Byte>, bigEndian: bool): (w: seq<Word>)
    requires |b| >= 24
    ensures |w| == 6
  {
    [WordAt(b, 0, bigEndian), WordAt(b, 4, bigEndian), WordAt(b, 8, bigEndian),
     WordAt(b, 12, bigEndian), WordAt(b, 16, bigEndian), WordAt(b, 20, bigEndian)]
  }

  lemma NextStep(b: seq<Byte>, at: nat, bigEndian: bool)
    requires Aligned(at) && at + BLOCK <= |b|
    ensures Aligned(at + BLOCK)
    ensures Checksum(BlockMixer(bigEndian), b[..at + BLOCK], Sum(0, 0)) ==
      Step(Checksum(BlockMixer(bigEndian), b[..at], Sum(0, 0)), WordAt(b, at, bigEndian), WordAt(b, at + 4, bigEndian))
  {
    NextBlock(BlockMixer(bigEndian), b, at, Sum(0, 0));
    var block := BlockAt(b, at);
    assert FourAt(block, 0) == FourAt(b, at) && FourAt(block, 4) == FourAt(b, at + 4);
  }

  lemma NoBlocks(mix: Mixer, b: seq<Byte>)
    ensures Checksum(mix, b[..0], Sum(0, 0)) == Sum(0, 0)
  {
    assert b[..0] == [];
  }

  /** The sum over the first 24 bytes, word by word. */
  lemma HeaderSteps(b: seq<Byte>, bigEndian: bool)
    requires |b| >= 24
    ensures Aligned(24) && Checksum(BlockMixer(bigEndian), b[..24], Sum(0, 0)) == ThreeSteps(SixWords(b, bigEndian))
  {
    hide WordAt, Checksum, Step, BlockMixer;
    NoBlocks(BlockMixer(bigEndian), b);
    NextStep(b, 0, bigEndian);
    NextStep(b, 8, bigEndian);
    NextStep(b, 16, bigEndian);
  }

  // ------------------------------------------------------------------ one order or the other

  /** The magic number of one byte order, and the bytes of the other order's read in that order. */
  lemma MagicReversed(b: seq<Byte>)
    requires |b| >= 4 && WordAt(b, 0, true) == LITTLE_ENDIAN_MAGIC
    ensures WordAt(b, 0, false) == REVERSED_MAGIC
  {
    FourBytes(FourAt(b, 0));
    var four := FourAt(b, 0);
    assert four[0] == 0x37 && four[1] == 0x7f && four[2] == 0x06 && four[3] == 0x82;
  }

  /** Five words of a header read in its order, with the sum stored after them, wherever they wrap. */
  lemma HeaderSum(b: seq<Byte>, size: nat) returns (q: int)
    requires ReadHeader(b, size).Header?
    ensures |b| >= LOG_HEADER
    ensures var bigEndian := ReadHeader(b, size).bigEndian;
      2 * WordAt(b, 0, bigEndian) as int + WordAt(b, 4, bigEndian) as int + WordAt(b, 8, bigEndian) as int +
      WordAt(b, 16, bigEndian) as int - WordAt(b, 20, bigEndian) as int ==
        2 * WordAt(b, 24, true) as int - WordAt(b, 28, true) as int + q * WORD_LIMIT
  {
    hide WordAt, Checksum, Step, BlockMixer, ThreeSteps;
    var bigEndian := ReadHeader(b, size).bigEndian;
    HeaderSteps(b, bigEndian);
    q := SumOfSix(SixWords(b, bigEndian));
  }

  /**
   * The words of one order, x, and of the other, y, do not reach the same sum c. By their sizes the
   * multiples of 2^32 in between would differ by -2 to 1, and by their remainders by 2 and a
   * multiple of 255.
   */
  lemma NoCommonSum(
    size: int, x4: int, x5: int, y1: int, y2: int, y4: int, y5: int, c: int, p: int, q: int,
    i: int, j: int, k: int, l: int
  )
    requires 0 <= size <= 65536 && 0 <= y1 && 0 <= y2
    requires y1 == FORMAT_VERSION - 255 * i && y2 == size - 255 * j
    requires x4 == y4 + 255 * k && x5 == y5 + 255 * l
    requires 0 <= x4 < WORD_LIMIT && 0 <= x5 < WORD_LIMIT && 0 <= y4 < WORD_LIMIT && 0 <= y5 < WORD_LIMIT
    requires y2 < WORD_LIMIT && y1 < WORD_LIMIT
    requires 2 * BIG_ENDIAN_MAGIC as int + FORMAT_VERSION as int + size + x4 - x5 == c + p * WORD_LIMIT
    ensures 2 * REVERSED_MAGIC as int + y1 + y2 + y4 - y5 != c + q * WORD_LIMIT
  {
    var off := 2 * REVERSED_MAGIC as int + y1 + y2 + y4 - y5 - c - q * WORD_LIMIT;
    assert p - q == off + 2 + 255 * (i + j + k - l - 9806998 - 16843009 * (p - q));
  }

  /** Two headers that agree after their first block are not both readable, one in each order. */
  lemma OneOrderReads(big: seq<Byte>, little: seq<Byte>, size: nat)
    requires ReadHeader(big, size).Header? && ReadHeader(big, size).bigEndian && size <= 65536
    requires |little| >= LOG_HEADER && WordAt(little, 0, true) == LITTLE_ENDIAN_MAGIC
    requires forall i :: BLOCK <= i < LOG_HEADER ==> big[i] == little[i]
    ensures ReadHeader(little, size).BadHeader?
  {
    hide Checksum, BlockMixer, Matches, WordAt;
    if ReadHeader(little, size).Header? {
      MagicReversed(little);
      var p := HeaderSum(big, size);
      var q := HeaderSum(little, size);
      var i := ReadBothWays(little, 4);
      var j := ReadBothWays(little, 8);
      var k := ReadBothWays(little, 16);
      var l := ReadBothWays(little, 20);
      SameWords(big, little);
      NoCommonSum(size, WordAt(little, 16, true), WordAt(little, 20, true), WordAt(little, 4, false),
        WordAt(little, 8, false), WordAt(little, 16, false), WordAt(little, 20, false),
        2 * WordAt(big, 24, true) - WordAt(big, 28, true), p, q, i, j, k, l);
    }
  }

  lemma SameWords(a: seq<Byte>, b: seq<Byte>)
    requires |a| >= LOG_HEADER && |b| >= LOG_HEADER && forall i :: BLOCK <= i < LOG_HEADER ==> a[i] == b[i]
    ensures WordAt(a, 8, true) == WordAt(b, 8, true) && WordAt(a, 16, true) == WordAt(b, 16, true)
    ensures WordAt(a, 20, true) == WordAt(b, 20, true)
    ensures WordAt(a, 24, true) == WordAt(b, 24, true) && WordAt(a, 28, true) == WordAt(b, 28, true)
  {
    assert FourAt(a, 8) == FourAt(b, 8) && FourAt(a, 16) == FourAt(b, 16) && FourAt(a, 20) == FourAt(b, 20);
    assert FourAt(a, 24) == FourAt(b, 24) && FourAt(a, 28) == FourAt(b, 28);
  }

  /** A readable header is not readable with another magic number in its first block. */
  lemma OneOrderOnly(wal: seq<Byte>, other: seq<Byte>, size: nat)
    requires ReadHeader(wal, size).Header? && size <= 65536 && |other| >= LOG_HEADER
    requires WordAt(wal, 0, true) != WordAt(other, 0, true)
    requires forall i :: BLOCK <= i < LOG_HEADER ==> wal[i] == other[i]
    ensures ReadHeader(other, size).BadHeader?
  {
    hide Checksum, BlockMixer, Matches, WordAt;
    if ReadHeader(other, size).Header? {
      if WordAt(wal, 0, true) == BIG_ENDIAN_MAGIC {
        OneOrderReads(wal, other, size);
      } else {
        OneOrderReads(other, wal, size);
      }
    }
  }

  // -------------------------------------------------------------- the shared-memory header

  /** A word and its bytes in reverse add up to a multiple of 257. */
  lemma BothReadings(b: seq<Byte>, at: nat) returns (k: int, m: int)
    requires at + 4 <= |b|
    ensures WordAt(b, at, true) == WordAt(b, at, false) + 255 * k
    ensures WordAt(b, at, true) as int + WordAt(b, at, false) as int == 257 * m
  {
    k := ReadBothWays(b, at);
    FourBytes(FourAt(b, at));
    m := 65281 * (b[at] as int + b[at + 3] as int) + 256 * (b[at + 1] as int + b[at + 2] as int);
  }

  function FiveSteps(w: seq<Word>): Sum
    requires |w| == 10
  {
    Step(Step(ThreeSteps(w[..6]), w[6], w[7]), w[8], w[9])
  }

  /** What is left of a sum of five blocks, with every word after the second taken back. */
  function TakenBack(w: seq<Word>, sum: Sum): (r: int)
    requires |w| == 10
    ensures -42 * WORD_LIMIT < r < 67 * WORD_LIMIT
  {
    34 * sum.first as int - 21 * sum.second as int - w[2] as int + w[3] as int - 2 * w[4] as int + 3 * w[5] as int
    - 5 * w[6] as int + 8 * w[7] as int - 13 * w[8] as int + 21 * w[9] as int
  }

  /** A step undone, but for multiples of 2^32. */
  lemma StepBack(s: Sum, x: Word, y: Word) returns (p: int, q: int)
    ensures var t := Step(s, x, y);
      && s.first == 2 * t.first - t.second - x + y + p * WORD_LIMIT
      && s.second == t.second - y - t.first + q * WORD_LIMIT
  {
    var u, v := StepParts(s, x, y);
    p, q := u as int - v as int, v;
  }

  lemma SumOfTen(w: seq<Word>) returns (q: int)
    requires |w| == 10
    ensures TakenBack(w, FiveSteps(w)) == w[0] as int + q * WORD_LIMIT
  {
    var r := Step(Sum(0, 0), w[0], w[1]);
    var s := Step(r, w[2], w[3]);
    var t := Step(s, w[4], w[5]);
    var u := Step(t, w[6], w[7]);
    var p1, q1 := StepBack(r, w[2], w[3]);
    var p2, q2 := StepBack(s, w[4], w[5]);
    var p3, q3 := StepBack(t, w[6], w[7]);
    var p4, q4 := StepBack(u, w[8], w[9]);
    q := -(p1 + 2 * p2 - q2 + 5 * p3 - 3 * q3 + 13 * p4 - 8 * q4);
  }

  function TenWords(b: seq<Byte>, bigEndian: bool): (w: seq<Word>)
    requires |b| >= 40
    ensures |w| == 10
  {
    SixWords(b, bigEndian) + [WordAt(b, 24, bigEndian), WordAt(b, 28, bigEndian)] +
    [WordAt(b, 32, bigEndian), WordAt(b, 36, bigEndian)]
  }

  /** The sum over the first 40 bytes, word by word. */
  lemma IndexSteps(b: seq<Byte>, bigEndian: bool)
    requires |b| >= 40
    ensures Aligned(40) && Checksum(BlockMixer(bigEndian), b[..40], Sum(0, 0)) == FiveSteps(TenWords(b, bigEndian))
  {
    hide WordAt, Checksum, Step, BlockMixer, ThreeSteps;
    HeaderSteps(b, bigEndian);
    NextStep(b, 24, bigEndian);
    NextStep(b, 32, bigEndian);
    assert TenWords(b, bigEndian)[..6] == SixWords(b, bigEndian);
  }

  /** The sum stored after the first 40 bytes, in the order they are summed in. */
  predicate SumStored(b: seq<Byte>, bigEndian: bool)
    requires |b| >= 48
  {
    IndexSteps(b, bigEndian);
    Checksum(BlockMixer(bigEndian), b[..40], Sum(0, 0)) == StoredSum(b, bigEndian)
  }

  function StoredSum(b: seq<Byte>, bigEndian: bool): Sum
    requires |b| >= 48
  {
    Sum(WordAt(b, 40, bigEndian), WordAt(b, 44, bigEndian))
  }

  function FirstTaken(b: seq<Byte>, bigEndian: bool): (r: int)
    requires |b| >= 48
    ensures -42 * WORD_LIMIT < r < 67 * WORD_LIMIT
  {
    TakenBack(TenWords(b, bigEndian), StoredSum(b, bigEndian))
  }

  /** Where the sum is right, taking the words back leads to the first of them. */
  lemma FirstWordTaken(b: seq<Byte>, bigEndian: bool) returns (q: int)
    requires |b| >= 48 && SumStored(b, bigEndian)
    ensures FirstTaken(b, bigEndian) == WordAt(b, 0, bigEndian) as int + q * WORD_LIMIT
  {
    hide WordAt, Checksum, Step, BlockMixer, ThreeSteps, FiveSteps;
    IndexSteps(b, bigEndian);
    q := SumOfTen(TenWords(b, bigEndian));
  }

  lemma TakenBothWays(b: seq<Byte>) returns (k: int, m: int)
    requires |b| >= 48
    ensures FirstTaken(b, true) == FirstTaken(b, false) + 255 * k
    ensures FirstTaken(b, true) + FirstTaken(b, false) == 257 * m
  {
    hide WordAt;
    var k2, m2 := BothReadings(b, 8);
    var k3, m3 := BothReadings(b, 12);
    var k4, m4 := BothReadings(b, 16);
    var k5, m5 := BothReadings(b, 20);
    var k6, m6 := BothReadings(b, 24);
    var k7, m7 := BothReadings(b, 28);
    var k8, m8 := BothReadings(b, 32);
    var k9, m9 := BothReadings(b, 36);
    var k10, m10 := BothReadings(b, 40);
    var k11, m11 := BothReadings(b, 44);
    k := 34 * k10 - 21 * k11 - k2 + k3 - 2 * k4 + 3 * k5 - 5 * k6 + 8 * k7 - 13 * k8 + 21 * k9;
    m := 34 * m10 - 21 * m11 - m2 + m3 - 2 * m4 + 3 * m5 - 5 * m6 + 8 * m7 - 13 * m8 + 21 * m9;
  }

  lemma NoCommonVersion(x: int, y: int, p: int, q: int, k: int, m: int)
    requires -42 * WORD_LIMIT < x < 67 * WORD_LIMIT && -42 * WORD_LIMIT < y < 67 * WORD_LIMIT
    requires x == FORMAT_VERSION as int + p * WORD_LIMIT && x == y + 255 * k && x + y == 257 * m
    ensures y != FORMAT_VERSION as int + q * WORD_LIMIT
  {
    var j := m - 23400 - 2 * 16711935 * p;
    assert 2 * (FORMAT_VERSION as int + p * WORD_LIMIT) - 257 * m == 200 + 2 * p - 257 * j;
    var off := y - FORMAT_VERSION as int - q * WORD_LIMIT;
    assert p - q == off + 255 * (k - 16843009 * (p - q));
  }

  lemma LaterWordsTaken(a: seq<Byte>, b: seq<Byte>, bigEndian: bool)
    requires |a| >= 48 && |b| >= 48 && forall i :: BLOCK <= i < 48 ==> a[i] == b[i]
    ensures FirstTaken(a, bigEndian) == FirstTaken(b, bigEndian)
  {
    hide Word4;
    assert FourAt(a, 8) == FourAt(b, 8) && FourAt(a, 12) == FourAt(b, 12) && FourAt(a, 16) == FourAt(b, 16);
    assert FourAt(a, 20) == FourAt(b, 20) && FourAt(a, 24) == FourAt(b, 24) && FourAt(a, 28) == FourAt(b, 28);
    assert FourAt(a, 32) == FourAt(b, 32) && FourAt(a, 36) == FourAt(b, 36) && FourAt(a, 40) == FourAt(b, 40);
    assert FourAt(a, 44) == FourAt(b, 44);
  }

  /** A shared-memory header whose sum is right is not right with the version turned to the other order. */
  lemma OneIndexOrderOnly(a: seq<Byte>, b: seq<Byte>, bigEndian: bool)
    requires |a| >= 48 && |b| >= 48 && forall i :: BLOCK <= i < 48 ==> a[i] == b[i]
    requires WordAt(a, 0, bigEndian) == FORMAT_VERSION && WordAt(b, 0, !bigEndian) == FORMAT_VERSION
    requires SumStored(a, bigEndian)
    ensures !SumStored(b, !bigEndian)
  {
    hide WordAt, SumStored, FirstTaken;
    if SumStored(b, !bigEndian) {
      var p := FirstWordTaken(a, bigEndian);
      var q := FirstWordTaken(b, !bigEndian);
      LaterWordsTaken(a, b, bigEndian);
      var k, m := TakenBothWays(b);
      NoCommonVersion(FirstTaken(a, bigEndian), FirstTaken(b, !bigEndian), p, q, if bigEndian then k else -k, m);
    }
  }
}
