/**
 * When a write-ahead log is accepted, told from the pages and the commits in it: every page that the
 * database has grown by is there, and its first page still says how large pages are.
 */
module WalAcceptance {
  import opened Sequences
  import opened Bytes
  import opened WalChecksum
  import opened WalReconstruction
  import opened WalImage
  import opened WalTheorems
  import opened WalWriter

  // ------------------------------------------------------------------------ what a page size is

  const PAGE_SIZES: set<nat> := {512, 1024, 2048, 4096, 8192, 16384, 32768, 65536}

  /** A page that starts with the header of a database and names this page size in it. */
  predicate NamesPageSize(page: seq<Byte>, size: nat) {
    && |page| >= 100
    && (forall i {:trigger MAIN_HEADER[i]} :: 0 <= i < |MAIN_HEADER| ==> page[i] == MAIN_HEADER[i])
    && 256 * page[16] as int + page[17] as int == if size == 65536 then 1 else size
  }

  function Doubled(j: nat): nat {
    if j == 0 then 1 else 2 * Doubled(j - 1)
  }

  lemma {:induction false} PowerIsDoubled(n: nat) returns (j: nat)
    requires PowerOfTwo(n)
    ensures n == Doubled(j)
  {
    if n == 1 {
      j := 0;
    } else {
      j := PowerIsDoubled(n / 2);
      j := j + 1;
    }
  }

  lemma {:induction false} DoubledIsPower(j: nat)
    ensures Doubled(j) > 0 && PowerOfTwo(Doubled(j))
  {
    if j > 0 {
      DoubledIsPower(j - 1);
      assert 2 * Doubled(j - 1) / 2 == Doubled(j - 1);
    }
  }

  lemma {:induction false} DoubledGrows(i: nat, j: nat)
    requires i <= j
    ensures Doubled(i) <= Doubled(j)
  {
    if i < j {
      DoubledGrows(i, j - 1);
      DoubledIsPower(j - 1);
    }
  }

  lemma EightSizes()
    ensures Doubled(8) == 256 && Doubled(9) == 512 && Doubled(10) == 1024 && Doubled(11) == 2048 && Doubled(12) == 4096
    ensures Doubled(13) == 8192 && Doubled(14) == 16384 && Doubled(15) == 32768 && Doubled(16) == 65536
    ensures Doubled(17) == 131072
  {
    assert Doubled(2) == 4 && Doubled(4) == 16 && Doubled(6) == 64;
  }

  lemma PageSizesAreEight(size: nat)
    ensures 512 <= size <= 65536 && PowerOfTwo(size) <==> size in PAGE_SIZES
  {
    EightSizes();
    if 512 <= size <= 65536 && PowerOfTwo(size) {
      var j := PowerIsDoubled(size);
      if j <= 8 { DoubledGrows(j, 8); }
      if j >= 17 { DoubledGrows(17, j); }
      assert 9 <= j <= 16;
    }
    if size in PAGE_SIZES {
      var j :=
        if size == 512 then 9 else if size == 1024 then 10 else if size == 2048 then 11 else if size == 4096 then 12
        else if size == 8192 then 13 else if size == 16384 then 14 else if size == 32768 then 15 else 16;
      DoubledIsPower(j);
    }
  }

  lemma {:induction false} WholeIsMultiple(bytes: nat, size: nat)
    requires size > 0
    ensures Whole(bytes, size) <==> bytes % size == 0
  {
    if bytes >= size {
      WholeIsMultiple(bytes - size, size);
      OneSizeLess(bytes, size);
    }
  }

  lemma OneSizeLess(bytes: nat, size: nat)
    requires 0 < size <= bytes
    ensures (bytes - size) % size == bytes % size && bytes / size == (bytes - size) / size + 1
  {
    var q, r := bytes / size, bytes % size;
    assert bytes - size == (q - 1) * size + r;
    Unique(bytes - size, size, q - 1, r);
  }

  lemma AtLeastOnce(k: int, size: int)
    requires k >= 1 && size > 0
    ensures k * size >= size
  {
  }

  lemma Unique(n: nat, size: nat, q: int, r: nat)
    requires size > 0 && n == q * size + r && r < size
    ensures n % size == r && n / size == q
  {
    var p := n / size;
    assert n == p * size + n % size;
    assert (q - p) * size == n % size - r && (p - q) * size == r - n % size;
    if q > p { AtLeastOnce(q - p, size); }
    if q < p { AtLeastOnce(p - q, size); }
  }

  /** What reading a page size accepts, in plain terms. */
  lemma PageSizeExactlyWhen(bytes: seq<Byte>, size: nat)
    ensures PageSize(bytes) == Size(size) <==> size in PAGE_SIZES && NamesPageSize(bytes, size) && |bytes| % size == 0
  {
    hide PowerOfTwo, Whole;
    PageSizesAreEight(size);
    if |bytes| >= 100 {
      TwoBytes(bytes[16], bytes[17]);
      if size > 0 { WholeIsMultiple(|bytes|, size); }
    }
  }

  lemma TwoBytes(a: Byte, b: Byte)
    ensures BigEndian([a, b]) == 256 * a as int + b as int
  {
    BigEndianGrows([], a);
    BigEndianGrows([a], b);
    assert [] + [a] == [a] && [a] + [b] == [a, b];
  }

  // ------------------------------------------------------------------- enough frames for the new pages

  /** Every page from one size to a larger one is written by some frame. */
  ghost predicate AllWritten(frames: seq<Frame>, from: nat, upTo: nat) {
    forall p :: from < p <= upTo ==> Written(frames, p)
  }

  ghost predicate Written(frames: seq<Frame>, p: int) {
    exists i :: 0 <= i < |frames| && frames[i].page == p
  }

  function PagesBetween(from: nat, upTo: nat): (pages: set<nat>)
    requires from <= upTo
    ensures forall p :: p in pages <==> from < p <= upTo
    ensures |pages| == upTo - from
    decreases upTo
  {
    if from == upTo then {} else PagesBetween(from, upTo - 1) + {upTo}
  }

  function PagesOf(frames: seq<Frame>): (pages: seq<nat>)
    ensures |pages| == |frames|
  {
    seq(|frames|, i requires 0 <= i < |frames| => frames[i].page as nat)
  }

  /** So many pages take as many frames. */
  lemma PagesTakeFrames(frames: seq<Frame>, from: nat, upTo: nat)
    requires AllWritten(frames, from, upTo)
    ensures upTo <= from + |frames|
  {
    if from < upTo {
      var pages := PagesOf(frames);
      forall p <- PagesBetween(from, upTo) ensures p in Elements(pages) {
        assert Written(frames, p);
        var i :| 0 <= i < |frames| && frames[i].page == p;
        assert pages[i] == p;
      }
      ElementsAtMost(pages);
      SubsetCardinality(PagesBetween(from, upTo), Elements(pages));
    }
  }

  // ------------------------------------------------------------------------------ when a log is accepted

  /** So many frames end with the last commit. */
  ghost predicate LastCommitAt(frames: seq<Frame>, n: nat) {
    0 < n <= |frames| && frames[n - 1].commit != 0 && forall i :: n <= i < |frames| ==> frames[i].commit == 0
  }

  lemma {:induction false} LastCommitCounts(frames: seq<Frame>, n: nat)
    requires LastCommitAt(frames, n)
    ensures Committed(frames) == n
  {
    if n < |frames| { LastCommitCounts(frames[..|frames| - 1], n); }
  }

  /** The first page, if it is written, is last written as the first page of a database of this page size. */
  ghost predicate KeepsPageSize(frames: seq<Frame>, size: nat) {
    forall i: nat :: LastFrameFor(frames, 1, i) ==> NamesPageSize(frames[i].data, size)
  }

  lemma FirstPageNames(main: seq<Byte>, size: nat, frames: seq<Frame>)
    requires PageSize(main) == Size(size)
    ensures KeepsPageSize(frames, size) <==> NamesPageSize(PageOf(main, size, frames, 1), size)
  {
    hide PageSize, PageOf, NamesPageSize, MainPage;
    var i := PageOrigin(main, size, frames, 1);
    if Supplied(frames, 1) {
      forall j: nat | LastFrameFor(frames, 1, j) ensures j == i {}
    } else {
      FirstPageOfMain(main, size);
    }
  }

  lemma FirstPageOfMain(main: seq<Byte>, size: nat)
    requires PageSize(main) == Size(size)
    ensures NamesPageSize(MainPage(main, size, 1), size)
  {
    hide PageSize;
    PageSizeExactlyWhen(main, size);
    assert Offset(1, size) == size && Offset(0, size) == 0;
    WholeIsMultiple(|main|, size);
    assert |main| >= size;
    assert forall i :: 0 <= i < size ==> main[0..size][i] == main[i];
  }

  /** The assembled image has the page size if its first page names it. */
  lemma AssembledPageSize(main: seq<Byte>, size: nat, frames: seq<Frame>, pages: nat)
    requires PageSize(main) == Size(size) && AllSound(frames, size) && pages > 0
    ensures PageSize(Assemble(main, size, frames, pages)) == Size(size) <==>
      NamesPageSize(PageOf(main, size, frames, 1), size)
  {
    hide PageSize, PageOf, Assemble, AllSound, Whole;
    var bytes := Assemble(main, size, frames, pages);
    PageSizeExactlyWhen(main, size);
    PageSizeExactlyWhen(bytes, size);
    AssembleLength(main, size, frames, pages);
    CountOfPages(pages, size);
    WholeIsMultiple(|bytes|, size);
    OffsetGrows(1, pages, size);
    AssembledPage(main, size, frames, pages, 1);
    SameFirstPage(bytes, PageOf(main, size, frames, 1), size);
  }

  lemma SameFirstPage(bytes: seq<Byte>, page: seq<Byte>, size: nat)
    requires size in PAGE_SIZES && PageAt(bytes, size, 1, page)
    ensures NamesPageSize(bytes, size) <==> NamesPageSize(page, size)
  {
    assert Offset(1, size) == size && Offset(0, size) == 0;
    assert bytes[0..size] == page;
    assert forall i :: 0 <= i < size ==> page[i] == bytes[i];
  }

  /** Up to the last commit, every page beyond the main file is written, and the first one keeps the page size. */
  ghost predicate Acceptable(main: seq<Byte>, size: nat, frames: seq<Frame>, n: nat)
    requires size > 0 && LastCommitAt(frames, n)
  {
    AllWritten(frames[..n], |main| / size, frames[n - 1].commit) && KeepsPageSize(frames[..n], size)
  }

  lemma AppliedExactlyWhen(main: seq<Byte>, size: nat, frames: seq<Frame>, n: nat)
    requires PageSize(main) == Size(size) && AllSound(frames, size) && LastCommitAt(frames, n)
    ensures ApplyLog(main, size, frames, 0).Rebuilt? <==> Acceptable(main, size, frames, n)
  {
    hide PageSize, PageOf, Assemble, AllSound, Committed, NamesPageSize, KeepsPageSize, PageCount, LastCommitAt;
    LastCommitCounts(frames, n);
    CommitAt(frames, n);
    MainPages(main, size);
    var kept, pages := frames[..n], frames[n - 1].commit;
    assert AllSound(kept, size) by { SoundPrefix(frames, size, n); }
    assert AllWritten(kept, |main| / size, pages) <==> !LeavesMissing(kept, |main| / size, pages) by {
      WrittenIsSupplied(kept, |main| / size, pages);
    }
    if AllWritten(kept, |main| / size, pages) { PagesTakeFrames(kept, |main| / size, pages); }
    AssembledPageSize(main, size, kept, pages);
    FirstPageNames(main, size, kept);
  }

  lemma CommitAt(frames: seq<Frame>, n: nat)
    requires LastCommitAt(frames, n)
    ensures 0 < n <= |frames| && frames[n - 1].commit > 0
  {
  }

  lemma SoundPrefix(frames: seq<Frame>, size: nat, n: nat)
    requires AllSound(frames, size) && n <= |frames|
    ensures AllSound(frames[..n], size)
  {
  }

  lemma WrittenIsSupplied(frames: seq<Frame>, from: nat, upTo: nat)
    ensures AllWritten(frames, from, upTo) <==> !LeavesMissing(frames, from, upTo)
  {
    forall p: nat ensures Written(frames, p) <==> Supplied(frames, p) {}
    if LeavesMissing(frames, from, upTo) {
      var p :| from < p <= upTo && !Supplied(frames, p);
      assert !Written(frames, p);
    }
  }

  lemma MainPages(main: seq<Byte>, size: nat)
    requires PageSize(main) == Size(size)
    ensures PageCount(|main|, size) == |main| / size
  {
    hide PageSize;
    CountIsQuotient(|main|, size);
  }

  lemma {:induction false} CountIsQuotient(bytes: nat, size: nat)
    requires size > 0
    ensures PageCount(bytes, size) == bytes / size
  {
    if bytes >= size {
      CountIsQuotient(bytes - size, size);
      OneSizeLess(bytes, size);
    } else {
      Unique(bytes, size, 0, bytes);
    }
  }

  /**
   * A log with a commit in it rebuilds the database if and only if, up to the last commit, every page
   * beyond the main file is written, and the first page, if written at all, was last written with a
   * valid header that names the page size. That there are not too many pages follows by counting.
   */
  lemma LogAcceptedExactlyWhen(
    main: seq<Byte>, size: Word, bigEndian: bool, sequence: Word, salt: seq<Byte>, frames: seq<Frame>, n: nat
  )
    requires PageSize(main) == Size(size) && |salt| == BLOCK && AllWritable(frames, size) && LastCommitAt(frames, n)
    ensures Rebuild(main, LogBytes(bigEndian, size, sequence, salt, frames)).Rebuilt? <==>
      Acceptable(main, size, frames, n)
  {
    hide PageSize, Rebuild, ApplyLog, LogBytes, Acceptable, LastCommitAt;
    LogReadsBack(main, size, bigEndian, sequence, salt, frames);
    assert AllSound(frames, size);
    AppliedExactlyWhen(main, size, frames, n);
  }

  // ------------------------------------------------------------------------------------ a torn log

  /** A reader that finds fault with any part of a frame it would take whole. */
  ghost predicate Tears(next: Reader, w: nat) {
    forall rest, sum, m: nat {:trigger next(rest, sum), next(rest[..m], sum)} ::
      next(rest, sum).More? && 0 < m < w && m <= |rest| ==> TornEnd(next(rest[..m], sum))
  }

  predicate TornEnd(n: Next) {
    n.Ends? && n.log.BadLog?
  }

  lemma FrameReaderTears(size: nat, mix: Mixer, salt: seq<Byte>)
    requires Aligned(size)
    ensures Tears(FrameReader(size, mix, salt), FRAME_HEADER + size)
  {
    var next := FrameReader(size, mix, salt);
    forall rest, sum, m: nat | next(rest, sum).More? && 0 < m < FRAME_HEADER + size && m <= |rest|
      ensures TornEnd(next(rest[..m], sum))
    {
      if m >= FRAME_HEADER { assert rest[..m][..FRAME_HEADER] == rest[..FRAME_HEADER]; }
    }
  }

  /** A log cut inside the frame after its first k is not read. */
  lemma {:induction false} TornLog(next: Reader, w: nat, rest: seq<Byte>, sum: Sum, k: nat, m: nat)
    requires Takes(next, w) && LooksAtFrame(next, w) && Tears(next, w) && 0 < m < w
    requires ReadLog(next, w, rest, sum).Log? && k < |ReadLog(next, w, rest, sum).frames|
    ensures Offset(k, w) + m <= |rest| && ReadLog(next, w, rest[..Offset(k, w) + m], sum).BadLog?
    decreases k
  {
    var n := next(rest, sum);
    if k == 0 {
      assert TornEnd(next(rest[..m], sum));
    } else {
      TornLog(next, w, rest[w..], n.sum, k - 1, m);
      CutRest(rest, w, Offset(k - 1, w) + m);
      assert next(rest[..Offset(k, w) + m], sum) == n;
    }
  }

  lemma TornCurrent(size: nat, mix: Mixer, h: Header, rest: seq<Byte>, k: nat, m: nat)
    requires Aligned(size) && h.Header? && CurrentLog(size, mix, h, rest).Log?
    requires k < |CurrentLog(size, mix, h, rest).frames| && 0 < m < FRAME_HEADER + size
    ensures var n := Offset(k, FRAME_HEADER + size) + m;
      n <= |rest| && CurrentLog(size, mix, h, rest[..n]).BadLog?
  {
    hide NextFrame, Aligned, Takes, LooksAtFrame, Tears, FrameReader;
    FrameReaderTakes(size, mix, h.salt);
    FrameReaderLooksAtFrame(size, mix, h.salt);
    FrameReaderTears(size, mix, h.salt);
    TornLog(FrameReader(size, mix, h.salt), FRAME_HEADER + size, rest, h.sum, k, m);
  }

  /** A log that stops inside its header, or inside one of its frames, is rejected. */
  lemma TornLogIsRejected(main: seq<Byte>, size: nat, wal: seq<Byte>, k: nat, m: nat)
    requires PageSize(main) == Size(size) && k < |FramesOf(main, wal)| && 0 < m < FRAME_HEADER + size
    ensures Extent(k, size) + m <= |wal| && Rebuild(main, wal[..Extent(k, size) + m]).Invalid?
    ensures forall n :: 0 < n < LOG_HEADER ==> Rebuild(main, wal[..n]).Invalid?
  {
    hide PageSize, FramesOf, Rebuild, ApplyLog, Aligned, CurrentLog, BlockMixer;
    var h := HeaderOfFrames(main, size, wal);
    var n := Offset(k, FRAME_HEADER + size) + m;
    TornCurrent(size, BlockMixer(h.bigEndian), h, wal[LOG_HEADER..], k, m);
    SamePrefixSameHeader(wal, LOG_HEADER + n, size);
    CutRest(wal, LOG_HEADER, n);
    RebuildFrom(main, wal[..LOG_HEADER + n], size, h);
    forall i | 0 < i < LOG_HEADER ensures Rebuild(main, wal[..i]).Invalid? {
      BadHeaderIsInvalid(main, wal[..i], size);
    }
  }

  // --------------------------------------------------------------------------- a database that grows

  lemma TwoPagesAssembled(main: seq<Byte>, size: nat, first: seq<Byte>, second: seq<Byte>)
    requires size > 0
    ensures Assemble(main, size, [Frame(1, 0, first), Frame(2, 2, second)], 2) == first + second
  {
    var frames := [Frame(1, 0, first), Frame(2, 2, second)];
    assert frames[..1] == [Frame(1, 0, first)];
    assert PageOf(main, size, frames, 1) == first && PageOf(main, size, frames, 2) == second;
    assert Assemble(main, size, frames, 0) == [];
    assert Assemble(main, size, frames, 1) == first;
  }

  /** One page more than before, written and committed, with the first page rewritten. */
  lemma GrownApplies(main: seq<Byte>, size: nat, first: seq<Byte>, second: seq<Byte>)
    requires PageSize(main) == Size(size) && |main| == |first| == |second| == size && NamesPageSize(first, size)
    ensures ApplyLog(main, size, [Frame(1, 0, first), Frame(2, 2, second)], 0) ==
      Rebuilt(Image(first + second, 2, 2, 0))
  {
    hide PageSize, Assemble, NamesPageSize, PageCount;
    var frames := [Frame(1, 0, first), Frame(2, 2, second)];
    assert frames[..2] == frames;
    TwoPagesAssembled(main, size, first, second);
    Unique(size, size, 1, 0);
    assert frames[1].page == 2 && Written(frames, 2);
    forall i: nat | LastFrameFor(frames, 1, i) ensures frames[i].data == first {}
    AppliedExactlyWhen(main, size, frames, 2);
    assert Committed(frames) == 2;
  }

  lemma OnePageNames(last: Byte)
    ensures NamesPageSize(OnePage(last), 512)
  {
    hide OnePage, PageSize;
    OnePageIsReadable(last);
    PageSizeExactlyWhen(OnePage(last), 512);
  }

  /** A one-page database whose log rewrites its page and commits a second one: two pages are rebuilt. */
  lemma GrownDatabaseIsRebuilt(salt: seq<Byte>) returns (wal: seq<Byte>)
    requires |salt| == BLOCK
    ensures |OnePage(0)| == 512
    ensures Rebuild(OnePage(0), wal) == Rebuilt(Image(OnePage(1) + Zeros(512), 2, 2, 0))
  {
    hide OnePage, PageSize, ApplyLog, Rebuild, LogBytes, NamesPageSize;
    var frames := [Frame(1, 0, OnePage(1)), Frame(2, 2, Zeros(512))];
    OnePageIsReadable(0);
    OnePageNames(1);
    wal := LogBytes(true, 512, 0, salt, frames);
    LogReadsBack(OnePage(0), 512, true, 0, salt, frames);
    GrownApplies(OnePage(0), 512, OnePage(1), Zeros(512));
  }
}
