/**
 * Writing the header of the shared-memory file as the WAL-mode file format lays it out, in either
 * byte order: every image that a log rebuilds has an index that corroborates it.
 */
module WalIndexWriter {
  import opened Options
  import opened Bytes
  import opened WalChecksum
  import opened WalReconstruction
  import opened WalByteOrder
  import opened WalTheorems
  import opened WalWriter
  import opened WalIndex

  function Stored(w: Word, bigEndian: bool): (b: seq<Byte>)
    ensures |b| == 4 && Word4(b, bigEndian) == w
  {
    var b := ToBytes(w);
    WordReadsBack(w);
    FourBytes(b);
    FourBytes([b[3], b[2], b[1], b[0]]);
    if bigEndian then b else [b[3], b[2], b[1], b[0]]
  }

  /** Two words, one after the other. */
  function StoredPair(first: Word, second: Word, bigEndian: bool): (b: seq<Byte>)
    ensures |b| == BLOCK
  {
    Stored(first, bigEndian) + Stored(second, bigEndian)
  }

  lemma PairReadsBack(b: seq<Byte>, at: nat, first: Word, second: Word, bigEndian: bool)
    requires at + 8 <= |b| && BlockAt(b, at) == StoredPair(first, second, bigEndian)
    ensures WordAt(b, at, bigEndian) == first && WordAt(b, at + 4, bigEndian) == second
  {
    var block := BlockAt(b, at);
    assert FourAt(b, at) == block[..4] == Stored(first, bigEndian);
    assert FourAt(b, at + 4) == block[4..] == Stored(second, bigEndian);
  }

  /** A page size in two bytes: 1 stands for the largest. */
  function SizeBytes(size: nat, bigEndian: bool): (b: seq<Byte>)
    requires 512 <= size <= 65536
    ensures |b| == 2
  {
    var stored := if size == 65536 then 1 else size;
    if bigEndian then [stored / 0x100, stored % 0x100] else [stored % 0x100, stored / 0x100]
  }

  lemma SizeReadsBack(shm: seq<Byte>, size: nat, bigEndian: bool)
    requires |shm| >= INDEX_HEADER && 512 <= size <= 65536 && [shm[14], shm[15]] == SizeBytes(size, bigEndian)
    ensures StoredSize(shm, bigEndian) == size
  {
    BigEndianGrows([], shm[14]);
    BigEndianGrows([shm[14]], shm[15]);
    LittleEndianGrows(shm[15], []);
    LittleEndianGrows(shm[14], [shm[15]]);
    assert [] + [shm[14]] == [shm[14]] && [shm[14]] + [shm[15]] == [shm[14], shm[15]];
    assert [shm[15]] + [] == [shm[15]];
  }

  /** What an index says of the last commit. */
  datatype Commit = Commit(frames: Word, pages: Word, size: nat, parity: Byte, sum: Sum, salt: seq<Byte>)

  predicate Storable(c: Commit) {
    512 <= c.size <= 65536 && |c.salt| == BLOCK
  }

  /** The second block: a counter of changes, the mark of initialization, and the page size. */
  function MarkBlock(c: Commit, change: Word, bigEndian: bool): (b: seq<Byte>)
    requires Storable(c)
    ensures |b| == BLOCK
  {
    Stored(change, bigEndian) + [1, c.parity] + SizeBytes(c.size, bigEndian)
  }

  function IndexStart(c: Commit, change: Word, bigEndian: bool): (b: seq<Byte>)
    requires Storable(c)
    ensures |b| == 40 && Aligned(|b|)
  {
    AlignedIsMultiple(40);
    StoredPair(FORMAT_VERSION, 0, bigEndian) + MarkBlock(c, change, bigEndian) +
    StoredPair(c.frames, c.pages, bigEndian) + StoredPair(c.sum.first, c.sum.second, bigEndian) + c.salt
  }

  function IndexHeader(c: Commit, change: Word, bigEndian: bool): (b: seq<Byte>)
    requires Storable(c)
    ensures |b| == INDEX_HEADER
  {
    var start := IndexStart(c, change, bigEndian);
    var sum := Checksum(BlockMixer(bigEndian), start, Sum(0, 0));
    start + StoredPair(sum.first, sum.second, bigEndian)
  }

  /** Both copies of the header. */
  function IndexBytes(c: Commit, change: Word, bigEndian: bool): (shm: seq<Byte>)
    requires Storable(c)
    ensures |shm| == 2 * INDEX_HEADER
  {
    IndexHeader(c, change, bigEndian) + IndexHeader(c, change, bigEndian)
  }

  lemma SixBlocks(a: seq<Byte>, b: seq<Byte>, c: seq<Byte>, d: seq<Byte>, e: seq<Byte>, f: seq<Byte>, rest: seq<Byte>)
    requires |a| == |b| == |c| == |d| == |e| == |f| == BLOCK
    ensures var all := a + b + c + d + e + f + rest;
      && BlockAt(all, 0) == a && BlockAt(all, 8) == b && BlockAt(all, 16) == c
      && BlockAt(all, 24) == d && all[32..40] == e && BlockAt(all, 40) == f
      && all[..40] == a + b + c + d + e
  {
  }

  /** The blocks of a header as they are laid out, with the sum of the first five after them. */
  ghost predicate LaidOut(shm: seq<Byte>, c: Commit, change: Word, bigEndian: bool)
    requires Storable(c)
  {
    var start := IndexStart(c, change, bigEndian);
    var sum := Checksum(BlockMixer(bigEndian), start, Sum(0, 0));
    && |shm| >= INDEX_HEADER && shm[..40] == start && shm[32..40] == c.salt
    && BlockAt(shm, 0) == StoredPair(FORMAT_VERSION, 0, bigEndian)
    && BlockAt(shm, 8) == MarkBlock(c, change, bigEndian)
    && BlockAt(shm, 16) == StoredPair(c.frames, c.pages, bigEndian)
    && BlockAt(shm, 24) == StoredPair(c.sum.first, c.sum.second, bigEndian)
    && BlockAt(shm, 40) == StoredPair(sum.first, sum.second, bigEndian)
  }

  lemma IndexIsLaidOut(c: Commit, change: Word, bigEndian: bool)
    requires Storable(c)
    ensures LaidOut(IndexBytes(c, change, bigEndian), c, change, bigEndian)
  {
    hide Checksum, BlockMixer, StoredPair, MarkBlock, Aligned;
    var start := IndexStart(c, change, bigEndian);
    var sum := Checksum(BlockMixer(bigEndian), start, Sum(0, 0));
    SixBlocks(StoredPair(FORMAT_VERSION, 0, bigEndian), MarkBlock(c, change, bigEndian),
      StoredPair(c.frames, c.pages, bigEndian), StoredPair(c.sum.first, c.sum.second, bigEndian), c.salt,
      StoredPair(sum.first, sum.second, bigEndian), IndexHeader(c, change, bigEndian));
  }

  /** What a header says of the last commit, read in one order. */
  predicate Says(shm: seq<Byte>, c: Commit, bigEndian: bool)
    requires |shm| >= INDEX_HEADER
  {
    && WordAt(shm, 16, bigEndian) == c.frames && WordAt(shm, 20, bigEndian) == c.pages
    && WordAt(shm, 24, bigEndian) == c.sum.first && WordAt(shm, 28, bigEndian) == c.sum.second
    && StoredSize(shm, bigEndian) == c.size && shm[13] == c.parity && shm[32..40] == c.salt
  }

  lemma LaidOutSays(shm: seq<Byte>, c: Commit, change: Word, bigEndian: bool)
    requires Storable(c) && LaidOut(shm, c, change, bigEndian)
    ensures Says(shm, c, bigEndian) && shm[12] == 1
  {
    hide WordAt, StoredPair, IndexStart, Checksum, BlockMixer, StoredSize;
    PairReadsBack(shm, 16, c.frames, c.pages, bigEndian);
    PairReadsBack(shm, 24, c.sum.first, c.sum.second, bigEndian);
    var mark := BlockAt(shm, 8);
    assert mark[4] == 1 && mark[5] == c.parity && [mark[6], mark[7]] == SizeBytes(c.size, bigEndian);
    SizeReadsBack(shm, c.size, bigEndian);
  }

  lemma LaidOutSums(shm: seq<Byte>, c: Commit, change: Word, bigEndian: bool)
    requires Storable(c) && LaidOut(shm, c, change, bigEndian)
    ensures WordAt(shm, 0, bigEndian) == FORMAT_VERSION && IndexOrder(shm) == bigEndian && SumStored(shm, bigEndian)
  {
    hide WordAt, StoredPair, IndexStart, Checksum, BlockMixer;
    var sum := Checksum(BlockMixer(bigEndian), shm[..40], Sum(0, 0));
    PairReadsBack(shm, 0, FORMAT_VERSION, 0, bigEndian);
    PairReadsBack(shm, 40, sum.first, sum.second, bigEndian);
    var k, m := BothReadings(shm, 0);
  }

  /** An index reads back as what was written, in the order it was written in. */
  lemma IndexReadsBack(c: Commit, change: Word, bigEndian: bool)
    requires Storable(c)
    ensures var shm := IndexBytes(c, change, bigEndian);
      && HeadersAgree(shm) && IndexOrder(shm) == bigEndian && WordAt(shm, 0, bigEndian) == FORMAT_VERSION
      && SumStored(shm, bigEndian) && Says(shm, c, bigEndian)
  {
    hide IndexHeader, LaidOut, Says, WordAt, SumStored, IndexOrder;
    var shm := IndexBytes(c, change, bigEndian);
    IndexIsLaidOut(c, change, bigEndian);
    LaidOutSays(shm, c, change, bigEndian);
    LaidOutSums(shm, c, change, bigEndian);
  }

  // ---------------------------------------------------------------------- what it corroborates

  /** An index that says what a log holds as its last commit finds no fault with it. */
  lemma SaidIsCorroborated(main: seq<Byte>, log: Option<seq<Byte>>, image: Image, shm: seq<Byte>, c: Commit)
    requires Rebuild(main, BytesOf(log)) == Rebuilt(image) && c.frames == image.committedFrames
    requires HeadersAgree(shm) && WordAt(shm, 0, IndexOrder(shm)) == FORMAT_VERSION && SumStored(shm, IndexOrder(shm))
    requires Says(shm, c, IndexOrder(shm)) && HoldsCommit(image, log)
    requires image.committedFrames > 0 ==> IsLastCommit(c, image, log)
    ensures Recover(main, log, Some(shm)) == Rebuilt(image)
  {
  }

  /** The last committed frame of a log, with the generation it belongs to. */
  predicate IsLastCommit(c: Commit, image: Image, log: Option<seq<Byte>>)
    requires HoldsCommit(image, log) && image.committedFrames > 0
  {
    var size := PageSize(image.bytes).size;
    var frame := Extent(image.committedFrames - 1, size);
    && log.Some? && frame + FRAME_HEADER <= |log.value| && c.size == size
    && c.pages == PageCount(|image.bytes|, size)
    && c.parity == WordAt(log.value, 0, true) % 2 && c.salt == log.value[16..24]
    && c.sum.first == WordAt(log.value, frame + 16, true) && c.sum.second == WordAt(log.value, frame + 20, true)
  }

  lemma LastCommit(main: seq<Byte>, log: Option<seq<Byte>>, image: Image) returns (c: Commit)
    requires Rebuild(main, BytesOf(log)) == Rebuilt(image) && 0 < image.committedFrames < WORD_LIMIT
    ensures Storable(c) && c.frames == image.committedFrames
    ensures HoldsCommit(image, log) && IsLastCommit(c, image, log)
  {
    hide Rebuild, FaithfulImage, PageCount, PageSize;
    RebuiltHoldsCommit(main, log, image);
    CommitNeedsLog(main, log, image);
    var wal, size := BytesOf(log), PageSize(image.bytes).size;
    ExtentOfOneMore(image.committedFrames, size);
    var frame := Extent(image.committedFrames - 1, size);
    var pages := NamedByCommit(main, wal, image, size);
    c := Commit(image.committedFrames, pages, size, WordAt(wal, 0, true) % 2,
      Sum(WordAt(wal, frame + 16, true), WordAt(wal, frame + 20, true)), wal[16..24]);
  }

  lemma CommitNeedsLog(main: seq<Byte>, log: Option<seq<Byte>>, image: Image)
    requires Rebuild(main, BytesOf(log)) == Rebuilt(image) && image.committedFrames > 0
    ensures log.Some?
  {
  }

  lemma NamedByCommit(main: seq<Byte>, wal: seq<Byte>, image: Image, size: nat) returns (pages: Word)
    requires Rebuild(main, wal) == Rebuilt(image) && image.committedFrames > 0 && PageSize(image.bytes) == Size(size)
    ensures pages == PageCount(|image.bytes|, size)
  {
    hide Rebuild, FramesOf, PageSize, Committed, PageCount, Whole, PageOf, Supplied;
    RebuiltImage(main, wal);
    pages := FramesOf(main, wal)[..image.committedFrames][image.committedFrames - 1].commit;
  }

  /** Whatever a log rebuilds, some index corroborates it, written in either order. */
  lemma EveryImageHasAnIndex(
    main: seq<Byte>, log: Option<seq<Byte>>, image: Image, change: Word, bigEndian: bool
  ) returns (shm: seq<Byte>)
    requires Rebuild(main, BytesOf(log)) == Rebuilt(image) && image.committedFrames < WORD_LIMIT
    ensures Recover(main, log, Some(shm)) == Rebuilt(image) && IndexOrder(shm) == bigEndian
  {
    hide Rebuild, HeadersAgree, WordAt, SumStored, Says, Recover, IndexOrder, PageSize, IndexBytes;
    RebuiltHoldsCommit(main, log, image);
    var c := Commit(0, 0, 512, 0, Sum(0, 0), Zeros(BLOCK));
    if image.committedFrames > 0 { c := LastCommit(main, log, image); }
    shm := IndexBytes(c, change, bigEndian);
    IndexReadsBack(c, change, bigEndian);
    SaidIsCorroborated(main, log, image, shm, c);
  }

  lemma WrongFault(image: Image, log: Option<seq<Byte>>, shm: seq<Byte>, c: Commit)
    requires HoldsCommit(image, log)
    requires HeadersAgree(shm) && WordAt(shm, 0, IndexOrder(shm)) == FORMAT_VERSION && SumStored(shm, IndexOrder(shm))
    requires Says(shm, c, IndexOrder(shm))
    requires c.frames != image.committedFrames || (image.committedFrames > 0 && !IsLastCommit(c, image, log))
    ensures IndexFault(image, log, Some(shm)).Some?
  {
    hide PageSize, PageCount, StoredSize, WordAt, SumStored, IndexOrder, Extent;
    if image.committedFrames > 0 {
      ExtentOfOneMore(image.committedFrames, PageSize(image.bytes).size);
    }
  }

  lemma SaidWrong(main: seq<Byte>, log: Option<seq<Byte>>, image: Image, shm: seq<Byte>, c: Commit)
    requires Rebuild(main, BytesOf(log)) == Rebuilt(image) && HoldsCommit(image, log)
    requires HeadersAgree(shm) && WordAt(shm, 0, IndexOrder(shm)) == FORMAT_VERSION && SumStored(shm, IndexOrder(shm))
    requires Says(shm, c, IndexOrder(shm))
    requires c.frames != image.committedFrames || (image.committedFrames > 0 && !IsLastCommit(c, image, log))
    ensures Recover(main, log, Some(shm)).Invalid?
  {
    hide Rebuild, IndexFault, HeadersAgree, WordAt, SumStored, Says, IndexOrder, IsLastCommit, HoldsCommit;
    WrongFault(image, log, shm, c);
  }

  /**
   * An index with valid headers is accepted exactly when it names the number of committed frames and,
   * if there are any, the pages and the page size of the image, the parity and the salt of the log, and
   * the sum stored with the last of them.
   */
  lemma IndexAcceptedExactlyWhen(
    main: seq<Byte>, log: Option<seq<Byte>>, image: Image, c: Commit, change: Word, bigEndian: bool
  )
    requires Rebuild(main, BytesOf(log)) == Rebuilt(image) && Storable(c)
    ensures HoldsCommit(image, log)
    ensures Recover(main, log, Some(IndexBytes(c, change, bigEndian))).Rebuilt? <==>
      c.frames == image.committedFrames && (image.committedFrames > 0 ==> IsLastCommit(c, image, log))
  {
    hide Rebuild, HeadersAgree, WordAt, SumStored, Says, Recover, IndexOrder, PageSize, IndexBytes, IsLastCommit;
    RebuiltHoldsCommit(main, log, image);
    IndexReadsBack(c, change, bigEndian);
    var shm := IndexBytes(c, change, bigEndian);
    if c.frames == image.committedFrames && (image.committedFrames > 0 ==> IsLastCommit(c, image, log)) {
      SaidIsCorroborated(main, log, image, shm, c);
    } else {
      SaidWrong(main, log, image, shm, c);
    }
  }

  /** A one-page database, a log that commits a change to its page, and an index that acknowledges it. */
  lemma CommitIsRecovered(salt: seq<Byte>, bigEndian: bool) returns (wal: seq<Byte>, shm: seq<Byte>)
    requires |salt| == BLOCK
    ensures |FramesOf(OnePage(0), wal)| == 1
    ensures Recover(OnePage(0), Some(wal), Some(shm)) == Rebuilt(Image(OnePage(1), 1, 1, 0))
  {
    wal := OneCommit(salt);
    shm := EveryImageHasAnIndex(OnePage(0), Some(wal), Image(OnePage(1), 1, 1, 0), 0, bigEndian);
  }
}
