/**
 * Writing a write-ahead log as the format lays it out, the inverse of reading one: the log of any
 * frames reads back as those frames.
 */
module WalWriter {
  import opened Bytes
  import opened WalChecksum
  import opened WalReconstruction
  import opened WalTheorems

  /** A word, most significant byte first. */
  function ToBytes(w: Word): (b: seq<Byte>)
    ensures |b| == 4
  {
    var high := w / 0x1_0000;
    var low := w % 0x1_0000;
    [high / 0x100, high % 0x100, low / 0x100, low % 0x100]
  }

  lemma WordReadsBack(w: Word)
    ensures Word4(ToBytes(w), true) == w
  {
    FourBytes(ToBytes(w));
  }

  function SumBytes(sum: Sum): (b: seq<Byte>)
    ensures |b| == BLOCK
  {
    ToBytes(sum.first) + ToBytes(sum.second)
  }

  lemma WordsReadBack(b: seq<Byte>, at: nat, first: Word, second: Word)
    requires at + 8 <= |b| && BlockAt(b, at) == ToBytes(first) + ToBytes(second)
    ensures WordAt(b, at, true) == first && WordAt(b, at + 4, true) == second
  {
    var block := BlockAt(b, at);
    assert FourAt(b, at) == block[..4] == ToBytes(first);
    assert FourAt(b, at + 4) == block[4..] == ToBytes(second);
    WordReadsBack(first);
    WordReadsBack(second);
  }

  // ---------------------------------------------------------------------------- a frame

  /** A frame that the format can hold. */
  predicate Writable(f: Frame, size: nat) {
    0 < f.page <= LAST_PAGE && f.commit < WORD_LIMIT && |f.data| == size
  }

  function FirstBlock(f: Frame, size: nat): (b: seq<Byte>)
    requires Writable(f, size)
    ensures |b| == BLOCK
  {
    ToBytes(f.page) + ToBytes(f.commit)
  }

  function SumAfter(f: Frame, size: nat, mix: Mixer, sum: Sum): Sum
    requires Aligned(size) && Writable(f, size)
  {
    FrameSum(FirstBlock(f, size), f.data, mix, sum)
  }

  /** The frame's page and commit, the salt of its generation, and the sum up to and with it. */
  function FrameHeader(f: Frame, size: nat, mix: Mixer, salt: seq<Byte>, sum: Sum): (b: seq<Byte>)
    requires Aligned(size) && Writable(f, size) && |salt| == BLOCK
    ensures |b| == FRAME_HEADER
  {
    FirstBlock(f, size) + salt + SumBytes(SumAfter(f, size, mix, sum))
  }

  lemma HeaderBlocks(first: seq<Byte>, salt: seq<Byte>, sum: seq<Byte>)
    requires |first| == |salt| == |sum| == BLOCK
    ensures var header := first + salt + sum;
      BlockAt(header, 0) == first && header[8..16] == salt && BlockAt(header, 16) == sum
  {
  }

  /** A written frame is taken as it was written, whatever comes after it. */
  lemma FrameReadsBack(
    f: Frame, size: nat, mix: Mixer, salt: seq<Byte>, sum: Sum, rest: seq<Byte>
  )
    requires Aligned(size) && Writable(f, size) && |salt| == BLOCK
    ensures NextFrame(FrameHeader(f, size, mix, salt, sum) + f.data + rest, size, mix, salt, sum) ==
      More(f, SumAfter(f, size, mix, sum))
  {
    var header, sum' := FrameHeader(f, size, mix, salt, sum), SumAfter(f, size, mix, sum);
    HeaderBlocks(FirstBlock(f, size), salt, SumBytes(sum'));
    WordsReadBack(header, 0, f.page, f.commit);
    WordsReadBack(header, 16, sum'.first, sum'.second);
    Parted(header, f.data, rest);
    assert CheckFrame(header, f.data, mix, sum) == More(f, sum');
  }

  lemma Parted(header: seq<Byte>, data: seq<Byte>, rest: seq<Byte>)
    ensures var all := header + data + rest;
      && all[..|header|] == header && all[|header|..|header| + |data|] == data && all[|header| + |data|..] == rest
  {
  }

  // ---------------------------------------------------------------------------- a log

  predicate AllWritable(frames: seq<Frame>, size: nat) {
    forall i :: 0 <= i < |frames| ==> Writable(frames[i], size)
  }

  function FramesBytes(frames: seq<Frame>, size: nat, mix: Mixer, salt: seq<Byte>, sum: Sum): seq<Byte>
    requires Aligned(size) && AllWritable(frames, size) && |salt| == BLOCK
  {
    if frames == [] then [] else
      var f := frames[0];
      FrameHeader(f, size, mix, salt, sum) + f.data +
      FramesBytes(frames[1..], size, mix, salt, SumAfter(f, size, mix, sum))
  }

  lemma {:induction false} FramesReadBack(frames: seq<Frame>, size: nat, mix: Mixer, salt: seq<Byte>, sum: Sum)
    requires Aligned(size) && AllWritable(frames, size) && |salt| == BLOCK
    requires Takes(FrameReader(size, mix, salt), FRAME_HEADER + size)
    ensures var rest := FramesBytes(frames, size, mix, salt, sum);
      ReadLog(FrameReader(size, mix, salt), FRAME_HEADER + size, rest, sum) == Log(frames, 0)
  {
    if frames != [] {
      var f := frames[0];
      var sum' := SumAfter(f, size, mix, sum);
      var rest := FramesBytes(frames[1..], size, mix, salt, sum');
      FramesReadBack(frames[1..], size, mix, salt, sum');
      FrameReadsBack(f, size, mix, salt, sum, rest);
      Parted(FrameHeader(f, size, mix, salt, sum), f.data, rest);
      assert [f] + frames[1..] == frames;
    }
  }

  /** The words a log starts with. */
  function HeaderStart(bigEndian: bool, size: Word, sequence: Word, salt: seq<Byte>): (b: seq<Byte>)
    requires |salt| == BLOCK
    ensures |b| == 24 && Aligned(|b|)
  {
    assert Aligned(24);
    ToBytes(if bigEndian then BIG_ENDIAN_MAGIC else LITTLE_ENDIAN_MAGIC) + ToBytes(FORMAT_VERSION) +
    (ToBytes(size) + ToBytes(sequence)) + salt
  }

  function LogHeader(bigEndian: bool, size: Word, sequence: Word, salt: seq<Byte>): (b: seq<Byte>)
    requires |salt| == BLOCK
    ensures |b| == LOG_HEADER
  {
    var start := HeaderStart(bigEndian, size, sequence, salt);
    start + SumBytes(Checksum(BlockMixer(bigEndian), start, Sum(0, 0)))
  }

  lemma HeaderReadsBack(bigEndian: bool, size: Word, sequence: Word, salt: seq<Byte>)
    requires |salt| == BLOCK
    ensures ReadHeader(LogHeader(bigEndian, size, sequence, salt), size) == Header(
      bigEndian, salt, Checksum(BlockMixer(bigEndian), HeaderStart(bigEndian, size, sequence, salt), Sum(0, 0))
    )
  {
    var start, wal := HeaderStart(bigEndian, size, sequence, salt), LogHeader(bigEndian, size, sequence, salt);
    var magic := if bigEndian then BIG_ENDIAN_MAGIC else LITTLE_ENDIAN_MAGIC;
    var sum := Checksum(BlockMixer(bigEndian), start, Sum(0, 0));
    assert wal[..24] == start && wal[16..24] == salt && BlockAt(wal, 24) == SumBytes(sum);
    assert BlockAt(wal, 0) == ToBytes(magic) + ToBytes(FORMAT_VERSION);
    assert BlockAt(wal, 8) == ToBytes(size) + ToBytes(sequence);
    WordsReadBack(wal, 0, magic, FORMAT_VERSION);
    WordsReadBack(wal, 8, size, sequence);
    WordsReadBack(wal, 24, sum.first, sum.second);
  }

  function LogBytes(bigEndian: bool, size: Word, sequence: Word, salt: seq<Byte>, frames: seq<Frame>): (wal: seq<Byte>)
    requires Aligned(size) && |salt| == BLOCK && AllWritable(frames, size)
    ensures |wal| >= LOG_HEADER
  {
    var mix := BlockMixer(bigEndian);
    var sum := Checksum(mix, HeaderStart(bigEndian, size, sequence, salt), Sum(0, 0));
    LogHeader(bigEndian, size, sequence, salt) + FramesBytes(frames, size, mix, salt, sum)
  }

  /** A log written as the format lays it out is read as the frames written, in either byte order. */
  lemma LogReadsBack(
    main: seq<Byte>, size: Word, bigEndian: bool, sequence: Word, salt: seq<Byte>, frames: seq<Frame>
  )
    requires PageSize(main) == Size(size) && |salt| == BLOCK && AllWritable(frames, size)
    ensures var wal := LogBytes(bigEndian, size, sequence, salt, frames);
      && FramesOf(main, wal) == frames
      && Rebuild(main, wal) == ApplyLog(main, size, frames, 0)
      && |wal| == Extent(|frames|, size)
  {
    var wal, mix := LogBytes(bigEndian, size, sequence, salt, frames), BlockMixer(bigEndian);
    var header := LogHeader(bigEndian, size, sequence, salt);
    HeaderReadsBack(bigEndian, size, sequence, salt);
    var h := ReadHeader(header, size);
    var rest := FramesBytes(frames, size, mix, salt, h.sum);
    Parted(header, rest, []);
    HeaderAlone(header, rest, wal, size);
    RebuildFrom(main, wal, size, h);
    FrameReaderTakes(size, mix, salt);
    FramesReadBack(frames, size, mix, salt, h.sum);
    FramesLength(frames, size, mix, salt, h.sum);
  }

  lemma HeaderAlone(header: seq<Byte>, rest: seq<Byte>, wal: seq<Byte>, size: nat)
    requires |header| == LOG_HEADER && wal == header + rest
    ensures ReadHeader(wal, size) == ReadHeader(header, size) && wal[LOG_HEADER..] == rest
  {
    assert wal[..LOG_HEADER] == header == header[..LOG_HEADER];
    SharedHeader(header, wal, size);
  }

  lemma {:induction false} FramesLength(frames: seq<Frame>, size: nat, mix: Mixer, salt: seq<Byte>, sum: Sum)
    requires Aligned(size) && AllWritable(frames, size) && |salt| == BLOCK
    ensures |FramesBytes(frames, size, mix, salt, sum)| == Offset(|frames|, FRAME_HEADER + size)
  {
    if frames != [] { FramesLength(frames[1..], size, mix, salt, SumAfter(frames[0], size, mix, sum)); }
  }

  // ------------------------------------------------------------- a change that is accepted

  lemma NoFramesApplied(main: seq<Byte>, size: nat, frames: seq<Frame>, stale: nat)
    requires size > 0 && frames == []
    ensures ApplyLog(main, size, frames, stale) == Rebuilt(Image(main, 0, 0, stale))
  {
  }

  /** With another salt in its first frame, any log is accepted, and nothing of it is kept. */
  lemma FirstSaltChanged(main: seq<Byte>, size: nat, wal: seq<Byte>, other: seq<Byte>)
    requires PageSize(main) == Size(size) && FramesOf(main, wal) != [] && OneBlockApart(wal, other, LOG_HEADER + 8)
    ensures Rebuild(main, other) == Rebuilt(Image(main, 0, 0, |wal| - LOG_HEADER))
  {
    hide PageSize, ReadHeader, FramesOf, Rebuild, ApplyLog, OneBlockApart;
    ChangedSaltReads(main, size, wal, other, 0, LOG_HEADER);
    NoFramesApplied(main, size, FramesOf(main, wal)[..0], |wal| - LOG_HEADER);
  }

  /** The smallest main file: one page of 512 bytes, the last of them given. */
  function OnePage(last: Byte): (main: seq<Byte>)
    ensures |main| == 512 && main[511] == last
  {
    MAIN_HEADER + [2, 0] + Zeros(493) + [last]
  }

  lemma OnePageIsReadable(last: Byte)
    ensures PageSize(OnePage(last)) == Size(512)
  {
    var main := OnePage(last);
    assert forall i :: 0 <= i < |MAIN_HEADER| ==> main[i] == MAIN_HEADER[i];
    assert main[16] == 2 && main[17] == 0;
    assert BigEndian([2, 0]) == 512 by { assert [2, 0][..1] == [2] && BigEndian([2]) == 2; }
    assert PowerOfTwo(512) by {
      assert PowerOfTwo(2) && PowerOfTwo(4) && PowerOfTwo(8) && PowerOfTwo(16) && PowerOfTwo(32) && PowerOfTwo(64);
      assert PowerOfTwo(128) && PowerOfTwo(256);
    }
    assert Whole(512, 512);
  }

  lemma OnePageReplaced(main: seq<Byte>, f: Frame, size: nat)
    requires PageSize(main) == Size(size) && PageSize(f.data) == Size(size) && |main| == |f.data| == size
    requires f.page == 1 && f.commit == 1
    ensures ApplyLog(main, size, [f], 0) == Rebuilt(Image(f.data, 1, 1, 0))
  {
    assert PageCount(|main|, size) == 1;
    assert [f][..1] == [f];
    assert PageOf(main, size, [f], 1) == f.data;
    assert Assemble(main, size, [f], 0) == [];
    assert Assemble(main, size, [f], 1) == f.data;
  }

  /** The same bytes with another block in place. */
  lemma BlockReplaced(a: seq<Byte>, at: nat, block: seq<Byte>) returns (b: seq<Byte>)
    requires at + BLOCK <= |a| && |block| == BLOCK && a[at..at + BLOCK] != block
    ensures OneBlockApart(a, b, at) && b[at..at + BLOCK] == block
  {
    b := a[..at] + block + a[at + BLOCK..];
    assert b[..at] == a[..at] && b[at + BLOCK..] == a[at + BLOCK..] && b[at..at + BLOCK] == block;
  }

  lemma SaltOfFirstFrame(frames: seq<Frame>, size: nat, mix: Mixer, salt: seq<Byte>, sum: Sum)
    requires Aligned(size) && AllWritable(frames, size) && |salt| == BLOCK && frames != []
    ensures var rest := FramesBytes(frames, size, mix, salt, sum);
      |rest| >= FRAME_HEADER && rest[8..16] == salt
  {
    var f := frames[0];
    var header, rest := FrameHeader(f, size, mix, salt, sum), FramesBytes(frames, size, mix, salt, sum);
    HeaderBlocks(FirstBlock(f, size), salt, SumBytes(SumAfter(f, size, mix, sum)));
    Parted(header, f.data, FramesBytes(frames[1..], size, mix, salt, SumAfter(f, size, mix, sum)));
    assert rest[8..16] == rest[..FRAME_HEADER][8..16];
  }

  lemma SaltOfLog(bigEndian: bool, size: Word, sequence: Word, salt: seq<Byte>, frames: seq<Frame>)
    requires Aligned(size) && |salt| == BLOCK && AllWritable(frames, size) && frames != []
    ensures var wal := LogBytes(bigEndian, size, sequence, salt, frames);
      |wal| >= LOG_HEADER + 16 && wal[LOG_HEADER + 8..LOG_HEADER + 16] == salt
  {
    var mix, header := BlockMixer(bigEndian), LogHeader(bigEndian, size, sequence, salt);
    var sum := Checksum(mix, HeaderStart(bigEndian, size, sequence, salt), Sum(0, 0));
    var rest := FramesBytes(frames, size, mix, salt, sum);
    SaltOfFirstFrame(frames, size, mix, salt, sum);
    assert (header + rest)[LOG_HEADER + 8..LOG_HEADER + 16] == rest[8..16];
  }

  /** The log of a one-page database that commits a change to its page. */
  lemma OneCommit(salt: seq<Byte>) returns (wal: seq<Byte>)
    requires |salt| == BLOCK
    ensures PageSize(OnePage(0)) == Size(512) && |FramesOf(OnePage(0), wal)| == 1
    ensures |wal| >= LOG_HEADER + 16 && wal[LOG_HEADER + 8..LOG_HEADER + 16] == salt
    ensures Rebuild(OnePage(0), wal) == Rebuilt(Image(OnePage(1), 1, 1, 0))
  {
    hide OnePage, PageSize, FramesOf, Rebuild, ApplyLog, LogBytes;
    var f := Frame(1, 1, OnePage(1));
    OnePageIsReadable(0);
    OnePageIsReadable(1);
    OnePageReplaced(OnePage(0), f, 512);
    wal := LogBytes(true, 512, 0, salt, [f]);
    LogReadsBack(OnePage(0), 512, true, 0, salt, [f]);
    SaltOfLog(true, 512, 0, salt, [f]);
  }

  /**
   * A one-page database whose log commits a change to its page: with another salt in the frame the
   * log is still accepted, and the change is gone.
   */
  lemma ChangedSaltIsAccepted(salt: seq<Byte>, salt': seq<Byte>) returns (wal: seq<Byte>, other: seq<Byte>)
    requires |salt| == |salt'| == BLOCK && salt != salt'
    ensures OneBlockApart(wal, other, LOG_HEADER + 8)
    ensures Rebuild(OnePage(0), wal) == Rebuilt(Image(OnePage(1), 1, 1, 0))
    ensures Rebuild(OnePage(0), other) == Rebuilt(Image(OnePage(0), 0, 0, |wal| - LOG_HEADER))
    ensures OnePage(0) != OnePage(1)
  {
    hide PageSize, FramesOf, Rebuild, ApplyLog;
    wal := OneCommit(salt);
    other := BlockReplaced(wal, LOG_HEADER + 8, salt');
    FirstSaltChanged(OnePage(0), 512, wal, other);
    assert OnePage(0)[511] != OnePage(1)[511];
  }
}
