/**
 * Rebuilding a SQLite database image from a main file and its write-ahead log: sections
 * 4.1 and 4.4 of the SQLite Database File Format.
 */
module WalReconstruction {
  import opened Bytes
  import opened WalChecksum

  const LOG_HEADER: nat := 32
  const FRAME_HEADER: nat := 24
  const LITTLE_ENDIAN_MAGIC: Word := 0x377f0682
  const BIG_ENDIAN_MAGIC: Word := 0x377f0683
  const FORMAT_VERSION: Word := 3007000
  const LAST_PAGE: Word := 0xfffffffe

  /** SQLite format 3, and a terminating zero. */
  const MAIN_HEADER: seq<Byte> :=
    [0x53, 0x51, 0x4c, 0x69, 0x74, 0x65, 0x20, 0x66, 0x6f, 0x72, 0x6d, 0x61, 0x74, 0x20, 0x33, 0x00]

  datatype Fault =
    | BadMainHeader | BadPageLayout
    | TruncatedHeader | UnsupportedHeader | HeaderChecksum
    | IncompleteFrameHeader | IncompleteFrame | BadPageIdentity | FrameChecksum
    | PagesWithoutSource | MissingPage | PageSizeChanged
    | StaleSuffix | IndexHeadersDisagree | UnsupportedIndex | IndexChecksum
    | CommitNotCovered | OtherGeneration | CommitChecksum

  // ------------------------------------------------------------------------ pages

  /** Where page k + 1 starts. */
  function Offset(k: nat, size: nat): nat {
    if k == 0 then 0 else Offset(k - 1, size) + size
  }

  lemma {:induction false} OffsetIsProduct(k: nat, size: nat)
    ensures Offset(k, size) == k * size
  {
    if k > 0 { OffsetIsProduct(k - 1, size); }
  }

  lemma {:induction false} OffsetGrows(j: nat, k: nat, size: nat)
    requires j <= k
    ensures Offset(j, size) <= Offset(k, size)
    ensures j < k ==> Offset(j, size) + size <= Offset(k, size)
  {
    if j < k { OffsetGrows(j, k - 1, size); }
  }

  function PageCount(bytes: nat, size: nat): nat
    requires size > 0
  {
    if bytes < size then 0 else 1 + PageCount(bytes - size, size)
  }

  /** A whole number of pages. */
  predicate Whole(bytes: nat, size: nat)
    requires size > 0
  {
    bytes == 0 || (bytes >= size && Whole(bytes - size, size))
  }

  lemma {:induction false} WholePages(bytes: nat, size: nat)
    requires size > 0 && Whole(bytes, size)
    ensures Offset(PageCount(bytes, size), size) == bytes
  {
    if bytes != 0 { WholePages(bytes - size, size); }
  }

  lemma {:induction false} CountOfPages(k: nat, size: nat)
    requires size > 0
    ensures Whole(Offset(k, size), size) && PageCount(Offset(k, size), size) == k
  {
    if k > 0 { CountOfPages(k - 1, size); }
  }

  predicate PowerOfTwo(n: nat) {
    n == 1 || (n != 0 && n % 2 == 0 && PowerOfTwo(n / 2))
  }

  lemma LargePowerIsAligned(n: nat)
    requires PowerOfTwo(n) && n >= 512
    ensures Aligned(n)
  {
    assert PowerOfTwo(n / 2) && PowerOfTwo(n / 4) && PowerOfTwo(n / 8);
    AlignedIsMultiple(n);
  }

  datatype Sized = NoSize(fault: Fault) | Size(size: nat)

  predicate HasMainHeader(bytes: seq<Byte>)
    requires |bytes| >= |MAIN_HEADER|
  {
    forall i {:trigger MAIN_HEADER[i]} :: 0 <= i < |MAIN_HEADER| ==> bytes[i] == MAIN_HEADER[i]
  }

  function PageSize(bytes: seq<Byte>): (r: Sized)
    ensures r.Size? ==> 512 <= r.size <= 65536 && Aligned(r.size) && Whole(|bytes|, r.size) && |bytes| >= 100
  {
    if |bytes| < 100 || !HasMainHeader(bytes) then NoSize(BadMainHeader) else
      var stored: int := BigEndian([bytes[16], bytes[17]]);
      var size: int := if stored == 1 then 65536 else stored;
      if size < 512 || size > 65536 || !PowerOfTwo(size) || !Whole(|bytes|, size) then NoSize(BadPageLayout) else
        LargePowerIsAligned(size);
        Size(size)
  }

  // ---------------------------------------------------------------------- the log

  datatype Header = BadHeader(fault: Fault) | Header(bigEndian: bool, salt: seq<Byte>, sum: Sum)

  predicate Matches(bytes: seq<Byte>, at: nat, sum: Sum)
    requires at + 8 <= |bytes|
  {
    WordAt(bytes, at, true) == sum.first && WordAt(bytes, at + 4, true) == sum.second
  }

  predicate SupportedMagic(magic: Word) {
    magic == LITTLE_ENDIAN_MAGIC || magic == BIG_ENDIAN_MAGIC
  }

  function ReadHeader(wal: seq<Byte>, size: nat): (h: Header)
    ensures h.Header? ==> |wal| >= LOG_HEADER
  {
    if |wal| < LOG_HEADER then BadHeader(TruncatedHeader) else
      var magic := WordAt(wal, 0, true);
      if !SupportedMagic(magic) || WordAt(wal, 4, true) != FORMAT_VERSION || WordAt(wal, 8, true) != size then
        BadHeader(UnsupportedHeader)
      else
        var bigEndian := magic == BIG_ENDIAN_MAGIC;
        var sum := Checksum(BlockMixer(bigEndian), wal[..24], Sum(0, 0));
        if !Matches(wal, 24, sum) then BadHeader(HeaderChecksum) else Header(bigEndian, wal[16..24], sum)
  }

  /** A page written to the log; a commit names the size of the database after it, in pages. */
  datatype Frame = Frame(page: Word, commit: Word, data: seq<Byte>)

  datatype Log = BadLog(fault: Fault) | Log(frames: seq<Frame>, stale: nat)

  /** The checksum carried past one frame: the first block of its header, then its page. */
  function FrameSum(first: seq<Byte>, data: seq<Byte>, mix: Mixer, sum: Sum): Sum
    requires |first| == BLOCK && Aligned(|data|)
  {
    assert Aligned(BLOCK);
    Checksum(mix, data, Checksum(mix, first, sum))
  }

  predicate SoundFrame(f: Frame, size: nat) {
    0 < f.page <= LAST_PAGE && |f.data| == size
  }

  datatype Next = Ends(log: Log) | More(frame: Frame, sum: Sum)

  /** What is next in the log: a frame of the current generation, or its end. */
  function NextFrame(rest: seq<Byte>, size: nat, mix: Mixer, salt: seq<Byte>, sum: Sum): (next: Next)
    requires Aligned(size)
    ensures next.More? ==> |rest| >= FRAME_HEADER + size && SoundFrame(next.frame, size)
    ensures next.Ends? && next.log.Log? ==> next.log.frames == []
  {
    if rest == [] then Ends(Log([], 0))
    else if |rest| < FRAME_HEADER then Ends(BadLog(IncompleteFrameHeader))
    else
      var header := rest[..FRAME_HEADER];
      if header[8..16] != salt then Ends(Log([], |rest|))
      else if |rest| < FRAME_HEADER + size then Ends(BadLog(IncompleteFrame))
      else
        var data := rest[FRAME_HEADER..FRAME_HEADER + size];
        assert |data| == size;
        CheckFrame(header, data, mix, sum)
  }

  /** A whole frame of the current generation: taken, or found faulty. */
  function CheckFrame(header: seq<Byte>, data: seq<Byte>, mix: Mixer, sum: Sum): (next: Next)
    requires |header| == FRAME_HEADER && Aligned(|data|)
    ensures next.More? ==> SoundFrame(next.frame, |data|)
    ensures next.Ends? ==> next.log.BadLog?
  {
    var frame := Frame(WordAt(header, 0, true), WordAt(header, 4, true), data);
    var sum' := FrameSum(BlockAt(header, 0), data, mix, sum);
    if frame.page == 0 || frame.page > LAST_PAGE then Ends(BadLog(BadPageIdentity))
    else if !Matches(header, 16, sum') then Ends(BadLog(FrameChecksum))
    else More(frame, sum')
  }

  type Reader = (seq<Byte>, Sum) -> Next

  /** What a reader of frames of width w may do: take a whole frame, or end the log. */
  ghost predicate Takes(next: Reader, w: nat) {
    w > 0 && forall rest, sum :: var n := next(rest, sum);
      && (n.More? ==> |rest| >= w)
      && (n.Ends? && n.log.Log? ==> n.log.frames == [])
      && (rest == [] ==> n == Ends(Log([], 0)))
  }

  /** The frames of the current generation, as far as the reader takes them. */
  function ReadLog(next: Reader, w: nat, rest: seq<Byte>, sum: Sum): (log: Log)
    requires Takes(next, w)
    decreases |rest|
  {
    match next(rest, sum)
    case Ends(log) => log
    case More(frame, sum') => Prepend([frame], ReadLog(next, w, rest[w..], sum'))
  }

  function FrameReader(size: nat, mix: Mixer, salt: seq<Byte>): Reader
    requires Aligned(size)
  {
    (rest, sum) => NextFrame(rest, size, mix, salt, sum)
  }

  lemma FrameReaderTakes(size: nat, mix: Mixer, salt: seq<Byte>)
    requires Aligned(size)
    ensures Takes(FrameReader(size, mix, salt), FRAME_HEADER + size)
    ensures TakesSound(FrameReader(size, mix, salt), size)
  {
    var next := FrameReader(size, mix, salt);
    forall rest, sum
      ensures next(rest, sum) == NextFrame(rest, size, mix, salt, sum)
    {
    }
  }

  /** The log after a header that was read. */
  function CurrentLog(size: nat, mix: Mixer, h: Header, rest: seq<Byte>): Log
    requires Aligned(size) && h.Header?
  {
    FrameReaderTakes(size, mix, h.salt);
    ReadLog(FrameReader(size, mix, h.salt), FRAME_HEADER + size, rest, h.sum)
  }

  function Prepend(frames: seq<Frame>, log: Log): Log {
    match log
    case BadLog(_) => log
    case Log(more, stale) => Log(frames + more, stale)
  }

  ghost predicate AllSound(frames: seq<Frame>, size: nat) {
    forall i :: 0 <= i < |frames| ==> SoundFrame(frames[i], size)
  }

  ghost predicate TakesSound(next: Reader, size: nat) {
    forall rest, sum :: next(rest, sum).More? ==> SoundFrame(next(rest, sum).frame, size)
  }

  lemma {:induction false} ReadsSound(next: Reader, w: nat, rest: seq<Byte>, sum: Sum, size: nat)
    requires Takes(next, w) && TakesSound(next, size)
    ensures var log := ReadLog(next, w, rest, sum);
      log.Log? ==> AllSound(log.frames, size)
    decreases |rest|
  {
    var n := next(rest, sum);
    if n.More? {
      ReadsSound(next, w, rest[w..], n.sum, size);
      FrontSound(n.frame, ReadLog(next, w, rest[w..], n.sum), size);
    }
  }

  lemma LogIsSound(size: nat, mix: Mixer, h: Header, rest: seq<Byte>)
    requires Aligned(size) && h.Header?
    ensures CurrentLog(size, mix, h, rest).Log? ==> AllSound(CurrentLog(size, mix, h, rest).frames, size)
  {
    FrameReaderTakes(size, mix, h.salt);
    ReadsSound(FrameReader(size, mix, h.salt), FRAME_HEADER + size, rest, h.sum, size);
  }

  lemma FrontSound(frame: Frame, more: Log, size: nat)
    requires SoundFrame(frame, size) && (more.Log? ==> AllSound(more.frames, size))
    ensures var log := Prepend([frame], more);
      log.Log? ==> AllSound(log.frames, size)
  {
  }

  /** How many frames there are up to the last commit. */
  function Committed(frames: seq<Frame>): (n: nat)
    ensures n <= |frames| && (n > 0 ==> frames[n - 1].commit != 0)
  {
    if frames == [] then 0
    else if frames[|frames| - 1].commit != 0 then |frames|
    else Committed(frames[..|frames| - 1])
  }

  // -------------------------------------------------------------------- the image

  function Zeros(n: nat): (z: seq<Byte>)
    ensures |z| == n
  {
    seq(n, _ => 0)
  }

  function MainPage(main: seq<Byte>, size: nat, p: nat): seq<Byte>
    requires 0 < p && size > 0
  {
    if Offset(p, size) <= |main| then main[Offset(p - 1, size)..Offset(p, size)] else Zeros(size)
  }

  /** The last frame for a page, else the main file's page. */
  function PageOf(main: seq<Byte>, size: nat, frames: seq<Frame>, p: nat): seq<Byte>
    requires 0 < p && size > 0
  {
    if frames == [] then MainPage(main, size, p)
    else if frames[|frames| - 1].page == p then frames[|frames| - 1].data
    else PageOf(main, size, frames[..|frames| - 1], p)
  }

  function Assemble(main: seq<Byte>, size: nat, frames: seq<Frame>, pages: nat): seq<Byte>
    requires size > 0
  {
    if pages == 0 then [] else Assemble(main, size, frames, pages - 1) + PageOf(main, size, frames, pages)
  }

  predicate Supplied(frames: seq<Frame>, p: nat) {
    exists i :: 0 <= i < |frames| && frames[i].page == p
  }

  predicate LeavesMissing(frames: seq<Frame>, from: nat, to: nat) {
    exists p :: from < p <= to && !Supplied(frames, p)
  }

  datatype Image = Image(bytes: seq<Byte>, frames: nat, committedFrames: nat, staleSuffixBytes: nat)

  datatype Result = Invalid(fault: Fault) | Rebuilt(image: Image)

  function ApplyLog(main: seq<Byte>, size: nat, frames: seq<Frame>, stale: nat): Result
    requires size > 0
  {
    var n := Committed(frames);
    if n == 0 then Rebuilt(Image(main, |frames|, 0, stale)) else
      var pages := frames[n - 1].commit;
      var mainPages := PageCount(|main|, size);
      if pages > mainPages + n then Invalid(PagesWithoutSource)
      else if LeavesMissing(frames[..n], mainPages, pages) then Invalid(MissingPage)
      else
        var bytes := Assemble(main, size, frames[..n], pages);
        match PageSize(bytes)
        case NoSize(fault) => Invalid(fault)
        case Size(s) => if s != size then Invalid(PageSizeChanged) else Rebuilt(Image(bytes, |frames|, n, stale))
  }

  /** What the frames after a readable header make of the main file. */
  function RebuildWith(main: seq<Byte>, size: nat, mix: Mixer, h: Header, rest: seq<Byte>): Result
    requires size > 0 && Aligned(size) && h.Header?
  {
    match CurrentLog(size, mix, h, rest)
    case BadLog(fault) => Invalid(fault)
    case Log(frames, stale) => ApplyLog(main, size, frames, stale)
  }

  function Rebuild(main: seq<Byte>, wal: seq<Byte>): Result {
    match PageSize(main)
    case NoSize(fault) => Invalid(fault)
    case Size(size) =>
      if wal == [] then Rebuilt(Image(main, 0, 0, 0)) else
        var h := ReadHeader(wal, size);
        if h.BadHeader? then Invalid(h.fault)
        else RebuildWith(main, size, BlockMixer(h.bigEndian), h, wal[LOG_HEADER..])
  }

  // -------------------------------------------------------------------- the loops

  lemma PrependTwice(a: seq<Frame>, b: seq<Frame>, log: Log)
    ensures Prepend(a, Prepend(b, log)) == Prepend(a + b, log)
  {
    if log.Log? { assert a + (b + log.frames) == a + b + log.frames; }
  }

  lemma CommittedGrows(frames: seq<Frame>, f: Frame)
    ensures Committed(frames + [f]) == if f.commit != 0 then |frames| + 1 else Committed(frames)
  {
    assert (frames + [f])[..|frames|] == frames;
  }

  /** The size named by the last commit, if there is one. */
  predicate NamesSize(frames: seq<Frame>, committed: nat, pages: nat, mainPages: nat) {
    committed == Committed(frames) && pages == if committed == 0 then mainPages else frames[committed - 1].commit
  }

  lemma RestOf(wal: seq<Byte>, offset: nat, from: nat, to: nat)
    requires offset + to <= |wal| && from <= to
    ensures wal[offset..][from..to] == wal[offset + from..offset + to]
    ensures wal[offset..][to..] == wal[offset + to..]
  {
  }

  lemma StartOf(wal: seq<Byte>, offset: nat, to: nat)
    requires offset + to <= |wal|
    ensures wal[offset..][..to] == wal[offset..offset + to]
    ensures wal[offset..][to..] == wal[offset + to..]
  {
  }

  /** The frames so far, and what is left to read, make up the whole log. */
  ghost predicate Continues(next: Reader, w: nat, rest: seq<Byte>, sum: Sum, frames: seq<Frame>, whole: Log)
    requires Takes(next, w)
  {
    whole == Prepend(frames, ReadLog(next, w, rest, sum))
  }

  lemma OneMoreFrame(next: Reader, w: nat, rest: seq<Byte>, sum: Sum, frames: seq<Frame>, whole: Log)
    requires Takes(next, w) && Continues(next, w, rest, sum, frames, whole)
    ensures var n := next(rest, sum);
      && (n.Ends? ==> whole == Prepend(frames, n.log))
      && (n.More? ==> Continues(next, w, rest[w..], n.sum, frames + [n.frame], whole))
  {
    var n := next(rest, sum);
    if n.More? { PrependTwice(frames, [n.frame], ReadLog(next, w, rest[w..], n.sum)); }
  }

  lemma LogBegins(next: Reader, w: nat, rest: seq<Byte>, sum: Sum)
    requires Takes(next, w)
    ensures Continues(next, w, rest, sum, [], ReadLog(next, w, rest, sum))
  {
    var log := ReadLog(next, w, rest, sum);
    if log.Log? { assert [] + log.frames == log.frames; }
  }

  lemma PrependsNoFrames(frames: seq<Frame>, end: Log)
    requires end.Log? ==> end.frames == []
    ensures Prepend(frames, end).Log? ==> Prepend(frames, end).frames == frames
  {
    assert frames + [] == frames;
  }

  lemma LogEnds(next: Reader, w: nat, sum: Sum, frames: seq<Frame>, whole: Log)
    requires Takes(next, w) && Continues(next, w, [], sum, frames, whole)
    ensures whole == Log(frames, 0)
  {
    assert next([], sum) == Ends(Log([], 0));
    assert frames + [] == frames;
  }

  /** What comes next in a log, in terms of the log's own offsets. */
  lemma NextFrameAt(wal: seq<Byte>, offset: nat, size: nat, mix: Mixer, salt: seq<Byte>, prior: Sum)
    requires Aligned(size) && offset < |wal|
    ensures var next := NextFrame(wal[offset..], size, mix, salt, prior); var left := |wal| - offset;
      if left < FRAME_HEADER then next == Ends(BadLog(IncompleteFrameHeader))
      else if wal[offset + 8..offset + 16] != salt then next == Ends(Log([], left))
      else if left < FRAME_HEADER + size then next == Ends(BadLog(IncompleteFrame))
      else
        var data := wal[offset + FRAME_HEADER..offset + FRAME_HEADER + size];
        Aligned(|data|) && next == CheckFrame(wal[offset..offset + FRAME_HEADER], data, mix, prior)
  {
    var rest := wal[offset..];
    if |rest| >= FRAME_HEADER {
      StartOf(wal, offset, FRAME_HEADER);
      SliceWithin(wal, offset, offset + FRAME_HEADER, 8, 16);
      if |rest| >= FRAME_HEADER + size {
        RestOf(wal, offset, FRAME_HEADER, FRAME_HEADER + size);
        assert |rest[FRAME_HEADER..FRAME_HEADER + size]| == size;
      }
    }
  }

  /** The frame at the given offset, or how the log ends there. */
  method ReadFrame(wal: seq<Byte>, offset: nat, size: nat, bigEndian: bool, salt: seq<Byte>, prior: Sum)
    returns (next: Next)
    requires Aligned(size) && offset < |wal|
    ensures next == NextFrame(wal[offset..], size, BlockMixer(bigEndian), salt, prior)
  {
    hide NextFrame, WordAt, Checksum, StepBlock;
    NextFrameAt(wal, offset, size, BlockMixer(bigEndian), salt, prior);
    if |wal| - offset < FRAME_HEADER { return Ends(BadLog(IncompleteFrameHeader)); }
    if wal[offset + 8..offset + 16] != salt { return Ends(Log([], |wal| - offset)); }
    if |wal| - offset < FRAME_HEADER + size { return Ends(BadLog(IncompleteFrame)); }
    var data := wal[offset + FRAME_HEADER..offset + FRAME_HEADER + size];
    HeaderWords(wal, offset);
    var page := WordAt(wal, offset, true);
    if page == 0 || page > LAST_PAGE { return Ends(BadLog(BadPageIdentity)); }
    assert Aligned(BLOCK);
    var sum := ComputeChecksum(BlockAt(wal, offset), bigEndian, prior);
    sum := ComputeChecksum(data, bigEndian, sum);
    if !Matches(wal, offset + 16, sum) { return Ends(BadLog(FrameChecksum)); }
    next := More(Frame(page, WordAt(wal, offset + 4, true), data), sum);
  }

  lemma HeaderWords(wal: seq<Byte>, offset: nat)
    requires offset + FRAME_HEADER <= |wal|
    ensures var header := wal[offset..offset + FRAME_HEADER];
      && BlockAt(header, 0) == BlockAt(wal, offset)
      && WordAt(header, 0, true) == WordAt(wal, offset, true)
      && WordAt(header, 4, true) == WordAt(wal, offset + 4, true)
      && WordAt(header, 16, true) == WordAt(wal, offset + 16, true)
      && WordAt(header, 20, true) == WordAt(wal, offset + 20, true)
  {
  }

  /** What the loop has read before an offset: the frames, the last commit among them, and the sum. */
  datatype Reading = Reading(offset: nat, sum: Sum, frames: seq<Frame>, committedFrames: nat, pages: nat)

  ghost predicate Reads(next: Reader, w: nat, wal: seq<Byte>, mainPages: nat, r: Reading, whole: Log)
    requires Takes(next, w)
  {
    && r.offset <= |wal|
    && Continues(next, w, wal[r.offset..], r.sum, r.frames, whole)
    && NamesSize(r.frames, r.committedFrames, r.pages, mainPages)
  }

  lemma LastCommitNamed(frames: seq<Frame>, f: Frame, committed: nat, pages: nat, mainPages: nat)
    requires NamesSize(frames, committed, pages, mainPages)
    ensures f.commit == 0 ==> NamesSize(frames + [f], committed, pages, mainPages)
    ensures f.commit != 0 ==> NamesSize(frames + [f], |frames + [f]|, f.commit, mainPages)
  {
    CommittedGrows(frames, f);
  }

  ghost function Extended(r: Reading, frame: Frame, sum: Sum, w: nat): Reading {
    var n := |r.frames| + 1;
    if frame.commit != 0 then Reading(r.offset + w, sum, r.frames + [frame], n, frame.commit)
    else Reading(r.offset + w, sum, r.frames + [frame], r.committedFrames, r.pages)
  }

  lemma FrameTaken(next: Reader, w: nat, wal: seq<Byte>, mainPages: nat, r: Reading, whole: Log)
    requires Takes(next, w) && Reads(next, w, wal, mainPages, r, whole)
    ensures var n := next(wal[r.offset..], r.sum);
      && (n.More? ==> Reads(next, w, wal, mainPages, Extended(r, n.frame, n.sum, w), whole))
      && (n.Ends? ==> whole == Prepend(r.frames, n.log) && (whole.Log? ==> whole.frames == r.frames))
  {
    var rest := wal[r.offset..];
    var n := next(rest, r.sum);
    OneMoreFrame(next, w, rest, r.sum, r.frames, whole);
    if n.More? {
      StartOf(wal, r.offset, w);
      LastCommitNamed(r.frames, n.frame, r.committedFrames, r.pages, mainPages);
    } else {
      PrependsNoFrames(r.frames, n.log);
    }
  }

  method ReadNext(
    ghost reader: Reader, wal: seq<Byte>, offset: nat, size: nat, bigEndian: bool, salt: seq<Byte>, prior: Sum
  )
    returns (next: Next)
    requires Aligned(size) && offset < |wal|
    requires reader == FrameReader(size, BlockMixer(bigEndian), salt)
    ensures next == reader(wal[offset..], prior)
  {
    next := ReadFrame(wal, offset, size, bigEndian, salt, prior);
  }

  method Extend(r: Reading, frame: Frame, sum: Sum, width: nat) returns (next: Reading)
    ensures next == Extended(r, frame, sum, width)
  {
    var frames, committedFrames, pages := r.frames + [frame], r.committedFrames, r.pages;
    if frame.commit != 0 {
      pages := frame.commit;
      committedFrames := |frames|;
    }
    next := Reading(r.offset + width, sum, frames, committedFrames, pages);
  }

  /** One turn of the loop: a frame more, or the whole log. */
  method AdvanceLog(
    ghost reader: Reader, wal: seq<Byte>, size: nat, bigEndian: bool, salt: seq<Byte>, ghost mainPages: nat, r: Reading,
    ghost whole: Log
  )
    returns (next: Reading, ended: bool, log: Log)
    requires Aligned(size) && r.offset < |wal|
    requires reader == FrameReader(size, BlockMixer(bigEndian), salt) && Takes(reader, FRAME_HEADER + size)
    requires Reads(reader, FRAME_HEADER + size, wal, mainPages, r, whole)
    ensures ended ==> next == r && log == whole && (whole.Log? ==> whole.frames == r.frames)
    ensures !ended ==> next.offset > r.offset && Reads(reader, FRAME_HEADER + size, wal, mainPages, next, whole)
  {
    hide FrameReader, Takes, Reads, NextFrame, Aligned;
    var read := ReadNext(reader, wal, r.offset, size, bigEndian, salt, r.sum);
    FrameTaken(reader, FRAME_HEADER + size, wal, mainPages, r, whole);
    if read.Ends? { return r, true, Prepend(r.frames, read.log); }
    next := Extend(r, read.frame, read.sum, FRAME_HEADER + size);
    ended, log := false, Log([], 0);
  }

  method ReadFrames(wal: seq<Byte>, size: nat, h: Header, mainPages: nat)
    returns (log: Log, committedFrames: nat, pages: nat)
    requires Aligned(size) && |wal| >= LOG_HEADER && h.Header?
    ensures log == CurrentLog(size, BlockMixer(h.bigEndian), h, wal[LOG_HEADER..])
    ensures log.Log? ==> NamesSize(log.frames, committedFrames, pages, mainPages)
  {
    ghost var mix := BlockMixer(h.bigEndian);
    ghost var reader := FrameReader(size, mix, h.salt);
    FrameReaderTakes(size, mix, h.salt);
    ghost var whole := CurrentLog(size, mix, h, wal[LOG_HEADER..]);
    var r := Reading(LOG_HEADER, h.sum, [], 0, mainPages);
    LogBegins(reader, FRAME_HEADER + size, wal[LOG_HEADER..], h.sum);
    while r.offset < |wal|
      invariant Reads(reader, FRAME_HEADER + size, wal, mainPages, r, whole)
      decreases |wal| - r.offset
    {
      var ended;
      r, ended, log := AdvanceLog(reader, wal, size, h.bigEndian, h.salt, mainPages, r, whole);
      if ended { return log, r.committedFrames, r.pages; }
    }
    assert wal[r.offset..] == [];
    LogEnds(reader, FRAME_HEADER + size, r.sum, r.frames, whole);
    return Log(r.frames, 0), r.committedFrames, r.pages;
  }
}
