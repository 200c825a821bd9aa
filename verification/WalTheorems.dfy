/** What a rebuilt image holds, and which changes to a log are noticed. */
module WalTheorems {
  import opened Bytes
  import opened WalChecksum
  import opened WalReconstruction
  import opened WalByteOrder
  import opened WalImage

  // ------------------------------------------------------------------- the last write wins

  ghost predicate LastFrameFor(frames: seq<Frame>, p: nat, i: nat) {
    i < |frames| && frames[i].page == p && forall j :: i < j < |frames| ==> frames[j].page != p
  }

  /** A page is the last committed write to it, else what the main file holds. */
  lemma {:induction false} PageOrigin(main: seq<Byte>, size: nat, frames: seq<Frame>, p: nat) returns (i: nat)
    requires 0 < p && size > 0
    ensures Supplied(frames, p) ==> LastFrameFor(frames, p, i) && PageOf(main, size, frames, p) == frames[i].data
    ensures !Supplied(frames, p) ==> PageOf(main, size, frames, p) == MainPage(main, size, p)
  {
    i := 0;
    if frames != [] {
      var n := |frames| - 1;
      if frames[n].page == p {
        i := n;
      } else {
        i := PageOrigin(main, size, frames[..n], p);
        assert frames == frames[..n] + [frames[n]];
        SuppliedGrows(frames[..n], frames[n]);
      }
    }
  }

  /** The current frames of a readable log. */
  ghost function FramesOf(main: seq<Byte>, wal: seq<Byte>): seq<Frame> {
    match PageSize(main)
    case NoSize(_) => []
    case Size(size) =>
      if wal == [] || ReadHeader(wal, size).BadHeader? then []
      else
        var h := ReadHeader(wal, size);
        FramesAfter(size, BlockMixer(h.bigEndian), h, wal[LOG_HEADER..])
  }

  ghost function FramesAfter(size: nat, mix: Mixer, h: Header, rest: seq<Byte>): seq<Frame>
    requires Aligned(size) && h.Header?
  {
    match CurrentLog(size, mix, h, rest)
    case BadLog(_) => []
    case Log(frames, _) => frames
  }

  /** How many pages the last of some committed frames names; the main file's, if there are none. */
  function NamedPages(main: seq<Byte>, size: nat, frames: seq<Frame>): nat
    requires size > 0
  {
    if frames == [] then PageCount(|main|, size) else frames[|frames| - 1].commit
  }

  ghost predicate FaithfulImage(main: seq<Byte>, size: nat, frames: seq<Frame>, bytes: seq<Byte>)
    requires size > 0
  {
    var pages := PageCount(|bytes|, size);
    && Whole(|bytes|, size)
    && pages == NamedPages(main, size, frames)
    && |bytes| <= |main| + |frames| * size
    && (forall p :: 0 < p <= pages ==> PageAt(bytes, size, p, PageOf(main, size, frames, p)))
    && (forall p :: PageCount(|main|, size) < p <= pages ==> Supplied(frames, p))
  }

  lemma AppliedImage(main: seq<Byte>, size: nat, frames: seq<Frame>, stale: nat)
    requires PageSize(main) == Size(size) && AllSound(frames, size) && ApplyLog(main, size, frames, stale).Rebuilt?
    ensures var image := ApplyLog(main, size, frames, stale).image;
      && FaithfulImage(main, size, frames[..image.committedFrames], image.bytes)
      && PageSize(image.bytes) == Size(size)
  {
    var n := Committed(frames);
    WholePages(|main|, size);
    var mainPages := PageCount(|main|, size);
    if n == 0 {
      UntouchedImage(main, size, frames[..n], mainPages);
    } else {
      AssembledImage(main, size, frames[..n], mainPages, frames[n - 1].commit);
    }
  }

  lemma UntouchedImage(main: seq<Byte>, size: nat, none: seq<Frame>, mainPages: nat)
    requires size > 0 && |main| == Offset(mainPages, size) && mainPages == PageCount(|main|, size) && none == []
    ensures FaithfulImage(main, size, none, main)
  {
    FreshImage(main, size, mainPages, mainPages);
    AssembledImage(main, size, none, mainPages, mainPages);
  }

  lemma AssembledImage(main: seq<Byte>, size: nat, frames: seq<Frame>, mainPages: nat, pages: nat)
    requires size > 0 && |main| == Offset(mainPages, size) && mainPages == PageCount(|main|, size)
    requires AllSound(frames, size) && pages == NamedPages(main, size, frames)
    requires pages <= mainPages + |frames| && !LeavesMissing(frames, mainPages, pages)
    ensures FaithfulImage(main, size, frames, Assemble(main, size, frames, pages))
  {
    AssembleLength(main, size, frames, pages);
    CountOfPages(pages, size);
    WithinBound(mainPages, |frames|, pages, size);
    forall p | 0 < p <= pages
      ensures PageAt(Assemble(main, size, frames, pages), size, p, PageOf(main, size, frames, p))
    {
      AssembledPage(main, size, frames, pages, p);
    }
  }

  lemma WithinBound(mainPages: nat, n: nat, pages: nat, size: nat)
    requires pages <= mainPages + n
    ensures Offset(pages, size) <= Offset(mainPages, size) + n * size
  {
    OffsetGrows(pages, mainPages + n, size);
    OffsetIsProduct(mainPages + n, size);
    OffsetIsProduct(mainPages, size);
  }

  /**
   * An accepted image keeps the page size and has as many pages as its last commit names, or the
   * main file if nothing is committed. It is no larger than the main file and the committed frames
   * together, and holds for every page the last committed write or the main file's page; a page
   * past the main file's last is always a committed one.
   */
  lemma RebuiltImage(main: seq<Byte>, wal: seq<Byte>)
    requires Rebuild(main, wal).Rebuilt?
    ensures var image := Rebuild(main, wal).image; var size := PageSize(main);
      && size.Size? && PageSize(image.bytes) == size
      && image.frames == |FramesOf(main, wal)|
      && image.committedFrames == Committed(FramesOf(main, wal))
      && FaithfulImage(main, size.size, FramesOf(main, wal)[..image.committedFrames], image.bytes)
  {
    var size := PageSize(main).size;
    if wal == [] {
      assert ApplyLog(main, size, [], 0) == Rebuild(main, wal);
      AppliedImage(main, size, [], 0);
    } else {
      RebuiltAfter(main, size, BlockMixer(ReadHeader(wal, size).bigEndian), ReadHeader(wal, size), wal[LOG_HEADER..]);
    }
  }

  lemma RebuiltAfter(main: seq<Byte>, size: nat, mix: Mixer, h: Header, rest: seq<Byte>)
    requires PageSize(main) == Size(size) && h.Header? && RebuildWith(main, size, mix, h, rest).Rebuilt?
    ensures var image := RebuildWith(main, size, mix, h, rest).image; var frames := FramesAfter(size, mix, h, rest);
      && PageSize(image.bytes) == Size(size) && image.frames == |frames|
      && image.committedFrames == Committed(frames)
      && FaithfulImage(main, size, frames[..image.committedFrames], image.bytes)
  {
    var log := CurrentLog(size, mix, h, rest);
    LogIsSound(size, mix, h, rest);
    AppliedImage(main, size, log.frames, log.stale);
  }

  // -------------------------------------------------------------- what is not committed

  lemma SamePrefixSameHeader(wal: seq<Byte>, n: nat, size: nat)
    requires LOG_HEADER <= n <= |wal|
    ensures ReadHeader(wal[..n], size) == ReadHeader(wal, size)
  {
    assert wal[..n][..24] == wal[..24] && wal[..n][16..24] == wal[16..24];
  }

  lemma SameFrame(rest: seq<Byte>, other: seq<Byte>, size: nat, mix: Mixer, salt: seq<Byte>, sum: Sum)
    requires Aligned(size) && |rest| >= FRAME_HEADER + size && |other| >= FRAME_HEADER + size
    requires rest[..FRAME_HEADER + size] == other[..FRAME_HEADER + size]
    requires NextFrame(rest, size, mix, salt, sum).More?
    ensures NextFrame(rest, size, mix, salt, sum) == NextFrame(other, size, mix, salt, sum)
  {
    SharedPrefix(rest, other, FRAME_HEADER + size, FRAME_HEADER);
    SharedSlice(rest, other, FRAME_HEADER + size, FRAME_HEADER, FRAME_HEADER + size);
  }

  /** A reader that, when it takes a frame, looks only at that frame. */
  ghost predicate LooksAtFrame(next: Reader, w: nat) {
    forall rest, other, sum {:trigger next(rest, sum), next(other, sum)} ::
      next(rest, sum).More? && w <= |rest| && w <= |other| && rest[..w] == other[..w] ==>
        next(other, sum) == next(rest, sum)
  }

  lemma FrameReaderLooksAtFrame(size: nat, mix: Mixer, salt: seq<Byte>)
    requires Aligned(size)
    ensures LooksAtFrame(FrameReader(size, mix, salt), FRAME_HEADER + size)
  {
    var next, w := FrameReader(size, mix, salt), FRAME_HEADER + size;
    forall rest, other, sum | next(rest, sum).More? && w <= |rest| && w <= |other| && rest[..w] == other[..w]
      ensures next(other, sum) == next(rest, sum)
    {
      SameFrame(rest, other, size, mix, salt, sum);
    }
  }

  /** A log cut after its first k frames reads as those frames. */
  lemma {:induction false} TruncateLog(next: Reader, w: nat, rest: seq<Byte>, sum: Sum, k: nat)
    requires Takes(next, w) && LooksAtFrame(next, w)
    requires ReadLog(next, w, rest, sum).Log? && k <= |ReadLog(next, w, rest, sum).frames|
    ensures Offset(k, w) <= |rest|
    ensures ReadLog(next, w, rest[..Offset(k, w)], sum) == Log(ReadLog(next, w, rest, sum).frames[..k], 0)
    decreases k
  {
    var log := ReadLog(next, w, rest, sum);
    if k == 0 {
      assert rest[..0] == [] && log.frames[..0] == [];
    } else {
      var n := next(rest, sum);
      var more := ReadLog(next, w, rest[w..], n.sum);
      TruncateLog(next, w, rest[w..], n.sum, k - 1);
      CutRest(rest, w, Offset(k - 1, w));
      assert next(rest[..Offset(k, w)], sum) == n;
      assert ([n.frame] + more.frames)[..k] == [n.frame] + more.frames[..k - 1];
    }
  }

  lemma CutRest(rest: seq<Byte>, w: nat, n: nat)
    requires w + n <= |rest|
    ensures rest[..w + n][w..] == rest[w..][..n] && rest[..w + n][..w] == rest[..w]
  {
  }

  lemma {:induction false} CommittedPrefixOfFrames(frames: seq<Frame>)
    ensures Committed(frames[..Committed(frames)]) == Committed(frames)
  {
    if frames != [] && frames[|frames| - 1].commit == 0 {
      var front := frames[..|frames| - 1];
      CommittedPrefixOfFrames(front);
      assert frames[..Committed(frames)] == front[..Committed(front)];
    } else {
      assert frames[..|frames|] == frames;
    }
  }

  lemma AppliedPrefix(main: seq<Byte>, size: nat, frames: seq<Frame>, stale: nat)
    requires size > 0 && ApplyLog(main, size, frames, stale).Rebuilt?
    ensures var image := ApplyLog(main, size, frames, stale).image; var n := image.committedFrames;
      n <= |frames| && ApplyLog(main, size, frames[..n], 0) == Rebuilt(Image(image.bytes, n, n, 0))
  {
    CommittedPrefixOfFrames(frames);
    var n := Committed(frames);
    assert frames[..n][..n] == frames[..n];
  }

  lemma RebuildFrom(main: seq<Byte>, wal: seq<Byte>, size: nat, h: Header)
    requires PageSize(main) == Size(size) && wal != [] && ReadHeader(wal, size) == h && h.Header?
    ensures Rebuild(main, wal) == RebuildWith(main, size, BlockMixer(h.bigEndian), h, wal[LOG_HEADER..])
    ensures FramesOf(main, wal) == FramesAfter(size, BlockMixer(h.bigEndian), h, wal[LOG_HEADER..])
  {
  }

  /** Where n frames of a log end. */
  function Extent(n: nat, size: nat): nat {
    LOG_HEADER + Offset(n, FRAME_HEADER + size)
  }

  /** Frames after the last commit, and a stale suffix, have no effect: the log may as well end there. */
  lemma UncommittedHasNoEffect(main: seq<Byte>, size: nat, wal: seq<Byte>, image: Image)
    requires PageSize(main) == Size(size) && wal != [] && Rebuild(main, wal) == Rebuilt(image)
    ensures Extent(image.committedFrames, size) <= |wal|
    ensures Rebuild(main, wal[..Extent(image.committedFrames, size)]) ==
      Rebuilt(Image(image.bytes, image.committedFrames, image.committedFrames, 0))
  {
    hide PageSize, ReadHeader, ApplyLog, CurrentLog, Aligned;
    var h := ReadHeader(wal, size);
    RebuiltHasHeader(main, wal, size);
    PrefixRebuilds(main, size, BlockMixer(h.bigEndian), h, wal[LOG_HEADER..]);
    var n := Offset(image.committedFrames, FRAME_HEADER + size);
    SamePrefixSameHeader(wal, LOG_HEADER + n, size);
    CutRest(wal, LOG_HEADER, n);
    RebuildFrom(main, wal[..LOG_HEADER + n], size, h);
  }

  lemma PrefixRebuilds(main: seq<Byte>, size: nat, mix: Mixer, h: Header, rest: seq<Byte>)
    requires size > 0 && Aligned(size) && h.Header? && RebuildWith(main, size, mix, h, rest).Rebuilt?
    ensures var image := RebuildWith(main, size, mix, h, rest).image; var n := image.committedFrames;
      && Offset(n, FRAME_HEADER + size) <= |rest|
      && RebuildWith(main, size, mix, h, rest[..Offset(n, FRAME_HEADER + size)]) == Rebuilt(Image(image.bytes, n, n, 0))
  {
    var log := CurrentLog(size, mix, h, rest);
    AppliedPrefix(main, size, log.frames, log.stale);
    TruncateCurrent(size, mix, h, rest, Committed(log.frames));
  }

  lemma TruncateCurrent(size: nat, mix: Mixer, h: Header, rest: seq<Byte>, k: nat)
    requires Aligned(size) && h.Header? && CurrentLog(size, mix, h, rest).Log?
    requires k <= |CurrentLog(size, mix, h, rest).frames|
    ensures var n := Offset(k, FRAME_HEADER + size);
      n <= |rest| && CurrentLog(size, mix, h, rest[..n]) == Log(CurrentLog(size, mix, h, rest).frames[..k], 0)
  {
    hide NextFrame, Aligned, Takes, LooksAtFrame, FrameReader;
    FrameReaderTakes(size, mix, h.salt);
    FrameReaderLooksAtFrame(size, mix, h.salt);
    TruncateLog(FrameReader(size, mix, h.salt), FRAME_HEADER + size, rest, h.sum, k);
  }

  /** Two accepted logs that share their committed frames rebuild the same image. */
  lemma CommittedFramesDecide(main: seq<Byte>, size: nat, wal: seq<Byte>, other: seq<Byte>, a: Image, b: Image)
    requires PageSize(main) == Size(size) && wal != [] && other != []
    requires Rebuild(main, wal) == Rebuilt(a) && Rebuild(main, other) == Rebuilt(b)
    requires var n := Extent(a.committedFrames, size);
      n <= |wal| && n <= |other| && wal[..n] == other[..n] && a.committedFrames == b.committedFrames
    ensures a.bytes == b.bytes
  {
    UncommittedHasNoEffect(main, size, wal, a);
    UncommittedHasNoEffect(main, size, other, b);
  }

  // ------------------------------------------------------------------------- one block changed

  /** Two sums, each stored at the same offset, are equal exactly when the bytes there are. */
  lemma MatchesOnce(bytes: seq<Byte>, other: seq<Byte>, at: nat, sum: Sum, sum': Sum)
    requires at + 8 <= |bytes| && at + 8 <= |other| && Matches(bytes, at, sum) && Matches(other, at, sum')
    ensures sum == sum' <==> BlockAt(bytes, at) == BlockAt(other, at)
  {
    var a, b := BlockAt(bytes, at), BlockAt(other, at);
    assert a == FourAt(bytes, at) + FourAt(bytes, at + 4) && b == FourAt(other, at) + FourAt(other, at + 4);
    assert FourAt(bytes, at) == FourAt(a, 0) && FourAt(bytes, at + 4) == FourAt(a, 4);
    assert FourAt(other, at) == FourAt(b, 0) && FourAt(other, at + 4) == FourAt(b, 4);
    if sum == sum' {
      WordIsItsBytes(FourAt(bytes, at), FourAt(other, at), true);
      WordIsItsBytes(FourAt(bytes, at + 4), FourAt(other, at + 4), true);
    }
  }

  lemma FirstBlockSeen(first: seq<Byte>, other: seq<Byte>, data: seq<Byte>, mix: Mixer, sum: Sum)
    requires Injective(mix) && Aligned(|data|) && |first| == |other| == BLOCK && first != other
    ensures FrameSum(first, data, mix, sum) != FrameSum(other, data, mix, sum)
  {
    hide Injective;
    assert Aligned(BLOCK) && first[..0] == other[..0] && first[BLOCK..] == other[BLOCK..];
    assert first == BlockAt(first, 0) && other == BlockAt(other, 0);
    OneBlockDetected(mix, first, other, 0, sum);
    CarriesDifference(mix, data, Checksum(mix, first, sum), Checksum(mix, other, sum));
  }

  lemma DataBlockSeen(first: seq<Byte>, data: seq<Byte>, other: seq<Byte>, mix: Mixer, sum: Sum, at: nat)
    requires Injective(mix) && Aligned(|data|) && |first| == BLOCK && Aligned(at) && OneBlockApart(data, other, at)
    ensures FrameSum(first, data, mix, sum) != FrameSum(first, other, mix, sum)
  {
    assert Aligned(BLOCK);
    OneBlockDetected(mix, data, other, at, Checksum(mix, first, sum));
  }

  lemma EarlyBlocks(at: nat)
    requires Aligned(at) && at < LOG_HEADER
    ensures at in {0, 8, 16, 24}
  {
    AlignedIsMultiple(at);
  }

  lemma AlignedPastHeader(at: nat)
    requires Aligned(at) && at !in {0, 8, 16}
    ensures at >= FRAME_HEADER && Aligned(at - FRAME_HEADER)
  {
    AlignedIsMultiple(at);
    AlignedIsMultiple(at - FRAME_HEADER);
  }

  /** A frame taken once is not taken again with its stored checksum, or its first block, changed. */
  lemma HeaderChangeSeen(header: seq<Byte>, other: seq<Byte>, data: seq<Byte>, mix: Mixer, sum: Sum, at: nat)
    requires Injective(mix) && |header| == FRAME_HEADER && Aligned(|data|) && at in {0, 16}
    requires OneBlockApart(header, other, at) && CheckFrame(header, data, mix, sum).More?
    ensures CheckFrame(other, data, mix, sum).Ends?
  {
    var s, t := FrameSum(BlockAt(header, 0), data, mix, sum), FrameSum(BlockAt(other, 0), data, mix, sum);
    BlocksDiffer(header, other, at);
    if at == 0 {
      FirstBlockSeen(BlockAt(header, 0), BlockAt(other, 0), data, mix, sum);
      BlockElsewhere(header, other, at, 16);
    } else {
      BlockElsewhere(header, other, at, 0);
    }
    StoredOnce(header, other, 16, s, t);
  }

  /** Nor with a block of its page changed. */
  lemma DataChangeSeen(header: seq<Byte>, data: seq<Byte>, other: seq<Byte>, mix: Mixer, sum: Sum, at: nat)
    requires Injective(mix) && |header| == FRAME_HEADER && Aligned(|data|) && Aligned(at)
    requires OneBlockApart(data, other, at) && CheckFrame(header, data, mix, sum).More?
    ensures CheckFrame(header, other, mix, sum).Ends?
  {
    DataBlockSeen(BlockAt(header, 0), data, other, mix, sum, at);
    StoredOnce(header, header, 16,
      FrameSum(BlockAt(header, 0), data, mix, sum), FrameSum(BlockAt(header, 0), other, mix, sum));
  }

  lemma BlockElsewhere(a: seq<Byte>, b: seq<Byte>, at: nat, other: nat)
    requires OneBlockApart(a, b, at) && other + BLOCK <= |a| && (other + BLOCK <= at || at + BLOCK <= other)
    ensures BlockAt(a, other) == BlockAt(b, other)
  {
    forall i | other <= i < other + BLOCK ensures a[i] == b[i] { ApartAt(a, b, at, i); }
  }

  lemma StoredOnce(bytes: seq<Byte>, other: seq<Byte>, at: nat, sum: Sum, sum': Sum)
    requires at + 8 <= |bytes| && at + 8 <= |other| && Matches(bytes, at, sum)
    requires sum == sum' <==> BlockAt(bytes, at) != BlockAt(other, at)
    ensures !Matches(other, at, sum')
  {
    if Matches(other, at, sum') { MatchesOnce(bytes, other, at, sum, sum'); }
  }

  /** How a log ends at a frame changed at the given offset. */
  predicate EndsAtChange(end: Next, at: nat, left: nat) {
    end.Ends? && if at == 8 then end.log == Log([], left) else end.log.BadLog?
  }

  /** One block of a current frame changed: noticed, or, in its salt, the end of the generation. */
  lemma {:induction false} ChangedFrame(
    rest: seq<Byte>, other: seq<Byte>, size: nat, mix: Mixer, salt: seq<Byte>, sum: Sum, at: nat
  )
    requires Injective(mix) && Aligned(size) && NextFrame(rest, size, mix, salt, sum).More?
    requires Aligned(at) && OneBlockApart(rest, other, at) && at + BLOCK <= FRAME_HEADER + size
    ensures EndsAtChange(NextFrame(other, size, mix, salt, sum), at, |rest|)
  {
    hide Injective;
    var w := FRAME_HEADER + size;
    if at < FRAME_HEADER {
      EarlyBlocks(at);
      ApartInPrefix(rest, other, at, FRAME_HEADER);
      ApartElsewhere(rest, other, at, FRAME_HEADER, w);
      HeaderChanged(rest, other, size, mix, salt, sum, at);
    } else {
      AlignedPastHeader(at);
      SharedPrefix(rest, other, at, FRAME_HEADER);
      ApartWithin(rest, other, at, FRAME_HEADER, w);
      DataChanged(rest, other, size, mix, salt, sum, at - FRAME_HEADER);
    }
  }

  lemma DataChanged(rest: seq<Byte>, other: seq<Byte>, size: nat, mix: Mixer, salt: seq<Byte>, sum: Sum, at: nat)
    requires Injective(mix) && Aligned(size) && NextFrame(rest, size, mix, salt, sum).More?
    requires |other| == |rest| && Aligned(at) && rest[..FRAME_HEADER] == other[..FRAME_HEADER]
    requires OneBlockApart(rest[FRAME_HEADER..FRAME_HEADER + size], other[FRAME_HEADER..FRAME_HEADER + size], at)
    ensures NextFrame(other, size, mix, salt, sum).Ends? && NextFrame(other, size, mix, salt, sum).log.BadLog?
  {
    var w := FRAME_HEADER + size;
    assert |rest[FRAME_HEADER..w]| == size;
    DataChangeSeen(rest[..FRAME_HEADER], rest[FRAME_HEADER..w], other[FRAME_HEADER..w], mix, sum, at);
  }

  lemma SaltBlock(header: seq<Byte>, other: seq<Byte>)
    requires OneBlockApart(header, other, 8) && |header| >= 16
    ensures header[8..16] != other[8..16]
  {
    BlocksDiffer(header, other, 8);
    assert forall i :: 8 <= i < 16 ==> header[8..16][i - 8] == header[i] && other[8..16][i - 8] == other[i];
  }

  lemma HeaderChanged(rest: seq<Byte>, other: seq<Byte>, size: nat, mix: Mixer, salt: seq<Byte>, sum: Sum, at: nat)
    requires Injective(mix) && Aligned(size) && NextFrame(rest, size, mix, salt, sum).More?
    requires |other| == |rest| && at in {0, 8, 16}
    requires OneBlockApart(rest[..FRAME_HEADER], other[..FRAME_HEADER], at)
    requires rest[FRAME_HEADER..FRAME_HEADER + size] == other[FRAME_HEADER..FRAME_HEADER + size]
    ensures EndsAtChange(NextFrame(other, size, mix, salt, sum), at, |rest|)
  {
    var header, header' := rest[..FRAME_HEADER], other[..FRAME_HEADER];
    if at == 8 {
      SaltBlock(header, header');
    } else {
      ApartElsewhere(header, header', at, 8, 16);
      HeaderChangeSeen(header, header', rest[FRAME_HEADER..FRAME_HEADER + size], mix, sum, at);
    }
  }

  /** A reader that notices a change to any one block of a frame it took. */
  ghost predicate Notices(next: Reader, w: nat) {
    forall rest, other, sum, at: nat {:trigger next(rest, sum), next(other, sum), OneBlockApart(rest, other, at)} ::
      next(rest, sum).More? && OneBlockApart(rest, other, at) && Aligned(at) && at + BLOCK <= w ==>
        EndsAtChange(next(other, sum), at, |rest|)
  }

  lemma FrameReaderNotices(size: nat, mix: Mixer, salt: seq<Byte>)
    requires Injective(mix) && Aligned(size)
    ensures Notices(FrameReader(size, mix, salt), FRAME_HEADER + size)
  {
    var next, w := FrameReader(size, mix, salt), FRAME_HEADER + size;
    forall rest, other, sum, at: nat |
      next(rest, sum).More? && OneBlockApart(rest, other, at) && Aligned(at) && at + BLOCK <= w
      ensures EndsAtChange(next(other, sum), at, |rest|)
    {
      ChangedFrame(rest, other, size, mix, salt, sum, at);
    }
  }

  /** The same, for the frame after the first k. */
  lemma {:induction false} ChangedLog(
    next: Reader, w: nat, rest: seq<Byte>, other: seq<Byte>, sum: Sum, k: nat, at: nat
  )
    requires Takes(next, w) && LooksAtFrame(next, w) && Notices(next, w)
    requires ReadLog(next, w, rest, sum).Log? && k < |ReadLog(next, w, rest, sum).frames|
    requires at + BLOCK <= w && Aligned(at) && OneBlockApart(rest, other, Offset(k, w) + at)
    ensures var log := ReadLog(next, w, other, sum);
      if at == 8 then log == Log(ReadLog(next, w, rest, sum).frames[..k], |rest| - Offset(k, w)) else log.BadLog?
    decreases k
  {
    var n := next(rest, sum);
    var more := ReadLog(next, w, rest[w..], n.sum);
    if k == 0 {
      assert EndsAtChange(next(other, sum), at, |rest|);
      assert ([n.frame] + more.frames)[..0] == [];
    } else {
      ApartAfter(rest, other, w, Offset(k - 1, w) + at);
      assert next(other, sum) == n;
      ChangedLog(next, w, rest[w..], other[w..], n.sum, k - 1, at);
      assert ([n.frame] + more.frames)[..k] == [n.frame] + more.frames[..k - 1];
    }
  }

  lemma ApartAfter(a: seq<Byte>, b: seq<Byte>, m: nat, at: nat)
    requires OneBlockApart(a, b, m + at)
    ensures a[..m] == b[..m] && OneBlockApart(a[m..], b[m..], at)
  {
    SharedPrefix(a, b, m + at, m);
    ApartWithin(a, b, m + at, m, |a|);
    assert a[m..] == a[m..|a|] && b[m..] == b[m..|b|];
  }

  /**
   * A change to one block of a current frame of a readable log is rejected wherever it is but
   * in the salt. With another salt the frame and everything after it count as left over from an
   * earlier generation, so that the log is rejected only if it would be when cut before that frame.
   */
  lemma ChangedFrameIsRejected(main: seq<Byte>, size: nat, wal: seq<Byte>, other: seq<Byte>, k: nat, at: nat)
    requires PageSize(main) == Size(size) && k < |FramesOf(main, wal)|
    requires Aligned(at) && at + BLOCK <= FRAME_HEADER + size && OneBlockApart(wal, other, Extent(k, size) + at)
    ensures Extent(k, size) < |wal|
    ensures at == 8 ==>
      Rebuild(main, other) == ApplyLog(main, size, FramesOf(main, wal)[..k], |wal| - Extent(k, size))
    ensures Rebuild(main, other).Invalid? <==> at != 8 || Rebuild(main, wal[..Extent(k, size)]).Invalid?
  {
    hide PageSize, ReadHeader, FramesOf, Rebuild, ApplyLog, OneBlockApart, Aligned;
    ChangedFrameReads(main, size, wal, other, k, at);
    CutBefore(main, size, wal, k);
    SameVerdict(main, size, FramesOf(main, wal)[..k], |wal| - Extent(k, size), 0);
  }

  lemma ChangedFrameReads(main: seq<Byte>, size: nat, wal: seq<Byte>, other: seq<Byte>, k: nat, at: nat)
    requires PageSize(main) == Size(size) && k < |FramesOf(main, wal)|
    requires Aligned(at) && at + BLOCK <= FRAME_HEADER + size && OneBlockApart(wal, other, Extent(k, size) + at)
    ensures Extent(k, size) < |wal|
    ensures at != 8 ==> Rebuild(main, other).Invalid?
    ensures at == 8 ==>
      Rebuild(main, other) == ApplyLog(main, size, FramesOf(main, wal)[..k], |wal| - Extent(k, size))
  {
    hide PageSize, ReadHeader, FramesOf, FramesAfter, Rebuild, RebuildWith, ApplyLog, Injective, Aligned;
    var h := HeaderOfFrames(main, size, wal);
    ApartAfter(wal, other, LOG_HEADER, Offset(k, FRAME_HEADER + size) + at);
    SharedHeader(wal, other, size);
    RebuildFrom(main, other, size, h);
    BlockMixerIsInjective(h.bigEndian);
    ChangedAfter(main, size, BlockMixer(h.bigEndian), h, wal[LOG_HEADER..], other[LOG_HEADER..], k, at);
  }

  /** With another salt in its frame k, a log ends there. */
  lemma ChangedSaltReads(main: seq<Byte>, size: nat, wal: seq<Byte>, other: seq<Byte>, k: nat, end: nat)
    requires PageSize(main) == Size(size) && k < |FramesOf(main, wal)|
    requires end == Extent(k, size) && OneBlockApart(wal, other, end + 8)
    ensures end < |wal|
    ensures Rebuild(main, other) == ApplyLog(main, size, FramesOf(main, wal)[..k], |wal| - end)
  {
    hide PageSize, ReadHeader, FramesOf, Rebuild, ApplyLog, OneBlockApart;
    assert Aligned(8);
    ChangedFrameReads(main, size, wal, other, k, 8);
  }

  /** What a log cut before one of its frames makes of the main file. */
  lemma CutBefore(main: seq<Byte>, size: nat, wal: seq<Byte>, k: nat)
    requires PageSize(main) == Size(size) && k < |FramesOf(main, wal)|
    ensures Extent(k, size) <= |wal|
    ensures Rebuild(main, wal[..Extent(k, size)]) == ApplyLog(main, size, FramesOf(main, wal)[..k], 0)
  {
    hide PageSize, ReadHeader, FramesOf, Rebuild, ApplyLog, Aligned, CurrentLog, BlockMixer;
    var h := HeaderOfFrames(main, size, wal);
    var n := Offset(k, FRAME_HEADER + size);
    TruncateCurrent(size, BlockMixer(h.bigEndian), h, wal[LOG_HEADER..], k);
    SamePrefixSameHeader(wal, LOG_HEADER + n, size);
    CutRest(wal, LOG_HEADER, n);
    RebuildFrom(main, wal[..LOG_HEADER + n], size, h);
  }

  /** How much of a log is stale does not decide whether it is rejected. */
  lemma SameVerdict(main: seq<Byte>, size: nat, frames: seq<Frame>, stale: nat, stale': nat)
    requires size > 0
    ensures ApplyLog(main, size, frames, stale).Invalid? <==> ApplyLog(main, size, frames, stale').Invalid?
  {
  }

  /** The header of a log does not depend on what comes after it. */
  lemma SharedHeader(wal: seq<Byte>, other: seq<Byte>, size: nat)
    requires LOG_HEADER <= |wal| && LOG_HEADER <= |other| && wal[..LOG_HEADER] == other[..LOG_HEADER]
    ensures ReadHeader(other, size) == ReadHeader(wal, size)
  {
    SamePrefixSameHeader(wal, LOG_HEADER, size);
    SamePrefixSameHeader(other, LOG_HEADER, size);
  }

  lemma HeaderOfFrames(main: seq<Byte>, size: nat, wal: seq<Byte>) returns (h: Header)
    requires PageSize(main) == Size(size) && FramesOf(main, wal) != []
    ensures |wal| >= LOG_HEADER && h == ReadHeader(wal, size) && h.Header?
    ensures FramesOf(main, wal) == FramesAfter(size, BlockMixer(h.bigEndian), h, wal[LOG_HEADER..])
  {
    h := ReadHeader(wal, size);
    RebuildFrom(main, wal, size, h);
  }

  lemma ChangedAfter(
    main: seq<Byte>, size: nat, mix: Mixer, h: Header, rest: seq<Byte>, other: seq<Byte>, k: nat, at: nat
  )
    requires Injective(mix) && size > 0 && Aligned(size) && h.Header? && k < |FramesAfter(size, mix, h, rest)|
    requires Aligned(at) && at + BLOCK <= FRAME_HEADER + size
    requires OneBlockApart(rest, other, Offset(k, FRAME_HEADER + size) + at)
    ensures at != 8 ==> RebuildWith(main, size, mix, h, other).Invalid?
    ensures Offset(k, FRAME_HEADER + size) < |rest|
    ensures var left := |rest| - Offset(k, FRAME_HEADER + size);
      at == 8 ==>
        RebuildWith(main, size, mix, h, other) == ApplyLog(main, size, FramesAfter(size, mix, h, rest)[..k], left)
  {
    hide CurrentLog, ApplyLog, Injective, Aligned;
    ChangedCurrent(size, mix, h, rest, other, k, at);
  }

  lemma ChangedCurrent(size: nat, mix: Mixer, h: Header, rest: seq<Byte>, other: seq<Byte>, k: nat, at: nat)
    requires Injective(mix) && Aligned(size) && h.Header? && CurrentLog(size, mix, h, rest).Log?
    requires k < |CurrentLog(size, mix, h, rest).frames|
    requires Aligned(at) && at + BLOCK <= FRAME_HEADER + size
    requires OneBlockApart(rest, other, Offset(k, FRAME_HEADER + size) + at)
    ensures at != 8 ==> CurrentLog(size, mix, h, other).BadLog?
    ensures var left := |rest| - Offset(k, FRAME_HEADER + size);
      at == 8 ==> CurrentLog(size, mix, h, other) == Log(CurrentLog(size, mix, h, rest).frames[..k], left)
  {
    hide NextFrame, OneBlockApart, Aligned, Takes, LooksAtFrame, Notices, FrameReader;
    FrameReaderTakes(size, mix, h.salt);
    FrameReaderLooksAtFrame(size, mix, h.salt);
    FrameReaderNotices(size, mix, h.salt);
    ChangedLog(FrameReader(size, mix, h.salt), FRAME_HEADER + size, rest, other, h.sum, k, at);
  }

  /**
   * A change to one block of the log's header is always rejected, in the magic number that gives the
   * byte order too: a sum stored for one order does not hold in the other.
   */
  lemma ChangedHeaderIsRejected(main: seq<Byte>, wal: seq<Byte>, other: seq<Byte>, at: nat)
    requires wal != [] && Rebuild(main, wal).Rebuilt?
    requires Aligned(at) && at < LOG_HEADER && OneBlockApart(wal, other, at)
    ensures Rebuild(main, other).Invalid?
  {
    hide PageSize, Rebuild, RebuildWith, WordAt, Checksum, Aligned;
    var size := SizeOfRebuilt(main, wal);
    RebuiltHasHeader(main, wal, size);
    ChangedHeaderIsUnreadable(wal, other, size, at);
    BadHeaderIsInvalid(main, other, size);
  }

  lemma ChangedHeaderIsUnreadable(wal: seq<Byte>, other: seq<Byte>, size: nat, at: nat)
    requires ReadHeader(wal, size).Header? && size <= 65536
    requires Aligned(at) && at < LOG_HEADER && OneBlockApart(wal, other, at)
    ensures ReadHeader(other, size).BadHeader?
  {
    hide WordAt, Checksum, Aligned;
    EarlyBlocks(at);
    AlignedIsMultiple(24);
    if WordAt(wal, 0, true) == WordAt(other, 0, true) {
      HeaderSumSeen(wal, other, WordAt(wal, 0, true) == BIG_ENDIAN_MAGIC, at);
    } else {
      if at != 0 { FirstBlockKept(wal, other, at); }
      forall i | BLOCK <= i < LOG_HEADER ensures wal[i] == other[i] { ApartAt(wal, other, at, i); }
      OneOrderOnly(wal, other, size);
    }
  }

  lemma FirstBlockKept(wal: seq<Byte>, other: seq<Byte>, at: nat)
    requires OneBlockApart(wal, other, at) && at >= BLOCK
    ensures WordAt(wal, 0, true) == WordAt(other, 0, true)
  {
    SharedPrefix(wal, other, at, 4);
    assert FourAt(wal, 0) == wal[..4] && FourAt(other, 0) == other[..4];
  }

  lemma SizeOfRebuilt(main: seq<Byte>, wal: seq<Byte>) returns (size: nat)
    requires Rebuild(main, wal).Rebuilt?
    ensures PageSize(main) == Size(size) && size <= 65536
  {
    size := PageSize(main).size;
  }

  lemma RebuiltHasHeader(main: seq<Byte>, wal: seq<Byte>, size: nat)
    requires PageSize(main) == Size(size) && wal != [] && Rebuild(main, wal).Rebuilt?
    ensures var h := ReadHeader(wal, size);
      && h.Header? && RebuildWith(main, size, BlockMixer(h.bigEndian), h, wal[LOG_HEADER..]) == Rebuild(main, wal)
      && FramesOf(main, wal) == FramesAfter(size, BlockMixer(h.bigEndian), h, wal[LOG_HEADER..])
  {
  }

  lemma BadHeaderIsInvalid(main: seq<Byte>, wal: seq<Byte>, size: nat)
    requires PageSize(main) == Size(size) && wal != [] && ReadHeader(wal, size).BadHeader?
    ensures Rebuild(main, wal).Invalid?
  {
  }

  /** A stretch of 24 bytes and the sum stored after it: no change to one block of them goes unnoticed. */
  lemma HeaderSumSeen(wal: seq<Byte>, other: seq<Byte>, bigEndian: bool, at: nat)
    requires OneBlockApart(wal, other, at) && at in {0, 8, 16, 24} && |wal| >= LOG_HEADER && Aligned(24)
    requires Matches(wal, 24, Checksum(BlockMixer(bigEndian), wal[..24], Sum(0, 0)))
    ensures !Matches(other, 24, Checksum(BlockMixer(bigEndian), other[..24], Sum(0, 0)))
  {
    var mix := BlockMixer(bigEndian);
    if at == 24 {
      SharedPrefix(wal, other, at, 24);
      BlocksDiffer(wal, other, at);
    } else {
      BlockMixerIsInjective(bigEndian);
      ApartInPrefix(wal, other, at, 24);
      AlignedIsMultiple(at);
      OneBlockDetected(mix, wal[..24], other[..24], at, Sum(0, 0));
      BlockElsewhere(wal, other, at, 24);
    }
    StoredOnce(wal, other, 24, Checksum(mix, wal[..24], Sum(0, 0)), Checksum(mix, other[..24], Sum(0, 0)));
  }
}
