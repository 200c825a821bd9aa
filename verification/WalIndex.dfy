/**
 * Corroborating a rebuilt image by the header of the shared-memory file: section 2.1 of
 * the SQLite WAL-mode File Format. Without that file nothing may be stale; with it the last
 * committed frame is the one the header acknowledges.
 */
module WalIndex {
  import opened Options
  import opened Bytes
  import opened WalChecksum
  import opened WalReconstruction
  import opened WalByteOrder
  import opened WalTheorems
  import opened WalImage

  const INDEX_HEADER: nat := 48

  /** Both copies of the header are there, are the same, and are marked as initialized. */
  predicate HeadersAgree(shm: seq<Byte>) {
    |shm| >= 2 * INDEX_HEADER && shm[..INDEX_HEADER] == shm[INDEX_HEADER..2 * INDEX_HEADER] && shm[12] == 1
  }

  /** The page size stored in the header, in its own byte order. */
  function StoredSize(shm: seq<Byte>, bigEndian: bool): nat
    requires |shm| >= INDEX_HEADER
  {
    var stored := if bigEndian then BigEndian([shm[14], shm[15]]) else LittleEndian([shm[14], shm[15]]);
    if stored == 1 then 65536 else stored
  }

  /** Whether the version at the head of the index is stored most significant byte first. */
  predicate IndexOrder(shm: seq<Byte>)
    requires |shm| >= INDEX_HEADER
  {
    WordAt(shm, 0, true) == FORMAT_VERSION
  }

  function IndexSum(shm: seq<Byte>, bigEndian: bool): Sum
    requires |shm| >= INDEX_HEADER
  {
    AlignedIsMultiple(40);
    Checksum(BlockMixer(bigEndian), shm[..40], Sum(0, 0))
  }

  /** What a log of so many committed frames has to hold for its last commit to be looked up. */
  predicate HoldsCommit(image: Image, log: Option<seq<Byte>>) {
    image.committedFrames > 0 ==>
      && PageSize(image.bytes).Size?
      && (log.Some? ==> Extent(image.committedFrames, PageSize(image.bytes).size) <= |log.value|)
  }

  /** The header describes the generation of the log that the image was rebuilt from. */
  predicate SameGeneration(image: Image, size: nat, wal: seq<Byte>, shm: seq<Byte>, bigEndian: bool)
    requires |shm| >= INDEX_HEADER && |wal| >= LOG_HEADER && size > 0
  {
    && StoredSize(shm, bigEndian) == size
    && WordAt(shm, 20, bigEndian) == PageCount(|image.bytes|, size)
    && shm[13] == WordAt(wal, 0, true) % 2
    && shm[32..40] == wal[16..24]
  }

  /** The header acknowledges the sum stored with the frame at an offset. */
  predicate SameSum(wal: seq<Byte>, offset: nat, shm: seq<Byte>, bigEndian: bool)
    requires |shm| >= INDEX_HEADER && offset + FRAME_HEADER <= |wal|
  {
    && WordAt(shm, 24, bigEndian) == WordAt(wal, offset + 16, true)
    && WordAt(shm, 28, bigEndian) == WordAt(wal, offset + 20, true)
  }

  lemma ExtentOfOneMore(n: nat, size: nat)
    requires n > 0
    ensures Extent(n - 1, size) + FRAME_HEADER + size == Extent(n, size)
  {
  }

  lemma ExtentIsProduct(n: nat, size: nat)
    ensures Extent(n, size) == 32 + n * (24 + size)
  {
    OffsetIsProduct(n, FRAME_HEADER + size);
  }

  function CommitFault(image: Image, log: Option<seq<Byte>>, shm: seq<Byte>, bigEndian: bool): Option<Fault>
    requires |shm| >= INDEX_HEADER && HoldsCommit(image, log) && image.committedFrames > 0
  {
    var size := PageSize(image.bytes).size;
    ExtentOfOneMore(image.committedFrames, size);
    if log.None? || !SameGeneration(image, size, log.value, shm, bigEndian) then Some(OtherGeneration)
    else if !SameSum(log.value, Extent(image.committedFrames - 1, size), shm, bigEndian) then Some(CommitChecksum)
    else None
  }

  /** Why an image is not corroborated, if it is not. */
  function IndexFault(image: Image, log: Option<seq<Byte>>, index: Option<seq<Byte>>): Option<Fault>
    requires HoldsCommit(image, log)
  {
    match index
    case None => if image.staleSuffixBytes != 0 then Some(StaleSuffix) else None
    case Some(shm) =>
      if !HeadersAgree(shm) then Some(IndexHeadersDisagree) else
        var bigEndian := IndexOrder(shm);
        if !bigEndian && WordAt(shm, 0, false) != FORMAT_VERSION then Some(UnsupportedIndex)
        else if Sum(WordAt(shm, 40, bigEndian), WordAt(shm, 44, bigEndian)) != IndexSum(shm, bigEndian) then
          Some(IndexChecksum)
        else if WordAt(shm, 16, bigEndian) != image.committedFrames then Some(CommitNotCovered)
        else if image.committedFrames == 0 then None
        else CommitFault(image, log, shm, bigEndian)
  }

  function BytesOf(log: Option<seq<Byte>>): seq<Byte> {
    match log
    case None => []
    case Some(wal) => wal
  }

  lemma RebuiltHoldsCommit(main: seq<Byte>, log: Option<seq<Byte>>, image: Image)
    requires Rebuild(main, BytesOf(log)) == Rebuilt(image)
    ensures HoldsCommit(image, log)
  {
    if image.committedFrames > 0 {
      var wal := BytesOf(log);
      RebuiltImage(main, wal);
      UncommittedHasNoEffect(main, PageSize(main).size, wal, image);
    }
  }

  /** The image a set of retained files stands for: rebuilt, and corroborated. */
  function Recover(main: seq<Byte>, log: Option<seq<Byte>>, index: Option<seq<Byte>>): Result {
    match Rebuild(main, BytesOf(log))
    case Invalid(fault) => Invalid(fault)
    case Rebuilt(image) =>
      RebuiltHoldsCommit(main, log, image);
      match IndexFault(image, log, index)
      case Some(fault) => Invalid(fault)
      case None => Rebuilt(image)
  }

  // ------------------------------------------------------------------------- the checks

  method VerifyWalIndex(image: Image, log: Option<seq<Byte>>, index: Option<seq<Byte>>) returns (fault: Option<Fault>)
    requires HoldsCommit(image, log)
    ensures fault == IndexFault(image, log, index)
  {
    if index.None? {
      if image.staleSuffixBytes != 0 { return Some(StaleSuffix); }
      return None;
    }
    var shm := index.value;
    if !HeadersAgree(shm) { return Some(IndexHeadersDisagree); }
    var bigEndian := IndexOrder(shm);
    if !bigEndian && WordAt(shm, 0, false) != FORMAT_VERSION { return Some(UnsupportedIndex); }
    AlignedIsMultiple(40);
    var sum := ComputeChecksum(shm[..40], bigEndian, Sum(0, 0));
    if WordAt(shm, 40, bigEndian) != sum.first || WordAt(shm, 44, bigEndian) != sum.second {
      return Some(IndexChecksum);
    }
    if WordAt(shm, 16, bigEndian) != image.committedFrames { return Some(CommitNotCovered); }
    if image.committedFrames == 0 { return None; }
    fault := VerifyCommit(image, log, shm, bigEndian);
  }

  method VerifyCommit(image: Image, log: Option<seq<Byte>>, shm: seq<Byte>, bigEndian: bool)
    returns (fault: Option<Fault>)
    requires |shm| >= INDEX_HEADER && HoldsCommit(image, log) && image.committedFrames > 0
    ensures fault == CommitFault(image, log, shm, bigEndian)
  {
    var size := PageSize(image.bytes).size;
    if log.None? || !SameGeneration(image, size, log.value, shm, bigEndian) { return Some(OtherGeneration); }
    var offset := 32 + (image.committedFrames - 1) * (24 + size);
    ExtentIsProduct(image.committedFrames - 1, size);
    ExtentOfOneMore(image.committedFrames, size);
    if !SameSum(log.value, offset, shm, bigEndian) { return Some(CommitChecksum); }
    fault := None;
  }

  /** What is handed on to SQLite, unless the files are refused. */
  method RecoverImage(main: seq<Byte>, log: Option<seq<Byte>>, index: Option<seq<Byte>>) returns (r: Result)
    ensures r == Recover(main, log, index)
  {
    r := Reconstruct(main, BytesOf(log));
    if r.Invalid? { return; }
    RebuiltHoldsCommit(main, log, r.image);
    var fault := VerifyWalIndex(r.image, log, index);
    if fault.Some? { r := Invalid(fault.value); }
  }

  // ---------------------------------------------------------------- one block changed, again

  /**
   * Without a shared-memory file every change to one block of a current frame is rejected: the
   * suffix that a changed salt leaves behind counts as stale.
   */
  lemma WithoutIndexEveryChangeIsRejected(
    main: seq<Byte>, size: nat, wal: seq<Byte>, other: seq<Byte>, k: nat, at: nat
  )
    requires PageSize(main) == Size(size) && k < |FramesOf(main, wal)|
    requires Aligned(at) && at + BLOCK <= FRAME_HEADER + size && OneBlockApart(wal, other, Extent(k, size) + at)
    ensures Recover(main, Some(other), None).Invalid?
  {
    hide PageSize, ReadHeader, FramesOf, Rebuild, ApplyLog, OneBlockApart, Aligned;
    ChangedFrameReads(main, size, wal, other, k, at);
    if at == 8 { StaleIsKept(main, size, FramesOf(main, wal)[..k], |wal| - Extent(k, size)); }
  }

  lemma StaleIsKept(main: seq<Byte>, size: nat, frames: seq<Frame>, stale: nat)
    requires size > 0
    ensures var r := ApplyLog(main, size, frames, stale);
      r.Rebuilt? ==> r.image.staleSuffixBytes == stale && r.image.committedFrames == Committed(frames)
  {
  }

  /**
   * With the shared-memory file that accepted the log, the change is rejected unless it gives
   * another salt to a frame after the last commit; then the same database is recovered.
   */
  lemma IndexedChangeIsRejected(
    main: seq<Byte>, size: nat, wal: seq<Byte>, other: seq<Byte>, shm: seq<Byte>, image: Image, k: nat, at: nat
  )
    requires PageSize(main) == Size(size) && k < |FramesOf(main, wal)|
    requires Aligned(at) && at + BLOCK <= FRAME_HEADER + size && OneBlockApart(wal, other, Extent(k, size) + at)
    requires Recover(main, Some(wal), Some(shm)) == Rebuilt(image)
    ensures Recover(main, Some(other), Some(shm)).Invalid? <==> at != 8 || k < image.committedFrames
    ensures Extent(k, size) <= |wal|
    ensures at == 8 && k >= image.committedFrames ==>
      Recover(main, Some(other), Some(shm)) == Rebuilt(Uncommitted(image, k, |wal| - Extent(k, size)))
  {
    hide PageSize, ReadHeader, FramesOf, Rebuild, ApplyLog, Recover, OneBlockApart, Aligned;
    ChangedFrameReads(main, size, wal, other, k, at);
    if at == 8 {
      if k < image.committedFrames {
        CommittedSaltChanged(main, size, wal, other, shm, image, k);
      } else {
        RecoveredIsRebuilt(main, Some(wal), Some(shm), image);
        UncommittedSaltChanged(main, size, wal, other, image, k);
        SharedLog(wal, other, Extent(k, size) + at, image.committedFrames, k, size);
        SameVerdictOnCommit(main, size, wal, other, shm, image, Uncommitted(image, k, |wal| - Extent(k, size)));
      }
    } else {
      RejectedIsNotRecovered(main, Some(other), Some(shm));
    }
  }

  /** The same image, from a log that ends after so many frames. */
  function Uncommitted(image: Image, frames: nat, stale: nat): Image {
    Image(image.bytes, frames, image.committedFrames, stale)
  }

  lemma RejectedIsNotRecovered(main: seq<Byte>, log: Option<seq<Byte>>, index: Option<seq<Byte>>)
    requires Rebuild(main, BytesOf(log)).Invalid?
    ensures Recover(main, log, index).Invalid?
  {
    hide Rebuild;
  }

  lemma RecoveredIsRebuilt(main: seq<Byte>, log: Option<seq<Byte>>, index: Option<seq<Byte>>, image: Image)
    requires Recover(main, log, index) == Rebuilt(image)
    ensures Rebuild(main, BytesOf(log)) == Rebuilt(image)
  {
    hide Rebuild, IndexFault;
  }

  lemma CommittedSaltChanged(
    main: seq<Byte>, size: nat, wal: seq<Byte>, other: seq<Byte>, shm: seq<Byte>, image: Image, k: nat
  )
    requires PageSize(main) == Size(size) && k < |FramesOf(main, wal)|
    requires OneBlockApart(wal, other, Extent(k, size) + 8)
    requires Recover(main, Some(wal), Some(shm)) == Rebuilt(image) && k < image.committedFrames
    ensures Recover(main, Some(other), Some(shm)).Invalid?
  {
    hide PageSize, ReadHeader, FramesOf, Rebuild, ApplyLog, Recover, OneBlockApart, Acknowledges;
    var end := Extent(k, size);
    ChangedSaltReads(main, size, wal, other, k, end);
    StaleIsKept(main, size, FramesOf(main, wal)[..k], |wal| - end);
    AcknowledgedCommit(main, Some(wal), shm, image);
    FewerCommitsAreRejected(main, Some(other), shm, image.committedFrames);
  }

  /** How many committed frames an index acknowledges. */
  predicate Acknowledges(shm: seq<Byte>, committed: nat) {
    HeadersAgree(shm) && WordAt(shm, 16, IndexOrder(shm)) == committed
  }

  lemma AcknowledgedCommit(main: seq<Byte>, log: Option<seq<Byte>>, shm: seq<Byte>, image: Image)
    requires Recover(main, log, Some(shm)) == Rebuilt(image)
    ensures Acknowledges(shm, image.committedFrames)
  {
  }

  lemma FewerCommitsAreRejected(main: seq<Byte>, log: Option<seq<Byte>>, shm: seq<Byte>, committed: nat)
    requires Acknowledges(shm, committed)
    requires var r := Rebuild(main, BytesOf(log));
      r.Rebuilt? ==> r.image.committedFrames != committed
    ensures Recover(main, log, Some(shm)).Invalid?
  {
  }

  /** Cut after its last commit, a log has the same frames committed. */
  lemma {:induction false} CommittedOfPrefix(frames: seq<Frame>, k: nat)
    requires Committed(frames) <= k <= |frames|
    ensures Committed(frames[..k]) == Committed(frames)
    decreases |frames|
  {
    if k == |frames| {
      assert frames[..k] == frames;
    } else {
      var front := frames[..|frames| - 1];
      CommittedOfPrefix(front, k);
      assert frames[..k] == front[..k];
    }
  }

  lemma CommittedPrefixApplies(main: seq<Byte>, size: nat, frames: seq<Frame>, k: nat, stale: nat, image: Image)
    requires size > 0 && ApplyLog(main, size, frames, image.staleSuffixBytes) == Rebuilt(image)
    requires image.committedFrames <= k <= |frames|
    ensures ApplyLog(main, size, frames[..k], stale) == Rebuilt(Image(image.bytes, k, image.committedFrames, stale))
  {
    var n := image.committedFrames;
    CommittedOfPrefix(frames, k);
    assert frames[..k][..n] == frames[..n];
  }

  /** What a log made of the main file, from the frames in it. */
  lemma AppliedFrames(main: seq<Byte>, size: nat, wal: seq<Byte>, image: Image)
    requires PageSize(main) == Size(size) && FramesOf(main, wal) != [] && Rebuild(main, wal) == Rebuilt(image)
    ensures ApplyLog(main, size, FramesOf(main, wal), image.staleSuffixBytes) == Rebuilt(image)
  {
    var h := ReadHeader(wal, size);
    RebuiltHasHeader(main, wal, size);
    var log := CurrentLog(size, BlockMixer(h.bigEndian), h, wal[LOG_HEADER..]);
    StaleIsKept(main, size, log.frames, log.stale);
  }

  lemma UncommittedSaltChanged(
    main: seq<Byte>, size: nat, wal: seq<Byte>, other: seq<Byte>, image: Image, k: nat
  )
    requires PageSize(main) == Size(size) && k < |FramesOf(main, wal)|
    requires OneBlockApart(wal, other, Extent(k, size) + 8)
    requires Rebuild(main, wal) == Rebuilt(image) && image.committedFrames <= k
    ensures Extent(k, size) <= |wal|
    ensures Rebuild(main, other) == Rebuilt(Uncommitted(image, k, |wal| - Extent(k, size)))
  {
    hide PageSize, ReadHeader, FramesOf, Rebuild, ApplyLog, OneBlockApart;
    ChangedSaltReads(main, size, wal, other, k, Extent(k, size));
    AppliedFrames(main, size, wal, image);
    CommittedPrefixApplies(main, size, FramesOf(main, wal), k, |wal| - Extent(k, size), image);
  }

  lemma SharedLog(wal: seq<Byte>, other: seq<Byte>, at: nat, n: nat, k: nat, size: nat)
    requires n <= k && Extent(k, size) <= at && OneBlockApart(wal, other, at)
    ensures Extent(n, size) <= |wal| && Extent(n, size) <= |other|
    ensures wal[..Extent(n, size)] == other[..Extent(n, size)]
  {
    OffsetGrows(n, k, FRAME_HEADER + size);
    SharedPrefix(wal, other, at, Extent(n, size));
  }

  lemma SameVerdictOnCommit(
    main: seq<Byte>, size: nat, wal: seq<Byte>, other: seq<Byte>, shm: seq<Byte>, image: Image, image': Image
  )
    requires Rebuild(main, wal) == Rebuilt(image) && Rebuild(main, other) == Rebuilt(image')
    requires PageSize(main) == Size(size) && image'.bytes == image.bytes
    requires image'.committedFrames == image.committedFrames
    requires var n := Extent(image.committedFrames, size);
      n <= |wal| && n <= |other| && wal[..n] == other[..n]
    requires Recover(main, Some(wal), Some(shm)) == Rebuilt(image)
    ensures Recover(main, Some(other), Some(shm)) == Rebuilt(image')
  {
    RebuiltHoldsCommit(main, Some(wal), image);
    RebuiltHoldsCommit(main, Some(other), image');
    assert IndexFault(image, Some(wal), Some(shm)) == None;
    if image.committedFrames > 0 {
      RebuiltImage(main, wal);
      var bigEndian := IndexOrder(shm);
      SameCommitFault(image, image', size, wal, other, shm, bigEndian);
    }
  }

  lemma SameCommitFault(
    image: Image, image': Image, size: nat, wal: seq<Byte>, other: seq<Byte>, shm: seq<Byte>, bigEndian: bool
  )
    requires PageSize(image.bytes) == Size(size) && image'.bytes == image.bytes
    requires image'.committedFrames == image.committedFrames > 0 && |shm| >= INDEX_HEADER
    requires HoldsCommit(image, Some(wal)) && HoldsCommit(image', Some(other))
    requires wal[..Extent(image.committedFrames, size)] == other[..Extent(image.committedFrames, size)]
    ensures CommitFault(image', Some(other), shm, bigEndian) == CommitFault(image, Some(wal), shm, bigEndian)
  {
    var n := Extent(image.committedFrames, size);
    ExtentOfOneMore(image.committedFrames, size);
    SharedGeneration(image, image', size, wal, other, shm, bigEndian, n);
    SharedSum(wal, other, Extent(image.committedFrames - 1, size), shm, bigEndian, n);
  }

  lemma SharedGeneration(
    image: Image, image': Image, size: nat, wal: seq<Byte>, other: seq<Byte>, shm: seq<Byte>, bigEndian: bool, n: nat
  )
    requires image'.bytes == image.bytes && size > 0 && |shm| >= INDEX_HEADER
    requires LOG_HEADER <= n <= |wal| && n <= |other| && wal[..n] == other[..n]
    ensures SameGeneration(image', size, other, shm, bigEndian) == SameGeneration(image, size, wal, shm, bigEndian)
  {
    SameFour(wal, other, n, 0);
    SharedSlice(wal, other, n, 16, 24);
  }

  lemma SharedSum(wal: seq<Byte>, other: seq<Byte>, offset: nat, shm: seq<Byte>, bigEndian: bool, n: nat)
    requires offset + FRAME_HEADER <= n <= |wal| && n <= |other| && wal[..n] == other[..n] && |shm| >= INDEX_HEADER
    ensures SameSum(other, offset, shm, bigEndian) == SameSum(wal, offset, shm, bigEndian)
  {
    SameFour(wal, other, n, offset + 16);
    SameFour(wal, other, n, offset + 20);
  }

  lemma SameFour(a: seq<Byte>, b: seq<Byte>, n: nat, at: nat)
    requires n <= |a| && n <= |b| && a[..n] == b[..n] && at + 4 <= n
    ensures FourAt(a, at) == FourAt(b, at)
  {
    assert forall i :: at <= i < at + 4 ==> a[..n][i] == a[i] && b[..n][i] == b[i];
  }

  /** A change to one block of either header is rejected; past the headers nothing is looked at. */
  lemma ChangedIndexIsRejected(
    main: seq<Byte>, log: Option<seq<Byte>>, shm: seq<Byte>, other: seq<Byte>, at: nat
  )
    requires Recover(main, log, Some(shm)).Rebuilt?
    requires Aligned(at) && OneBlockApart(shm, other, at)
    ensures Recover(main, log, Some(other)).Invalid? <==> at < 2 * INDEX_HEADER
    ensures at >= 2 * INDEX_HEADER ==> Recover(main, log, Some(other)) == Recover(main, log, Some(shm))
  {
    hide Recover, Aligned, HeadersAgree;
    var image := Recover(main, log, Some(shm)).image;
    AcceptedHeadersAgree(main, log, shm, image);
    if at < 2 * INDEX_HEADER {
      WithinOneHeader(at);
      CopiesDiffer(shm, other, at);
      DisagreeingIsRejected(main, log, other);
    } else {
      SharedPrefix(shm, other, at, 2 * INDEX_HEADER);
      SameRecovery(main, log, shm, other);
    }
  }

  lemma WithinOneHeader(at: nat)
    requires Aligned(at) && at < 2 * INDEX_HEADER
    ensures at + BLOCK <= INDEX_HEADER || INDEX_HEADER <= at <= 2 * INDEX_HEADER - BLOCK
  {
    AlignedIsMultiple(at);
  }

  lemma AcceptedHeadersAgree(main: seq<Byte>, log: Option<seq<Byte>>, shm: seq<Byte>, image: Image)
    requires Recover(main, log, Some(shm)) == Rebuilt(image)
    ensures HeadersAgree(shm)
  {
  }

  lemma DisagreeingIsRejected(main: seq<Byte>, log: Option<seq<Byte>>, shm: seq<Byte>)
    requires !HeadersAgree(shm)
    ensures Recover(main, log, Some(shm)).Invalid?
  {
  }

  lemma SameRecovery(main: seq<Byte>, log: Option<seq<Byte>>, shm: seq<Byte>, other: seq<Byte>)
    requires |shm| >= 2 * INDEX_HEADER && |other| >= 2 * INDEX_HEADER
    requires shm[..2 * INDEX_HEADER] == other[..2 * INDEX_HEADER]
    ensures Recover(main, log, Some(other)) == Recover(main, log, Some(shm))
  {
    var r := Rebuild(main, BytesOf(log));
    if r.Rebuilt? {
      RebuiltHoldsCommit(main, log, r.image);
      SameIndexFault(r.image, log, shm, other);
    }
  }

  lemma CopiesDiffer(shm: seq<Byte>, other: seq<Byte>, at: nat)
    requires HeadersAgree(shm) && OneBlockApart(shm, other, at)
    requires at + BLOCK <= INDEX_HEADER || INDEX_HEADER <= at <= 2 * INDEX_HEADER - BLOCK
    ensures !HeadersAgree(other)
  {
    if HeadersAgree(other) {
      var twin := if at < INDEX_HEADER then at + INDEX_HEADER else at - INDEX_HEADER;
      BlocksDiffer(shm, other, at);
      BlockElsewhere(shm, other, at, twin);
      TwinBlocks(shm, at, twin);
      TwinBlocks(other, at, twin);
    }
  }

  lemma TwinBlocks(shm: seq<Byte>, at: nat, twin: nat)
    requires HeadersAgree(shm) && at + BLOCK <= 2 * INDEX_HEADER
    requires
      if at < INDEX_HEADER then at + BLOCK <= INDEX_HEADER && twin == at + INDEX_HEADER
      else twin + INDEX_HEADER == at
    ensures twin + BLOCK <= |shm| && BlockAt(shm, at) == BlockAt(shm, twin)
  {
    var low := if at < INDEX_HEADER then at else twin;
    assert forall i :: low <= i < low + BLOCK ==>
      shm[..INDEX_HEADER][i] == shm[i] && shm[INDEX_HEADER..2 * INDEX_HEADER][i] == shm[i + INDEX_HEADER];
  }

  lemma SameIndexFault(image: Image, log: Option<seq<Byte>>, shm: seq<Byte>, other: seq<Byte>)
    requires HoldsCommit(image, log) && |shm| >= 2 * INDEX_HEADER && |other| >= 2 * INDEX_HEADER
    requires shm[..2 * INDEX_HEADER] == other[..2 * INDEX_HEADER]
    ensures IndexFault(image, log, Some(shm)) == IndexFault(image, log, Some(other))
  {
    var n := 2 * INDEX_HEADER;
    forall i | 0 <= i < n ensures shm[i] == other[i] { assert shm[..n][i] == other[..n][i]; }
    SharedPrefix(shm, other, n, 40);
    SharedPrefix(shm, other, n, INDEX_HEADER);
    SharedSlice(shm, other, n, INDEX_HEADER, n);
    SharedSlice(shm, other, n, 32, 40);
  }

  // ------------------------------------------------------------- both copies of the header changed

  lemma AcceptedHeader(main: seq<Byte>, log: Option<seq<Byte>>, shm: seq<Byte>)
    requires Recover(main, log, Some(shm)).Rebuilt?
    ensures HeadersAgree(shm) && WordAt(shm, 0, IndexOrder(shm)) == FORMAT_VERSION && SumStored(shm, IndexOrder(shm))
  {
  }

  lemma FaultyHeaderIsRejected(main: seq<Byte>, log: Option<seq<Byte>>, shm: seq<Byte>)
    requires HeadersAgree(shm) ==>
      !(WordAt(shm, 0, IndexOrder(shm)) == FORMAT_VERSION && SumStored(shm, IndexOrder(shm)))
    ensures Recover(main, log, Some(shm)).Invalid?
  {
  }

  /** The same bytes are stored for one sum only. */
  lemma StoredSumIsItsBytes(a: seq<Byte>, b: seq<Byte>, bigEndian: bool)
    requires |a| >= INDEX_HEADER && |b| >= INDEX_HEADER
    ensures StoredSum(a, bigEndian) == StoredSum(b, bigEndian) <==> BlockAt(a, 40) == BlockAt(b, 40)
  {
    assert BlockAt(a, 40) == FourAt(a, 40) + FourAt(a, 44) && BlockAt(b, 40) == FourAt(b, 40) + FourAt(b, 44);
    assert FourAt(a, 40) == BlockAt(a, 40)[..4] && FourAt(a, 44) == BlockAt(a, 40)[4..];
    assert FourAt(b, 40) == BlockAt(b, 40)[..4] && FourAt(b, 44) == BlockAt(b, 40)[4..];
    if StoredSum(a, bigEndian) == StoredSum(b, bigEndian) {
      WordIsItsBytes(FourAt(a, 40), FourAt(b, 40), bigEndian);
      WordIsItsBytes(FourAt(a, 44), FourAt(b, 44), bigEndian);
    }
  }

  /** Read in the same order, a header with one block changed has another sum, or another sum stored. */
  lemma IndexChangeSeen(a: seq<Byte>, b: seq<Byte>, bigEndian: bool, at: nat)
    requires |a| == INDEX_HEADER && OneBlockApart(a, b, at) && Aligned(at) && SumStored(a, bigEndian)
    ensures !SumStored(b, bigEndian)
  {
    hide BlockMixer, Checksum;
    AlignedIsMultiple(at);
    AlignedIsMultiple(40);
    StoredSumIsItsBytes(a, b, bigEndian);
    if at == 40 {
      BlocksDiffer(a, b, at);
    } else {
      BlockElsewhere(a, b, at, 40);
      BlockMixerIsInjective(bigEndian);
      ApartInPrefix(a, b, at, 40);
      OneBlockDetected(BlockMixer(bigEndian), a[..40], b[..40], at, Sum(0, 0));
    }
  }

  /** A header by itself reads as it does at the start of the file. */
  lemma HeaderByItself(shm: seq<Byte>, bigEndian: bool)
    requires |shm| >= INDEX_HEADER
    ensures var header := shm[..INDEX_HEADER];
      && WordAt(header, 0, bigEndian) == WordAt(shm, 0, bigEndian)
      && SumStored(header, bigEndian) == SumStored(shm, bigEndian)
  {
    var header := shm[..INDEX_HEADER];
    IndexSteps(shm, bigEndian);
    assert header[..40] == shm[..40];
    assert FourAt(header, 0) == FourAt(shm, 0);
    assert FourAt(header, 40) == FourAt(shm, 40) && FourAt(header, 44) == FourAt(shm, 44);
  }

  /** A header with one block changed is not one that says the version, with the sum right, in either order. */
  lemma ChangedHeaderIsFaulty(a: seq<Byte>, b: seq<Byte>, at: nat)
    requires |a| == INDEX_HEADER && OneBlockApart(a, b, at) && Aligned(at)
    requires WordAt(a, 0, IndexOrder(a)) == FORMAT_VERSION && SumStored(a, IndexOrder(a))
    ensures !(WordAt(b, 0, IndexOrder(b)) == FORMAT_VERSION && SumStored(b, IndexOrder(b)))
  {
    hide WordAt, SumStored, Aligned;
    if IndexOrder(a) == IndexOrder(b) {
      IndexChangeSeen(a, b, IndexOrder(a), at);
    } else if WordAt(b, 0, IndexOrder(b)) == FORMAT_VERSION {
      AlignedIsMultiple(at);
      if at != 0 { FirstBlockKept(a, b, at); }
      forall i | BLOCK <= i < INDEX_HEADER ensures a[i] == b[i] { ApartAt(a, b, at, i); }
      OneIndexOrderOnly(a, b, IndexOrder(a));
    }
  }

  /**
   * With one block of the header changed in its first copy the index is rejected whatever its second
   * copy says, the same change included, and whichever block it is: that of the version too, which
   * gives the byte order, as a sum stored in one order does not hold in the other.
   */
  lemma ChangedCopiesAreRejected(
    main: seq<Byte>, log: Option<seq<Byte>>, shm: seq<Byte>, other: seq<Byte>, at: nat
  )
    requires Recover(main, log, Some(shm)).Rebuilt? && |other| >= INDEX_HEADER
    requires Aligned(at) && OneBlockApart(shm[..INDEX_HEADER], other[..INDEX_HEADER], at)
    ensures Recover(main, log, Some(other)).Invalid?
  {
    hide Recover, Aligned, WordAt, SumStored, IndexOrder;
    AcceptedHeader(main, log, shm);
    HeadersByThemselves(shm, other);
    ChangedHeaderIsFaulty(shm[..INDEX_HEADER], other[..INDEX_HEADER], at);
    FaultyHeaderIsRejected(main, log, other);
  }

  lemma HeadersByThemselves(shm: seq<Byte>, other: seq<Byte>)
    requires |shm| >= INDEX_HEADER && |other| >= INDEX_HEADER
    ensures SameHeader(shm[..INDEX_HEADER], shm) && SameHeader(other[..INDEX_HEADER], other)
  {
    HeaderByItself(shm, true);
    HeaderByItself(shm, false);
    HeaderByItself(other, true);
    HeaderByItself(other, false);
  }

  predicate SameHeader(a: seq<Byte>, b: seq<Byte>)
    requires |a| >= INDEX_HEADER && |b| >= INDEX_HEADER
  {
    && IndexOrder(a) == IndexOrder(b)
    && WordAt(a, 0, IndexOrder(a)) == WordAt(b, 0, IndexOrder(b))
    && SumStored(a, IndexOrder(a)) == SumStored(b, IndexOrder(b))
  }
}
