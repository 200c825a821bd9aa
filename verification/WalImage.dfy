/** Writing the rebuilt image: the main file, with the committed frames copied over it. */
module WalImage {
  import opened Bytes
  import opened WalChecksum
  import opened WalReconstruction

  // ------------------------------------------------------------------ pages of an image

  lemma {:induction false} PageLength(main: seq<Byte>, size: nat, frames: seq<Frame>, p: nat)
    requires 0 < p && size > 0 && AllSound(frames, size)
    ensures |PageOf(main, size, frames, p)| == size
  {
    if frames != [] { PageLength(main, size, frames[..|frames| - 1], p); }
  }

  lemma {:induction false} AssembleLength(main: seq<Byte>, size: nat, frames: seq<Frame>, pages: nat)
    requires size > 0 && AllSound(frames, size)
    ensures |Assemble(main, size, frames, pages)| == Offset(pages, size)
  {
    if pages > 0 {
      AssembleLength(main, size, frames, pages - 1);
      PageLength(main, size, frames, pages);
    }
  }

  ghost predicate PageAt(image: seq<Byte>, size: nat, p: nat, page: seq<Byte>) {
    0 < p && Offset(p, size) <= |image| && image[Offset(p - 1, size)..Offset(p, size)] == page
  }

  /** Page p of an assembled image is the page assembled for p. */
  lemma {:induction false} AssembledPage(main: seq<Byte>, size: nat, frames: seq<Frame>, pages: nat, p: nat)
    requires size > 0 && AllSound(frames, size) && 0 < p <= pages
    ensures PageAt(Assemble(main, size, frames, pages), size, p, PageOf(main, size, frames, p))
  {
    hide PageOf, AllSound;
    var before, page := Assemble(main, size, frames, pages - 1), PageOf(main, size, frames, pages);
    AssembleLength(main, size, frames, pages - 1);
    PageLength(main, size, frames, pages);
    if p < pages {
      AssembledPage(main, size, frames, pages - 1, p);
      OffsetGrows(p - 1, p, size);
      SliceOfPrefix(before, page, Offset(p - 1, size), Offset(p, size));
    } else {
      SliceOfSuffix(before, page);
    }
  }

  lemma SliceOfSuffix(a: seq<Byte>, b: seq<Byte>)
    ensures (a + b)[|a|..|a| + |b|] == b
  {
  }

  lemma SliceOfPrefix(a: seq<Byte>, b: seq<Byte>, lo: nat, hi: nat)
    requires lo <= hi <= |a|
    ensures (a + b)[lo..hi] == a[lo..hi]
  {
  }

  /** What a fresh image holds: the main file's pages, then zeros. */
  lemma NextPage(main: seq<Byte>, size: nat, pages: nat)
    requires size > 0
    ensures Assemble(main, size, [], pages) ==
      if pages == 0 then [] else Assemble(main, size, [], pages - 1) + MainPage(main, size, pages)
  {
  }

  lemma {:induction false} FreshImage(main: seq<Byte>, size: nat, pages: nat, mainPages: nat)
    requires size > 0 && |main| == Offset(mainPages, size)
    ensures Offset(pages, size) <= |main| <==> pages <= mainPages
    ensures Assemble(main, size, [], pages) ==
      if pages <= mainPages then main[..Offset(pages, size)] else main + Zeros(Offset(pages, size) - |main|)
  {
    hide Zeros, Assemble;
    NextPage(main, size, pages);
    if pages > 0 {
      FreshImage(main, size, pages - 1, mainPages);
      if pages <= mainPages {
        OffsetGrows(pages, mainPages, size);
        PrefixGrows(main, Offset(pages - 1, size), Offset(pages, size));
      } else {
        OffsetGrows(mainPages, pages, size);
        ZerosAppended(main, Offset(pages - 1, size) - |main|, size);
        if pages - 1 == mainPages { WholeAndNoZeros(main); }
      }
    } else {
      OffsetGrows(0, mainPages, size);
    }
  }

  lemma PrefixGrows(a: seq<Byte>, lo: nat, hi: nat)
    requires lo <= hi <= |a|
    ensures a[..lo] + a[lo..hi] == a[..hi]
  {
  }

  lemma ZerosAppended(a: seq<Byte>, m: nat, n: nat)
    ensures a + Zeros(m) + Zeros(n) == a + Zeros(m + n)
  {
    ZerosJoin(m, n);
    assert a + Zeros(m) + Zeros(n) == a + (Zeros(m) + Zeros(n));
  }

  lemma WholeAndNoZeros(a: seq<Byte>)
    ensures a[..|a|] == a + Zeros(0)
  {
    assert Zeros(0) == [];
  }

  lemma ZerosJoin(a: nat, b: nat)
    ensures Zeros(a) + Zeros(b) == Zeros(a + b)
  {
  }

  /** The image with one stretch replaced. */
  function Splice(image: seq<Byte>, at: nat, data: seq<Byte>): seq<Byte>
    requires at + |data| <= |image|
  {
    image[..at] + data + image[at + |data|..]
  }

  /** Copying a frame over an image is assembling it with that frame last. */
  lemma {:induction false} WriteFrame(main: seq<Byte>, size: nat, frames: seq<Frame>, f: Frame, pages: nat)
    requires size > 0 && AllSound(frames, size) && SoundFrame(f, size)
    ensures var image := Assemble(main, size, frames, pages);
      Assemble(main, size, frames + [f], pages) ==
        if f.page <= pages && Offset(f.page, size) <= |image| then Splice(image, Offset(f.page - 1, size), f.data)
        else image
    ensures f.page <= pages ==> Offset(f.page, size) <= |Assemble(main, size, frames, pages)|
  {
    hide Splice, PageOf;
    if pages > 0 {
      var before, page := Assemble(main, size, frames, pages - 1), PageOf(main, size, frames, pages);
      WriteFrame(main, size, frames, f, pages - 1);
      PageWritten(main, size, frames, f, pages);
      AssembleLength(main, size, frames, pages - 1);
      PageLength(main, size, frames, pages);
      if f.page < pages {
        OffsetGrows(f.page, pages - 1, size);
        SpliceInPrefix(before, page, Offset(f.page - 1, size), f.data);
      } else if f.page == pages {
        OffsetGrows(pages, pages, size);
        SpliceAtEnd(before, page, f.data);
      }
    }
  }

  lemma PageWritten(main: seq<Byte>, size: nat, frames: seq<Frame>, f: Frame, p: nat)
    requires size > 0 && p > 0
    ensures PageOf(main, size, frames + [f], p) == if f.page == p then f.data else PageOf(main, size, frames, p)
  {
    assert (frames + [f])[..|frames|] == frames;
  }

  lemma SpliceInPrefix(a: seq<Byte>, b: seq<Byte>, at: nat, data: seq<Byte>)
    requires at + |data| <= |a|
    ensures Splice(a + b, at, data) == Splice(a, at, data) + b
  {
  }

  lemma SpliceAtEnd(a: seq<Byte>, b: seq<Byte>, data: seq<Byte>)
    requires |data| == |b|
    ensures Splice(a + b, |a|, data) == a + data
  {
  }

  // ------------------------------------------------------------------------ the copies

  method CopyInto(image: array<Byte>, at: nat, data: seq<Byte>)
    requires at + |data| <= image.Length
    modifies image
    ensures image[..] == Splice(old(image[..]), at, data)
  {
    ghost var was := image[..];
    for n := 0 to |data|
      invariant forall i :: 0 <= i < image.Length ==> image[i] == if at <= i < at + n then data[i - at] else was[i]
    {
      image[at + n] := data[n];
    }
    assert forall i :: 0 <= i < image.Length ==>
      Splice(was, at, data)[i] == if at <= i < at + |data| then data[i - at] else was[i];
  }

  lemma SpliceMain(main: seq<Byte>, n: nat)
    ensures n >= |main| ==> Splice(Zeros(n), 0, main) == main + Zeros(n - |main|)
    ensures n < |main| ==> Splice(Zeros(n), 0, main[..n]) == main[..n]
  {
  }

  /** A zeroed image of so many pages, with the main file copied over as far as it fits. */
  method StartImage(main: seq<Byte>, size: nat, pages: nat, mainPages: nat) returns (image: array<Byte>)
    requires size > 0 && |main| == Offset(mainPages, size)
    ensures fresh(image) && image[..] == Assemble(main, size, [], pages)
  {
    OffsetIsProduct(pages, size);
    image := new Byte[pages * size](_ => 0);
    assert image[..] == Zeros(image.Length);
    FreshImage(main, size, pages, mainPages);
    SpliceMain(main, image.Length);
    CopyInto(image, 0, if |main| <= image.Length then main else main[..image.Length]);
  }

  method ApplyFrames(main: seq<Byte>, size: nat, frames: seq<Frame>, pages: nat, image: array<Byte>)
    returns (supplied: set<nat>)
    requires size > 0 && AllSound(frames, size) && image[..] == Assemble(main, size, [], pages)
    modifies image
    ensures image[..] == Assemble(main, size, frames, pages)
    ensures forall p :: p in supplied <==> Supplied(frames, p)
  {
    supplied := {};
    assert frames[..0] == [];
    for i := 0 to |frames|
      invariant image[..] == Assemble(main, size, frames[..i], pages)
      invariant forall p :: p in supplied <==> Supplied(frames[..i], p)
    {
      var frame := frames[i];
      assert frames[..i + 1] == frames[..i] + [frame];
      WriteFrame(main, size, frames[..i], frame, pages);
      OffsetIsProduct(frame.page - 1, size);
      if frame.page <= pages { CopyInto(image, (frame.page - 1) * size, frame.data); }
      SuppliedGrows(frames[..i], frame);
      supplied := supplied + {frame.page};
    }
    assert frames[..|frames|] == frames;
  }

  lemma SuppliedGrows(frames: seq<Frame>, f: Frame)
    ensures forall p :: Supplied(frames + [f], p) <==> Supplied(frames, p) || p == f.page
  {
    forall p ensures Supplied(frames + [f], p) <==> Supplied(frames, p) || p == f.page {
      if p == f.page { assert (frames + [f])[|frames|].page == p; }
      if i :| 0 <= i < |frames| && frames[i].page == p { assert (frames + [f])[i].page == p; }
    }
  }

  method FindMissing(supplied: set<nat>, frames: seq<Frame>, mainPages: nat, pages: nat) returns (missing: bool)
    requires forall p :: p in supplied <==> Supplied(frames, p)
    ensures missing <==> LeavesMissing(frames, mainPages, pages)
  {
    var page := mainPages + 1;
    while page <= pages
      invariant mainPages < page
      invariant forall p :: mainPages < p < page ==> Supplied(frames, p)
    {
      if page !in supplied { return true; }
      page := page + 1;
    }
    missing := false;
  }

  method RebuildImage(
    main: seq<Byte>, size: nat, frames: seq<Frame>, committedFrames: nat, pages: nat, mainPages: nat, stale: nat
  )
    returns (r: Result)
    requires size > 0 && AllSound(frames, size) && |main| == Offset(mainPages, size)
    requires mainPages == PageCount(|main|, size) && NamesSize(frames, committedFrames, pages, mainPages)
    ensures r == ApplyLog(main, size, frames, stale)
  {
    if committedFrames == 0 { return Rebuilt(Image(main, |frames|, 0, stale)); }
    if pages > mainPages + committedFrames { return Invalid(PagesWithoutSource); }
    var image := StartImage(main, size, pages, mainPages);
    var supplied := ApplyFrames(main, size, frames[..committedFrames], pages, image);
    var missing := FindMissing(supplied, frames[..committedFrames], mainPages, pages);
    if missing { return Invalid(MissingPage); }
    match PageSize(image[..])
    case NoSize(fault) => return Invalid(fault);
    case Size(s) =>
      if s != size { return Invalid(PageSizeChanged); }
      return Rebuilt(Image(image[..], |frames|, committedFrames, stale));
  }

  method Reconstruct(main: seq<Byte>, wal: seq<Byte>) returns (r: Result)
    ensures r == Rebuild(main, wal)
  {
    var sized := PageSize(main);
    if sized.NoSize? { return Invalid(sized.fault); }
    if wal == [] { return Rebuilt(Image(main, 0, 0, 0)); }
    var header := ReadHeader(wal, sized.size);
    if header.BadHeader? { return Invalid(header.fault); }
    WholePages(|main|, sized.size);
    var mainPages := PageCount(|main|, sized.size);
    var log, committedFrames, pages := ReadFrames(wal, sized.size, header, mainPages);
    if log.BadLog? { return Invalid(log.fault); }
    LogIsSound(sized.size, BlockMixer(header.bigEndian), header, wal[LOG_HEADER..]);
    r := RebuildImage(main, sized.size, log.frames, committedFrames, pages, mainPages, log.stale);
  }
}
