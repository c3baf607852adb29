/**
 * Laying out an ELF image in memory.
 *
 * One reservation takes all loadable segments of a program table; each segment is
 * copied to its page-rounded place, bytes past the end of the file being zero.
 * Every byte of the image is accounted for by the last segment that covers it, so
 * that segments on different pages all read as the file does.  The bytes between a
 * segment's file size and its memory size are copied like the others, although the
 * System V ABI (chapter 5, "Program Header") wants zeros there.
 */
module ElfImage {
  import opened Basics

  // ---------- Pages ----------

  const WORD: nat := 0x1_0000_0000_0000_0000

  type Word = x: nat | x < WORD witness 0

  /** A sum as it comes out in a machine word. */
  function Wrap(x: nat): Word {
    x % WORD
  }

  function RoundDown(x: nat, page: nat): nat
    requires page > 0
  {
    x / page * page
  }

  function RoundUp(x: nat, page: nat): nat
    requires page > 0
  {
    RoundDown(x + page - 1, page)
  }

  lemma DivMod(x: nat, page: nat)
    requires page > 0
    ensures x == x / page * page + x % page && 0 <= x % page < page
  {
  }

  lemma QuotientIs(x: nat, page: nat, q: nat, r: nat)
    requires page > 0 && x == q * page + r && r < page
    ensures x / page == q && x % page == r
  {
    var d: int := x / page - q;
    assert d * page == r - x % page by {
      DivMod(x, page);
      assert (x / page) * page - q * page == d * page;
    }
    assert d >= 1 ==> d * page >= page;
    assert d <= -1 ==> d * page + page <= 0;
  }

  lemma RoundDownIs(x: nat, page: nat)
    requires page > 0
    ensures RoundDown(x, page) == x - x % page && RoundDown(x, page) % page == 0
  {
    DivMod(x, page);
    QuotientIs(RoundDown(x, page), page, x / page, 0);
  }

  lemma RoundUpIs(x: nat, page: nat)
    requires page > 0
    ensures x <= RoundUp(x, page) < x + page && RoundUp(x, page) % page == 0
  {
    RoundDownIs(x + page - 1, page);
  }

  /** Multiples of a page are at least a page apart. */
  lemma Apart(a: nat, b: nat, page: nat)
    requires page > 0 && a % page == 0 && b % page == 0 && a < b
    ensures a + page <= b
  {
    DivMod(a, page);
    DivMod(b, page);
    var d: int := b / page - a / page;
    assert d * page == b - a;
    assert d <= 0 ==> d * page <= 0;
    assert d >= 1 ==> d * page >= page;
  }

  lemma RoundUpGrows(x: nat, y: nat, page: nat)
    requires page > 0 && x <= y
    ensures RoundUp(x, page) <= RoundUp(y, page)
  {
    RoundUpIs(x, page);
    RoundUpIs(y, page);
    if RoundUp(y, page) < RoundUp(x, page) {
      Apart(RoundUp(y, page), RoundUp(x, page), page);
    }
  }

  lemma SumAligned(a: nat, b: nat, page: nat)
    requires page > 0 && a % page == 0
    ensures (a + b) % page == b % page
  {
    DivMod(a, page);
    DivMod(b, page);
    var q := a / page + b / page;
    assert q * page == a + b / page * page;
    QuotientIs(a + b, page, q, b % page);
  }

  /** Rounding up does not care about whole pages in front. */
  lemma RoundUpShift(a: nat, x: nat, page: nat)
    requires page > 0 && a % page == 0
    ensures RoundUp(a + x, page) == a + RoundUp(x, page)
  {
    RoundUpIs(a + x, page);
    RoundUpIs(x, page);
    SumAligned(a, RoundUp(x, page), page);
    var p, q := RoundUp(a + x, page), a + RoundUp(x, page);
    if p < q {
      Apart(p, q, page);
    } else if q < p {
      Apart(q, p, page);
    }
  }

  // ---------- Segments ----------

  const PF_X: nat := 1
  const PF_W: nat := 2
  const PF_R: nat := 4

  /** `load` stands for the type `PT_LOAD`. */
  datatype ProgramHeader = ProgramHeader(
    load: bool,
    flags: nat,
    fileOffset: Word,
    memoryOffset: Word,
    fileSize: Word,
    memorySize: Word,
    alignment: Word)

  /** The page size, the offset of the ELF data in the file, and the file. */
  datatype Source = Source(page: nat, offset: Word, file: seq<bv8>)

  /** A page size divides the machine word's range, and the ELF data starts on a page. */
  predicate Paged(c: Source) {
    0 < c.page < WORD && WORD % c.page == 0 && c.offset % c.page == 0
  }

  /** Where a segment's mapping starts in the image, and how long it is. */
  function Place(h: ProgramHeader, page: nat): nat
    requires page > 0
  {
    RoundDown(h.memoryOffset, page)
  }

  function Length(h: ProgramHeader, page: nat): nat
    requires page > 0
  {
    h.memorySize + h.memoryOffset % page
  }

  function PageEnd(h: ProgramHeader, page: nat): nat
    requires page > 0
  {
    Place(h, page) + RoundUp(Length(h, page), page)
  }

  /** Where in the file a mapping starts, in machine words. */
  function FileStart(h: ProgramHeader, c: Source): Word
    requires c.page > 0
  {
    Wrap(c.offset + RoundDown(h.fileOffset, c.page))
  }

  /** Whole pages wrap around to whole pages, so the part of a page is left as it is. */
  lemma WrapAligned(a: nat, r: nat, page: nat)
    requires 0 < page && WORD % page == 0 && a % page == 0 && r < page
    ensures Wrap(a + r) == Wrap(a) + r && Wrap(a) % page == 0
  {
    DivMod(a, WORD);
    DivMod(WORD, page);
    var q := a / WORD;
    assert q * WORD == q * (WORD / page) * page;
    QuotientIs(q * WORD, page, q * (WORD / page), 0);
    SumAligned(q * WORD, Wrap(a), page);
    Apart(Wrap(a), WORD, page);
    QuotientIs(a + r, WORD, q, Wrap(a) + r);
  }

  lemma FileStartIs(h: ProgramHeader, c: Source)
    requires Paged(c)
    ensures FileStart(h, c) + h.fileOffset % c.page == Wrap(c.offset + h.fileOffset)
  {
    RoundDownIs(h.fileOffset, c.page);
    SumAligned(c.offset, RoundDown(h.fileOffset, c.page), c.page);
    WrapAligned(c.offset + RoundDown(h.fileOffset, c.page), h.fileOffset % c.page, c.page);
  }

  lemma PlaceIs(h: ProgramHeader, page: nat)
    requires page > 0
    ensures Place(h, page) % page == 0 && Place(h, page) + h.memoryOffset % page == h.memoryOffset
    ensures Place(h, page) + Length(h, page) == h.memoryOffset + h.memorySize
    ensures PageEnd(h, page) == RoundUp(h.memoryOffset + h.memorySize, page)
    ensures Place(h, page) + Length(h, page) <= PageEnd(h, page)
  {
    RoundDownIs(h.memoryOffset, page);
    RoundUpShift(Place(h, page), Length(h, page), page);
    RoundUpIs(Length(h, page), page);
  }

  // ---------- The reservation ----------

  /** The largest end of a segment, as computed in machine words. */
  function TotalMemory(hs: seq<ProgramHeader>): Word {
    if hs == [] then 0
    else
      var rest, h := TotalMemory(hs[..|hs| - 1]), hs[|hs| - 1];
      if h.load then Max(Wrap(h.memoryOffset + h.memorySize), rest) else rest
  }

  function Reserved(hs: seq<ProgramHeader>, page: nat): nat
    requires page > 0
  {
    RoundDown(Wrap(TotalMemory(hs) + page - 1), page)
  }

  /** A segment's pages end inside the range of a machine word. */
  predicate InRange(h: ProgramHeader, page: nat)
    requires page > 0
  {
    RoundUp(h.memoryOffset + h.memorySize, page) < WORD
  }

  predicate AllInRange(hs: seq<ProgramHeader>, page: nat)
    requires page > 0
  {
    forall i :: 0 <= i < |hs| && hs[i].load ==> InRange(hs[i], page)
  }

  lemma {:induction false} TotalIs(hs: seq<ProgramHeader>, page: nat)
    requires page > 0 && AllInRange(hs, page)
    ensures RoundUp(TotalMemory(hs), page) < WORD
    ensures forall i :: 0 <= i < |hs| && hs[i].load ==> hs[i].memoryOffset + hs[i].memorySize <= TotalMemory(hs)
    decreases |hs|
  {
    if hs == [] {
      RoundUpZero(page);
    } else {
      var n := |hs| - 1;
      TotalIs(hs[..n], page);
      assert hs[n].load ==> InRange(hs[n], page);
      if hs[n].load {
        InRangeEnds(hs[n], page);
      }
      assert forall i :: 0 <= i < n ==> hs[..n][i] == hs[i];
    }
  }

  lemma InRangeEnds(h: ProgramHeader, page: nat)
    requires page > 0 && InRange(h, page)
    ensures Wrap(h.memoryOffset + h.memorySize) == h.memoryOffset + h.memorySize
  {
    RoundUpIs(h.memoryOffset + h.memorySize, page);
  }

  lemma RoundUpZero(page: nat)
    requires page > 0
    ensures RoundUp(0, page) == 0
  {
    QuotientIs(page - 1, page, 0, page - 1);
  }

  /** Below the word's range there is a whole page left above every rounded end. */
  lemma NoCarry(x: nat, page: nat)
    requires 0 < page && WORD % page == 0 && RoundUp(x, page) < WORD
    ensures x + page - 1 < WORD
  {
    RoundUpIs(x, page);
    Apart(RoundUp(x, page), WORD, page);
  }

  /** The reservation holds every segment's pages exactly when none of them leaves the range of a word. */
  lemma ReservationCoversIff(hs: seq<ProgramHeader>, page: nat)
    requires 0 < page && WORD % page == 0
    ensures (forall i :: 0 <= i < |hs| && hs[i].load ==> PageEnd(hs[i], page) <= Reserved(hs, page)) <==> AllInRange(hs, page)
  {
    RoundDownIs(Wrap(TotalMemory(hs) + page - 1), page);
    forall i | 0 <= i < |hs| && hs[i].load
      ensures AllInRange(hs, page) ==> PageEnd(hs[i], page) <= Reserved(hs, page)
      ensures PageEnd(hs[i], page) < WORD <==> InRange(hs[i], page)
    {
      PlaceIs(hs[i], page);
      if AllInRange(hs, page) {
        EndReserved(hs, page, i);
      }
    }
  }

  lemma EndReserved(hs: seq<ProgramHeader>, page: nat, i: nat)
    requires 0 < page && WORD % page == 0 && AllInRange(hs, page) && i < |hs| && hs[i].load
    ensures PageEnd(hs[i], page) <= Reserved(hs, page)
  {
    PlaceIs(hs[i], page);
    TotalIs(hs, page);
    ReservationIs(hs, page);
    RoundUpGrows(hs[i].memoryOffset + hs[i].memorySize, TotalMemory(hs), page);
  }

  lemma ReservationIs(hs: seq<ProgramHeader>, page: nat)
    requires 0 < page && WORD % page == 0 && AllInRange(hs, page)
    ensures Reserved(hs, page) == RoundUp(TotalMemory(hs), page)
  {
    TotalIs(hs, page);
    NoCarry(TotalMemory(hs), page);
  }

  /** A segment across the end of the range: its end wraps around, and one page is reserved. */
  lemma WrappedReservation(h: ProgramHeader)
    requires h == ProgramHeader(true, PF_R, 0, 0xFFFF_FFFF_FFFF_F000, 0, 0x2000, 4096)
    ensures IsPowerOfTwo(h.alignment) && Congruent(h, 4096) && FlagsOk(h.flags)
    ensures Reserved([h], 4096) == 4096 < Place(h, 4096)
  {
    assert [h][..0] == [];
    assert TotalMemory([h]) == 4096;
    assert IsPowerOfTwo(4) && IsPowerOfTwo(16) && IsPowerOfTwo(64) && IsPowerOfTwo(256) && IsPowerOfTwo(1024);
  }

  // ---------- The image ----------

  /** A byte of the file, or zero past its end. */
  function FileByte(file: seq<bv8>, i: nat): bv8 {
    if i < |file| then file[i] else 0
  }

  function FileBytes(file: seq<bv8>, start: nat, length: nat): (r: seq<bv8>)
    ensures |r| == length && forall i :: 0 <= i < length ==> r[i] == FileByte(file, start + i)
  {
    seq(length, i requires i >= 0 => FileByte(file, start + i))
  }

  function Written(image: seq<bv8>, at: nat, bytes: seq<bv8>): (r: seq<bv8>)
    requires at + |bytes| <= |image|
    ensures |r| == |image|
    ensures forall x :: 0 <= x < |image| ==> r[x] == if at <= x < at + |bytes| then bytes[x - at] else image[x]
  {
    image[..at] + bytes + image[at + |bytes|..]
  }

  /** Every segment lies inside the image. */
  ghost predicate Inside(hs: seq<ProgramHeader>, page: nat, size: nat)
    requires page > 0
  {
    forall i :: 0 <= i < |hs| && hs[i].load ==> Place(hs[i], page) + Length(hs[i], page) <= size
  }

  /** The image after the segments have been copied one after the other. */
  function Loaded(c: Source, image: seq<bv8>, hs: seq<ProgramHeader>): (r: seq<bv8>)
    requires c.page > 0 && Inside(hs, c.page, |image|)
    ensures |r| == |image|
  {
    if hs == [] then image
    else
      var rest, h := Loaded(c, image, hs[..|hs| - 1]), hs[|hs| - 1];
      if h.load then Written(rest, Place(h, c.page), FileBytes(c.file, FileStart(h, c), Length(h, c.page))) else rest
  }

  predicate Covers(h: ProgramHeader, page: nat, x: nat)
    requires page > 0
  {
    h.load && Place(h, page) <= x < Place(h, page) + Length(h, page)
  }

  /** Every byte comes from the last segment that covers it. */
  lemma {:induction false} LastWriter(c: Source, image: seq<bv8>, hs: seq<ProgramHeader>, x: nat, j: nat)
    requires c.page > 0 && Inside(hs, c.page, |image|) && x < |image| && j < |hs| && Covers(hs[j], c.page, x)
    requires forall k :: j < k < |hs| ==> !Covers(hs[k], c.page, x)
    ensures var at := FileStart(hs[j], c) + (x - Place(hs[j], c.page));
            Loaded(c, image, hs)[x] == if at < |c.file| then c.file[at] else 0
    decreases |hs|
  {
    var n := |hs| - 1;
    if j < n {
      assert !Covers(hs[n], c.page, x);
      LastWriter(c, image, hs[..n], x, j);
    }
  }

  lemma {:induction false} NoWriter(c: Source, image: seq<bv8>, hs: seq<ProgramHeader>, x: nat)
    requires c.page > 0 && Inside(hs, c.page, |image|) && x < |image|
    requires forall k :: 0 <= k < |hs| ==> !Covers(hs[k], c.page, x)
    ensures Loaded(c, image, hs)[x] == image[x]
    decreases |hs|
  {
    if hs != [] {
      var n := |hs| - 1;
      assert !Covers(hs[n], c.page, x);
      NoWriter(c, image, hs[..n], x);
    }
  }

  ghost predicate PageApart(h: ProgramHeader, g: ProgramHeader, page: nat)
    requires page > 0
  {
    h.load && g.load ==> PageEnd(h, page) <= Place(g, page) || PageEnd(g, page) <= Place(h, page)
  }

  /** No two segments share a page. */
  ghost predicate PagesApart(hs: seq<ProgramHeader>, page: nat)
    requires page > 0
  {
    forall i, j :: 0 <= i < |hs| && 0 <= j < |hs| && i != j ==> PageApart(hs[i], hs[j], page)
  }

  lemma OneCovers(hs: seq<ProgramHeader>, page: nat, j: nat, x: nat)
    requires page > 0 && PagesApart(hs, page) && j < |hs| && Covers(hs[j], page, x)
    ensures forall i :: 0 <= i < |hs| && i != j ==> !Covers(hs[i], page, x)
  {
    PlaceIs(hs[j], page);
    forall i | 0 <= i < |hs| && i != j
      ensures !Covers(hs[i], page, x)
    {
      assert PageApart(hs[i], hs[j], page);
      PlaceIs(hs[i], page);
    }
  }

  /** Memory and file offsets agree within a page. */
  predicate Congruent(h: ProgramHeader, page: nat)
    requires page > 0
  {
    h.memoryOffset % page == h.fileOffset % page
  }

  function SegmentByte(image: seq<bv8>, h: ProgramHeader, k: nat): bv8 {
    if h.memoryOffset + k < |image| then image[h.memoryOffset + k] else 0
  }

  function SegmentFileByte(c: Source, h: ProgramHeader, k: nat): bv8 {
    FileByte(c.file, Wrap(c.offset + h.fileOffset) + k)
  }

  /** On pages of its own a segment reads as the file does, up to its memory size. */
  lemma SegmentReadsAsFile(c: Source, image: seq<bv8>, hs: seq<ProgramHeader>, j: nat, k: nat)
    requires Paged(c) && Inside(hs, c.page, |image|) && PagesApart(hs, c.page)
    requires j < |hs| && hs[j].load && Congruent(hs[j], c.page) && k < hs[j].memorySize
    ensures hs[j].memoryOffset + k < |image|
    ensures SegmentByte(Loaded(c, image, hs), hs[j], k) == SegmentFileByte(c, hs[j], k)
  {
    var h, x := hs[j], hs[j].memoryOffset + k;
    SegmentAt(h, c, k);
    assert x < |image|;
    OneCovers(hs, c.page, j, x);
    LastWriter(c, image, hs, x, j);
    var loaded := Loaded(c, image, hs);
    ReadAt(loaded, h, k);
    var byte := FileByte(c.file, FileStart(h, c) + (x - Place(h, c.page)));
    assert loaded[x] == byte;
    assert byte == SegmentFileByte(c, h, k);
  }

  /** Where a segment's byte is in the image and in the file. */
  lemma SegmentAt(h: ProgramHeader, c: Source, k: nat)
    requires Paged(c) && h.load && Congruent(h, c.page) && k < h.memorySize
    ensures Covers(h, c.page, h.memoryOffset + k)
    ensures FileByte(c.file, FileStart(h, c) + (h.memoryOffset + k - Place(h, c.page))) == SegmentFileByte(c, h, k)
  {
    PlaceIs(h, c.page);
    FileStartIs(h, c);
    var i := FileStart(h, c) + (h.memoryOffset + k - Place(h, c.page));
    assert i == Wrap(c.offset + h.fileOffset) + k;
  }

  lemma ReadAt(image: seq<bv8>, h: ProgramHeader, k: nat)
    requires h.memoryOffset + k < |image|
    ensures SegmentByte(image, h, k) == image[h.memoryOffset + k]
  {
  }

  /** The part of a segment past its file size is zero, as the ABI wants it. */
  ghost predicate ZeroFilled(image: seq<bv8>, h: ProgramHeader) {
    forall k: nat :: h.fileSize <= k < h.memorySize ==> SegmentByte(image, h, k) == 0
  }

  /** It is zero exactly where the file happens to be. */
  lemma ZeroFilledIff(c: Source, image: seq<bv8>, hs: seq<ProgramHeader>, j: nat)
    requires Paged(c) && Inside(hs, c.page, |image|) && PagesApart(hs, c.page)
    requires j < |hs| && hs[j].load && Congruent(hs[j], c.page)
    ensures ZeroFilled(Loaded(c, image, hs), hs[j]) <==> ZeroInFile(c, hs[j])
  {
    forall k: nat | hs[j].fileSize <= k < hs[j].memorySize
      ensures SegmentByte(Loaded(c, image, hs), hs[j], k) == SegmentFileByte(c, hs[j], k)
    {
      SegmentReadsAsFile(c, image, hs, j, k);
    }
    SameZeros(c, Loaded(c, image, hs), hs[j]);
  }

  ghost predicate ZeroInFile(c: Source, h: ProgramHeader) {
    forall k: nat :: h.fileSize <= k < h.memorySize ==> SegmentFileByte(c, h, k) == 0
  }

  lemma SameZeros(c: Source, image: seq<bv8>, h: ProgramHeader)
    requires forall k: nat :: h.fileSize <= k < h.memorySize ==> SegmentByte(image, h, k) == SegmentFileByte(c, h, k)
    ensures ZeroFilled(image, h) <==> ZeroInFile(c, h)
  {
  }

  /** A segment of one byte in the file and two in memory, in a file that goes on. */
  lemma NotZeroFilled(c: Source, image: seq<bv8>, hs: seq<ProgramHeader>)
    requires c == Source(4096, 0, [1, 2]) && |image| == 4096
    requires hs == [ProgramHeader(true, PF_R, 0, 0, 1, 2, 4096)]
    ensures Inside(hs, c.page, |image|) && PagesApart(hs, c.page)
    ensures !ZeroFilled(Loaded(c, image, hs), hs[0])
  {
    ZeroFilledIff(c, image, hs, 0);
    assert SegmentFileByte(c, hs[0], 1) == 2;
  }

  // ---------- Alignment ----------

  predicate IsPowerOfTwo(n: nat) {
    n == 1 || (n > 0 && n % 2 == 0 && IsPowerOfTwo(n / 2))
  }

  function Power(k: nat): nat {
    if k == 0 then 1 else 2 * Power(k - 1)
  }

  lemma IsPowerOfTwoIff(n: nat)
    ensures IsPowerOfTwo(n) <==> exists k: nat :: n == Power(k)
  {
    if IsPowerOfTwo(n) {
      var k := Exponent(n);
    }
    if k: nat :| n == Power(k) {
      PowerIs(k);
    }
  }

  lemma {:induction false} Exponent(n: nat) returns (k: nat)
    requires IsPowerOfTwo(n)
    ensures n == Power(k)
  {
    if n == 1 {
      k := 0;
    } else {
      k := Exponent(n / 2);
      k := k + 1;
    }
  }

  lemma {:induction false} PowerIs(k: nat)
    ensures Power(k) > 0 && IsPowerOfTwo(Power(k))
  {
    if k > 0 {
      PowerIs(k - 1);
      Doubled(Power(k - 1));
    }
  }

  lemma Doubled(n: nat)
    requires IsPowerOfTwo(n)
    ensures IsPowerOfTwo(2 * n)
  {
    assert 2 * n % 2 == 0 && 2 * n / 2 == n;
  }

  lemma {:induction false} PowersDivide(a: nat, b: nat)
    requires IsPowerOfTwo(a) && IsPowerOfTwo(b) && a <= b
    ensures a > 0 && b % a == 0
  {
    if a > 1 {
      PowersDivide(a / 2, b / 2);
      DivMod(b / 2, a / 2);
      var q := b / 2 / (a / 2);
      assert q * a == 2 * (q * (a / 2));
      QuotientIs(b, a, q, 0);
    }
  }

  /** The largest alignment asked for, and at least a page. */
  function MaximumAlignment(hs: seq<ProgramHeader>, page: nat): nat {
    if hs == [] then page
    else
      var rest, h := MaximumAlignment(hs[..|hs| - 1], page), hs[|hs| - 1];
      if h.load then Max(rest, h.alignment) else rest
  }

  ghost predicate PowersOfTwo(hs: seq<ProgramHeader>) {
    forall i :: 0 <= i < |hs| && hs[i].load ==> IsPowerOfTwo(hs[i].alignment)
  }

  lemma {:induction false} MaximumIs(hs: seq<ProgramHeader>, page: nat)
    requires IsPowerOfTwo(page) && PowersOfTwo(hs)
    ensures IsPowerOfTwo(MaximumAlignment(hs, page)) && page <= MaximumAlignment(hs, page)
    ensures forall i :: 0 <= i < |hs| && hs[i].load ==> hs[i].alignment <= MaximumAlignment(hs, page)
    decreases |hs|
  {
    if hs != [] {
      var n := |hs| - 1;
      assert forall i :: 0 <= i < n ==> hs[..n][i] == hs[i];
      MaximumIs(hs[..n], page);
    }
  }

  /** In an image at a multiple of the largest alignment every segment is aligned as it asks. */
  lemma AlignedAsAsked(hs: seq<ProgramHeader>, page: nat, base: nat, j: nat)
    requires IsPowerOfTwo(page) && PowersOfTwo(hs) && MaximumAlignment(hs, page) > 0
    requires base % MaximumAlignment(hs, page) == 0 && j < |hs| && hs[j].load && hs[j].alignment > 0
    ensures (base + hs[j].memoryOffset) % hs[j].alignment == hs[j].memoryOffset % hs[j].alignment
  {
    MaximumIs(hs, page);
    var a, m := hs[j].alignment, MaximumAlignment(hs, page);
    PowersDivide(a, m);
    MultipleOfMultiple(base, m, a);
    SumAligned(base, hs[j].memoryOffset, a);
  }

  lemma MultipleOfMultiple(x: nat, m: nat, a: nat)
    requires a > 0 && m > 0 && x % m == 0 && m % a == 0
    ensures x % a == 0
  {
    DivMod(x, m);
    DivMod(m, a);
    assert x == (x / m) * ((m / a) * a) == ((x / m) * (m / a)) * a;
    QuotientIs(x, a, (x / m) * (m / a), 0);
  }

  // ---------- Loading ----------

  datatype Error = NoError | BadAlignment | NoMemory | BadOffset | BadFlags | NotMapped

  predicate FlagsOk(flags: nat) {
    flags == PF_R + PF_W || flags == PF_R + PF_X || flags == PF_R
  }

  predicate Loadable(h: ProgramHeader, c: Source)
    requires c.page > 0
  {
    h.load ==> Congruent(h, c.page) && FlagsOk(h.flags) && FileStart(h, c) <= |c.file|
  }

  /**
   * A segment can be loaded exactly when file and memory offset agree within a page, it is readable and not
   * both writable and executable, and its first page starts in the file.
   */
  lemma LoadableIff(h: ProgramHeader, c: Source)
    requires Paged(c) && h.load
    ensures Loadable(h, c) <==>
            && h.memoryOffset % c.page == h.fileOffset % c.page && h.flags in {4, 4 + 2, 4 + 1}
            && Wrap(c.offset + h.fileOffset) - h.fileOffset % c.page <= |c.file|
  {
    FileStartIs(h, c);
  }

  ghost predicate AllLoadable(hs: seq<ProgramHeader>, c: Source)
    requires c.page > 0
  {
    forall i :: 0 <= i < |hs| ==> Loadable(hs[i], c)
  }

  /** The three numbers a segment is mapped with. */
  lemma SegmentWords(h: ProgramHeader, c: Source, size: nat)
    requires Paged(c) && |c.file| + size < WORD && Congruent(h, c.page)
    requires Place(h, c.page) + Length(h, c.page) <= size
    ensures h.memoryOffset - h.memoryOffset % c.page == Place(h, c.page)
    ensures h.memorySize + h.memoryOffset % c.page == Length(h, c.page) < WORD
    ensures c.offset + h.fileOffset - h.memoryOffset % c.page >= 0
    ensures Wrap(c.offset + h.fileOffset - h.memoryOffset % c.page) == FileStart(h, c)
    ensures FileStart(h, c) <= |c.file| ==> FileStart(h, c) + Length(h, c.page) < WORD
  {
    RoundDownIs(h.memoryOffset, c.page);
    RoundDownIs(h.fileOffset, c.page);
  }

  /** The reservation holds every segment, in the terms the copying needs. */
  lemma ReservationHolds(hs: seq<ProgramHeader>, page: nat)
    requires 0 < page && WORD % page == 0 && AllInRange(hs, page)
    ensures Inside(hs, page, Reserved(hs, page))
  {
    ReservationCoversIff(hs, page);
    forall i | 0 <= i < |hs| && hs[i].load
      ensures Place(hs[i], page) + Length(hs[i], page) <= Reserved(hs, page)
    {
      PlaceIs(hs[i], page);
    }
  }

  lemma InsideBefore(hs: seq<ProgramHeader>, page: nat, size: nat, i: nat)
    requires page > 0 && Inside(hs, page, size) && i <= |hs|
    ensures Inside(hs[..i], page, size)
  {
  }

  lemma LoadedSnoc(c: Source, image: seq<bv8>, hs: seq<ProgramHeader>, i: nat)
    requires c.page > 0 && Inside(hs, c.page, |image|) && i < |hs|
    ensures Inside(hs[..i], c.page, |image|) && Inside(hs[..i + 1], c.page, |image|)
    ensures var h := hs[i];
            var rest := Loaded(c, image, hs[..i]);
            Loaded(c, image, hs[..i + 1]) ==
            if h.load then Written(rest, Place(h, c.page), FileBytes(c.file, FileStart(h, c), Length(h, c.page))) else rest
  {
    InsideBefore(hs, c.page, |image|, i);
    InsideBefore(hs, c.page, |image|, i + 1);
    assert hs[..i + 1][..i] == hs[..i];
  }

  class LoadedElf {
    const c: Source
    const table: seq<ProgramHeader>
    var image: array<bv8>

    /** `MemoryMappable::Map` into memory that is there. */
    method Map(position: Word, length: Word, start: nat, memory: array<bv8>) returns (ok: bool)
      requires start + length <= memory.Length && (position <= |c.file| ==> position + length < WORD)
      modifies memory
      ensures ok <==> position <= |c.file|
      ensures !ok ==> memory[..] == old(memory[..])
      ensures ok ==> memory[..] == Written(old(memory[..]), start, FileBytes(c.file, position, length))
    {
      if position > |c.file| {
        return false;
      }
      var copied := if Wrap(position + length) > |c.file| then |c.file| - position else length;
      forall i | 0 <= i < copied {
        memory[start + i] := c.file[position + i];
      }
      forall i | copied <= i < length {
        memory[start + i] := 0;
      }
      ok := true;
    }

    /** `MapFilePiece`: fresh memory with the piece in it, and where the piece starts. */
    method MapFilePiece(fileStart: Word, fileLength: Word) returns (mapping: array?<bv8>, start: nat)
      requires Paged(c) && c.offset + fileStart + fileLength + c.page <= WORD
      ensures mapping == null <==> RoundDown(c.offset + fileStart, c.page) > |c.file|
      ensures mapping != null ==>
                && fresh(mapping) && start + fileLength <= mapping.Length
                && mapping[start..start + fileLength] == FileBytes(c.file, c.offset + fileStart, fileLength)
    {
      PieceOk(c, fileStart, fileLength);
      var adjustment := (c.offset + fileStart) % c.page;
      var offset := c.offset + fileStart - adjustment;
      var length := RoundUp(c.offset + fileStart + fileLength, c.page) - offset;
      var memory := new bv8[length](i => 0);
      ghost var zeros := memory[..];
      var ok := Map(offset, length, 0, memory);
      if !ok {
        return null, 0;
      }
      mapping, start := memory, fileStart % c.page;
      PieceBytes(c.file, zeros, offset, length, start, fileLength);
      assert mapping[start..start + fileLength] == mapping[..][start..start + fileLength];
    }

    /** `LoadSegments`; `granted` says whether the reservation could be made. */
    method LoadSegments(granted: bool) returns (error: Error)
      requires Paged(c) && AllInRange(table, c.page) && |c.file| + Reserved(table, c.page) < WORD
      modifies `image
      ensures error == NoError <==> granted && PowersOfTwo(table) && AllLoadable(table, c)
      ensures error == BadAlignment <==> !PowersOfTwo(table)
      ensures error == NoMemory <==> PowersOfTwo(table) && !granted
      ensures error == NoError ==>
                && image.Length == Reserved(table, c.page) && Inside(table, c.page, image.Length)
                && image[..] == Loaded(c, seq(image.Length, i => 0), table)
    {
      var total, aligned := Reserve();
      if !aligned {
        return BadAlignment;
      }
      if !granted {
        return NoMemory;
      }
      ReservationHolds(table, c.page);
      image := new bv8[total](i => 0);
      assert image[..] == seq(total, i => 0);
      error := CopySegments();
    }

    /** The second loop: every segment to its place, until one fails its checks. */
    method CopySegments() returns (error: Error)
      requires Paged(c) && |c.file| + image.Length < WORD && Inside(table, c.page, image.Length)
      modifies image
      ensures error == NoError <==> AllLoadable(table, c)
      ensures error in {NoError, BadOffset, BadFlags, NotMapped}
      ensures error == NoError ==> image[..] == Loaded(c, old(image[..]), table)
    {
      ghost var was := image[..];
      InsideBefore(table, c.page, |was|, 0);
      assert table[..0] == [];
      var i := 0;
      while i < |table|
        invariant 0 <= i <= |table|
        invariant Inside(table[..i], c.page, |was|) && image[..] == Loaded(c, was, table[..i])
        invariant AllLoadable(table[..i], c)
      {
        LoadedSnoc(c, was, table, i);
        error := LoadSegment(table[i]);
        if error != NoError {
          assert !Loadable(table[i], c);
          return;
        }
        i := i + 1;
      }
      assert table[..|table|] == table;
      error := NoError;
    }

    /** The first loop: the size of the reservation, unless an alignment is no power of two. */
    method Reserve() returns (total: nat, aligned: bool)
      requires c.page > 0
      ensures aligned <==> PowersOfTwo(table)
      ensures aligned ==> total == Reserved(table, c.page)
    {
      total := 0;
      var i := 0;
      assert table[..0] == [];
      while i < |table|
        invariant 0 <= i <= |table| && total == TotalMemory(table[..i]) && PowersOfTwo(table[..i])
      {
        assert table[..i + 1][..i] == table[..i];
        if table[i].load {
          total := Max(Wrap(table[i].memoryOffset + table[i].memorySize), total);
          if !IsPowerOfTwo(table[i].alignment) {
            return 0, false;
          }
        }
        i := i + 1;
      }
      assert table[..|table|] == table;
      total := RoundDown(Wrap(total + c.page - 1), c.page);
      aligned := true;
    }

    /** A segment's numbers, moved back to the start of its first page. */
    method Adjusted(h: ProgramHeader) returns (fileStart: Word, length: Word, place: nat)
      requires Paged(c) && |c.file| + image.Length < WORD && Congruent(h, c.page)
      requires Place(h, c.page) + Length(h, c.page) <= image.Length
      ensures fileStart == FileStart(h, c) && length == Length(h, c.page) && place == Place(h, c.page)
      ensures fileStart <= |c.file| ==> fileStart + length < WORD
    {
      SegmentWords(h, c, image.Length);
      var adjustment := h.memoryOffset % c.page;
      fileStart := Wrap(c.offset + h.fileOffset - adjustment);
      length := h.memorySize + adjustment;
      place := h.memoryOffset - adjustment;
    }

    /** The checks a segment has to pass before it is mapped. */
    method CheckSegment(h: ProgramHeader) returns (error: Error)
      requires c.page > 0
      ensures error == NoError <==> Congruent(h, c.page) && FlagsOk(h.flags)
      ensures error == BadOffset <==> h.memoryOffset % c.page != h.fileOffset % c.page
      ensures error in {NoError, BadOffset, BadFlags}
    {
      if h.memoryOffset % c.page != h.fileOffset % c.page {
        return BadOffset;
      }
      error := if FlagsOk(h.flags) then NoError else BadFlags;
    }

    /** One turn of the second loop. */
    method LoadSegment(h: ProgramHeader) returns (error: Error)
      requires Paged(c) && |c.file| + image.Length < WORD
      requires h.load ==> Place(h, c.page) + Length(h, c.page) <= image.Length
      modifies image
      ensures error == NoError <==> Loadable(h, c)
      ensures error in {NoError, BadOffset, BadFlags, NotMapped}
      ensures error == NoError ==>
                image[..] ==
                if h.load then
                  Written(old(image[..]), Place(h, c.page), FileBytes(c.file, FileStart(h, c), Length(h, c.page)))
                else old(image[..])
    {
      if !h.load {
        return NoError;
      }
      error := CheckSegment(h);
      if error != NoError {
        return;
      }
      var fileStart, length, place := Adjusted(h);
      var mapped := Map(fileStart, length, place, image);
      error := if mapped then NoError else NotMapped;
    }
  }

  /** The piece's pages hold it, and it starts where the remainder of its own offset says. */
  lemma PieceOk(c: Source, fileStart: nat, fileLength: nat)
    requires Paged(c)
    ensures var at := c.offset + fileStart;
            var offset := at - at % c.page;
            && offset == RoundDown(at, c.page) && offset % c.page == 0
            && 0 <= offset <= at && at + fileLength <= RoundUp(at + fileLength, c.page) < at + fileLength + c.page
            && at - offset == fileStart % c.page
  {
    var at := c.offset + fileStart;
    RoundDownIs(at, c.page);
    RoundUpIs(at + fileLength, c.page);
    SumAligned(c.offset, fileStart, c.page);
  }

  lemma PieceBytes(file: seq<bv8>, memory: seq<bv8>, offset: nat, length: nat, start: nat, count: nat)
    requires |memory| == length && start + count <= length
    ensures Written(memory, 0, FileBytes(file, offset, length))[start..start + count] == FileBytes(file, offset + start, count)
  {
    var written, piece := Written(memory, 0, FileBytes(file, offset, length)), FileBytes(file, offset + start, count);
    forall i | 0 <= i < count
      ensures written[start + i] == piece[i]
    {
      assert FileBytes(file, offset, length)[start + i] == FileByte(file, offset + start + i);
    }
  }

  /** Without the alignment check the address returned would be wrong, for every piece. */
  lemma PieceAddressIff(c: Source, fileStart: nat)
    requires c.page > 0
    ensures (c.offset + fileStart) % c.page == fileStart % c.page <==> c.offset % c.page == 0
  {
    if c.offset % c.page == 0 {
      SumAligned(c.offset, fileStart, c.page);
    } else if (c.offset + fileStart) % c.page == fileStart % c.page {
      DivMod(c.offset + fileStart, c.page);
      DivMod(fileStart, c.page);
      var q := (c.offset + fileStart) / c.page - fileStart / c.page;
      assert q * c.page == c.offset;
      assert q < 0 ==> q * c.page < 0;
      QuotientIs(c.offset, c.page, q, 0);
    }
  }
}
