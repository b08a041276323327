/** Loading a static ELF executable: its segments become user pages with the file's bytes and zeros, as
    chapter 5 of the System V gABI describes the program headers. */
module ElfImage {
  import opened Basics

  const PAGE := 4096
  const USER_SPACE_END := 0x0000_8000_0000_0000
  const WORD := 0x1_0000_0000_0000_0000
  const ET_EXEC := 2
  const EM_X86_64 := 0x3E
  const PT_LOAD := 1
  const PH_ENTRY_SIZE := 56

  datatype ElfError =
    | TooSmall | BadMagic | NotElf64 | NotExecutable | NotX86_64 | BadProgramHeaderSize
    | SegmentOutOfFile | FileSizeExceedsMemSize | SegmentNotInUserSpace | SegmentOverlapsExisting

  datatype Result<T> = Ok(value: T) | Err(error: ElfError)

  // --- reading the file ---

  /** A little-endian field of `n` bytes, if it lies within the file. */
  function Read(bytes: seq<byte>, off: nat, n: nat): (r: Result<nat>)
    ensures r.Ok? <==> off + n <= |bytes|
    ensures r.Err? ==> r.error == TooSmall
  {
    if off + n <= |bytes| then Ok(Value(bytes[off..off + n])) else Err(TooSmall)
  }

  /** A field that is known to be there. */
  function Field(bytes: seq<byte>, off: nat, n: nat): nat
    requires off + n <= |bytes|
  {
    Value(bytes[off..off + n])
  }

  datatype Header = Header(entry: nat, phoff: nat, phentsize: nat, phnum: nat)

  /** The checks on the file header, in order. */
  function ParseHeader(bytes: seq<byte>): (r: Result<Header>)
    ensures r.Ok? ==>
              && PH_ENTRY_SIZE <= r.value.phentsize
              && r.value.phoff + r.value.phnum * r.value.phentsize <= |bytes|
  {
    if |bytes| < 64 then Err(TooSmall)
    else if bytes[0..4] != [0x7F, 0x45, 0x4C, 0x46] then Err(BadMagic)
    else if bytes[4] != 2 then Err(NotElf64)
    else if Field(bytes, 0x10, 2) != ET_EXEC then Err(NotExecutable)
    else if Field(bytes, 0x12, 2) != EM_X86_64 then Err(NotX86_64)
    else
      var h := Header(Field(bytes, 0x18, 8), Field(bytes, 0x20, 8), Field(bytes, 0x36, 2), Field(bytes, 0x38, 2));
      if h.phentsize < PH_ENTRY_SIZE then Err(BadProgramHeaderSize)
      else if h.phoff + h.phnum * h.phentsize >= WORD then Err(TooSmall)
      else if h.phoff + h.phnum * h.phentsize > |bytes| then Err(TooSmall)
      else Ok(h)
  }

  datatype Segment = Segment(kind: nat, offset: nat, vaddr: nat, filesz: nat, memsz: nat)

  lemma EntryInFile(bytes: seq<byte>, h: Header, i: nat)
    requires ParseHeader(bytes) == Ok(h) && i < h.phnum
    ensures h.phoff + i * h.phentsize + PH_ENTRY_SIZE <= |bytes|
  {
    assert i * h.phentsize + h.phentsize == (i + 1) * h.phentsize <= h.phnum * h.phentsize;
  }

  function SegmentAt(bytes: seq<byte>, h: Header, i: nat): Segment
    requires ParseHeader(bytes) == Ok(h) && i < h.phnum
  {
    EntryInFile(bytes, h, i);
    var ph := h.phoff + i * h.phentsize;
    Segment(Field(bytes, ph, 4), Field(bytes, ph + 0x08, 8), Field(bytes, ph + 0x10, 8),
            Field(bytes, ph + 0x20, 8), Field(bytes, ph + 0x28, 8))
  }

  /** The checks on a loadable segment, in order. */
  function CheckSegment(bytes: seq<byte>, s: Segment): (r: Option<ElfError>)
    ensures r.None? <==>
            s.offset + s.filesz <= |bytes| && s.offset + s.filesz < WORD && s.filesz <= s.memsz &&
            s.vaddr + s.memsz <= USER_SPACE_END
  {
    if s.offset + s.filesz >= WORD || s.offset + s.filesz > |bytes| then Some(SegmentOutOfFile)
    else if s.filesz > s.memsz then Some(FileSizeExceedsMemSize)
    else if s.vaddr + s.memsz >= WORD || s.vaddr + s.memsz > USER_SPACE_END then Some(SegmentNotInUserSpace)
    else None
  }

  // --- what the image is ---

  predicate Loads(s: Segment) { s.kind == PT_LOAD && s.memsz > 0 }

  predicate Covers(s: Segment, a: nat) { Loads(s) && s.vaddr <= a < s.vaddr + s.memsz }

  /** The byte a segment puts at an address: from the file, or zero past it. */
  function SegmentByte(bytes: seq<byte>, s: Segment, a: nat): byte
    requires Covers(s, a) && CheckSegment(bytes, s).None?
  {
    if a - s.vaddr < s.filesz then bytes[s.offset + (a - s.vaddr)] else 0
  }

  predicate Touches(s: Segment, p: nat) {
    Loads(s) && s.vaddr / PAGE <= p <= (s.vaddr + s.memsz - 1) / PAGE
  }

  /** The pages a segment lies on, up to page `hi`. */
  ghost function PagesBelow(s: Segment, hi: nat): set<nat> {
    set p | 0 <= p < hi && Touches(s, p)
  }

  ghost function PagesOf(s: Segment): set<nat> { PagesBelow(s, (s.vaddr + s.memsz) / PAGE + 1) }

  lemma PagesOfAre(s: Segment, p: nat)
    ensures p in PagesOf(s) <==> Touches(s, p)
  {
  }

  /** The pages of the first `n` segments. */
  ghost function CoverPages(bytes: seq<byte>, h: Header, n: nat): set<nat>
    requires ParseHeader(bytes) == Ok(h) && n <= h.phnum
  {
    if n == 0 then {} else CoverPages(bytes, h, n - 1) + PagesOf(SegmentAt(bytes, h, n - 1))
  }

  /** All segments among the first `n` that are loaded passed their checks. */
  ghost predicate Checked(bytes: seq<byte>, h: Header, n: nat)
    requires ParseHeader(bytes) == Ok(h) && n <= h.phnum
  {
    forall i :: 0 <= i < n && SegmentAt(bytes, h, i).kind == PT_LOAD ==>
      CheckSegment(bytes, SegmentAt(bytes, h, i)).None?
  }

  /** What the first `n` segments put at an address: the last of them that covers it decides. */
  ghost function ImageByte(bytes: seq<byte>, h: Header, n: nat, a: nat): Option<byte>
    requires ParseHeader(bytes) == Ok(h) && n <= h.phnum && Checked(bytes, h, n)
  {
    if n == 0 then None
    else if Covers(SegmentAt(bytes, h, n - 1), a) then Some(SegmentByte(bytes, SegmentAt(bytes, h, n - 1), a))
    else ImageByte(bytes, h, n - 1, a)
  }

  /** With disjoint segments every byte of every segment is in the image. */
  lemma {:induction false} DisjointImage(bytes: seq<byte>, h: Header, n: nat, i: nat, a: nat)
    requires ParseHeader(bytes) == Ok(h) && i < n <= h.phnum && Checked(bytes, h, n)
    requires Covers(SegmentAt(bytes, h, i), a)
    requires forall j, k :: 0 <= j < k < n ==> !(Covers(SegmentAt(bytes, h, j), a) && Covers(SegmentAt(bytes, h, k), a))
    ensures ImageByte(bytes, h, n, a) == Some(SegmentByte(bytes, SegmentAt(bytes, h, i), a))
  {
    if i < n - 1 {
      assert !(Covers(SegmentAt(bytes, h, i), a) && Covers(SegmentAt(bytes, h, n - 1), a));
      DisjointImage(bytes, h, n - 1, i, a);
    }
  }

  /** Segment `i` is a load segment of the file with address `a` in it. */
  ghost predicate Reaches(bytes: seq<byte>, h: Header, i: nat, a: nat)
    requires ParseHeader(bytes) == Ok(h) && i < h.phnum
  {
    var s := SegmentAt(bytes, h, i);
    s.kind == 1 && s.vaddr <= a < s.vaddr + s.memsz
  }

  lemma LastChecked(bytes: seq<byte>, h: Header, n: nat)
    requires ParseHeader(bytes) == Ok(h) && 0 < n <= h.phnum && Checked(bytes, h, n)
    ensures Checked(bytes, h, n - 1)
    ensures var s := SegmentAt(bytes, h, n - 1);
            s.kind == 1 ==> CheckSegment(bytes, s).None? && s.offset + s.filesz <= |bytes|
  {
    hide ParseHeader, SegmentAt;
  }

  /** The image at an address is the file byte, or the zero past the file bytes, of the last load segment
      that reaches it, and there is none where no segment does. */
  lemma {:induction false} LastSegment(bytes: seq<byte>, h: Header, n: nat, a: nat)
    requires ParseHeader(bytes) == Ok(h) && n <= h.phnum && Checked(bytes, h, n)
    ensures ImageByte(bytes, h, n, a).None? <==> forall i: nat :: i < n ==> !Reaches(bytes, h, i, a)
    ensures forall i: nat ::
              i < n && Reaches(bytes, h, i, a) && (forall k: nat :: i < k < n ==> !Reaches(bytes, h, k, a)) ==>
              var s, r := SegmentAt(bytes, h, i), ImageByte(bytes, h, n, a);
              && r.Some?
              && (a < s.vaddr + s.filesz ==>
                    s.offset + (a - s.vaddr) < |bytes| && r.value == bytes[s.offset + (a - s.vaddr)])
              && (a >= s.vaddr + s.filesz ==> r.value == 0)
  {
    hide ParseHeader, SegmentAt, CheckSegment;
    if n > 0 {
      LastChecked(bytes, h, n);
      LastSegment(bytes, h, n - 1, a);
      assert Reaches(bytes, h, n - 1, a) <==> Covers(SegmentAt(bytes, h, n - 1), a);
    }
  }

  // --- memory ---

  /** Memory as the process sees it: user pages by page number. */
  predicate Paged(pages: map<nat, seq<byte>>) { forall p :: p in pages ==> |pages[p]| == PAGE }

  function ByteAt(pages: map<nat, seq<byte>>, a: nat): Option<byte>
    requires Paged(pages)
  {
    if a / PAGE in pages then Some(pages[a / PAGE][a % PAGE]) else None
  }

  function Stored(pages: map<nat, seq<byte>>, a: nat, b: byte): map<nat, seq<byte>>
    requires Paged(pages) && a / PAGE in pages
  {
    var page: seq<byte> := pages[a / PAGE][a % PAGE := b];
    pages[a / PAGE := page]
  }

  lemma StoredOne(pages: map<nat, seq<byte>>, a: nat, b: byte)
    requires Paged(pages) && a / PAGE in pages
    ensures var pages' := Stored(pages, a, b);
            Paged(pages') && forall x: nat :: ByteAt(pages', x) == if x == a then Some(b) else ByteAt(pages, x)
  {
    var pages' := Stored(pages, a, b);
    forall x: nat ensures ByteAt(pages', x) == if x == a then Some(b) else ByteAt(pages, x) {
      assert x == x / PAGE * PAGE + x % PAGE && a == a / PAGE * PAGE + a % PAGE;
    }
  }

  class Space {
    var pages: map<nat, seq<byte>>
    /** What the frames still to be handed out contain. */
    var frames: seq<seq<byte>>

    ghost predicate Valid()
      reads this
    {
      Paged(pages) && forall i :: 0 <= i < |frames| ==> |frames[i]| == PAGE
    }

    /** Writes one byte of a mapped page. */
    method Store(a: nat, b: byte)
      requires Valid() && a / PAGE in pages
      modifies this`pages
      ensures Valid() && pages.Keys == old(pages).Keys
      ensures forall x: nat :: ByteAt(pages, x) == if x == a then Some(b) else ByteAt(old(pages), x)
      ensures forall p :: p in pages && p != a / PAGE ==> pages[p] == old(pages)[p]
    {
      StoredOne(pages, a, b);
      pages := Stored(pages, a, b);
    }

    /** Maps a fresh page; without a frame left the kernel aborts. */
    method MapUserPage(p: nat) returns (ok: bool)
      requires Valid() && p !in pages
      modifies this
      ensures Valid() && (ok <==> old(frames) != [])
      ensures ok ==> frames == old(frames)[1..] && pages == old(pages)[p := old(frames)[0]]
      ensures !ok ==> frames == old(frames) && pages == old(pages)
    {
      if frames == [] { return false; }
      pages := pages[p := frames[0]];
      frames := frames[1..];
      ok := true;
    }

    /** Copies `filesz` bytes of the file to `[vaddr, ...)` and zeroes the rest of the segment. */
    method Fill(bytes: seq<byte>, s: Segment)
      requires Valid() && Loads(s) && CheckSegment(bytes, s).None?
      requires forall p: nat :: Touches(s, p) ==> p in pages
      modifies this`pages
      ensures Valid() && Filled(bytes, s, old(pages), pages)
    {
      var k := 0;
      while k < s.memsz
        invariant 0 <= k <= s.memsz && Valid() && pages.Keys == old(pages).Keys
        invariant forall x: nat :: ByteAt(pages, x) ==
                    if Covers(s, x) && x < s.vaddr + k then Some(SegmentByte(bytes, s, x)) else ByteAt(old(pages), x)
        invariant forall p: nat :: p in pages && !Touches(s, p) ==> pages[p] == old(pages)[p]
      {
        OnItsPage(s, s.vaddr + k);
        Store(s.vaddr + k, if k < s.filesz then bytes[s.offset + k] else 0);
        k := k + 1;
      }
    }

    /** One page of a segment: skipped if this load mapped it, refused if somebody else did. */
    method MapOne(p: nat, mapped: set<nat>, ghost pages0: map<nat, seq<byte>>) returns (r: MapResult, now: set<nat>)
      requires Valid() && Fresh(pages0, pages, mapped)
      modifies this
      ensures Valid() && Fresh(pages0, pages, now) && |frames| + |now| == |old(frames)| + |mapped|
      ensures Kept(old(pages), pages) && (r == Done ==> now == mapped + {p})
      ensures r == Overlap ==> p in pages0
      ensures r == NoFrames ==> frames == []
    {
      hide Fresh, Kept, Paged;
      KeptSelf(pages);
      now := mapped;
      if p in mapped {
        assert mapped + {p} == mapped;
        return Done, now;
      }
      FreshIn(pages0, pages, mapped, p);
      if p in pages { return Overlap, now; }
      if frames != [] { FreshMore(pages0, pages, mapped, p, frames[0]); }
      var ok := MapUserPage(p);
      if !ok { return NoFrames, now; }
      now := mapped + {p};
      r := Done;
    }

    /** Maps the segment's pages, skipping those this load has mapped already. */
    method MapSegment(s: Segment, mapped: set<nat>, ghost pages0: map<nat, seq<byte>>)
        returns (r: MapResult, now: set<nat>)
      requires Valid() && Loads(s) && Fresh(pages0, pages, mapped)
      modifies this
      ensures Valid() && Fresh(pages0, pages, now) && |frames| + |now| == |old(frames)| + |mapped|
      ensures Kept(old(pages), pages) && (r == Done ==> now == mapped + PagesOf(s))
      ensures r == Overlap ==> exists p :: p in PagesOf(s) && p in pages0
      ensures r == NoFrames ==> frames == []
    {
      hide Fresh, PagesBelow, PagesOf, Kept, Paged, Touches;
      ghost var pages1 := pages;
      KeptSelf(pages1);
      now := mapped;
      var first, last := s.vaddr / PAGE, (s.vaddr + s.memsz - 1) / PAGE;
      TouchesAre(s, first, last);
      NoPages(s);
      var p := first;
      while p <= last
        invariant first <= p <= last + 1 && Valid() && Fresh(pages0, pages, now) && Kept(pages1, pages)
        invariant now == mapped + PagesBelow(s, p) && |frames| + |now| == |old(frames)| + |mapped|
      {
        PageMore(s, p);
        PagesOfAre(s, p);
        ghost var pages2 := pages;
        r, now := MapOne(p, now, pages0);
        KeptTwice(pages1, pages2, pages);
        if r != Done { return; }
        p := p + 1;
      }
      AllPages(s);
      r := Done;
    }

    /** One program header: nothing, a refusal, or a segment mapped and filled. */
    method LoadSegment(bytes: seq<byte>, h: Header, i: nat, mapped: set<nat>, ghost pages0: map<nat, seq<byte>>,
                       ghost count0: nat)
        returns (r: LoadResult, now: set<nat>)
      requires Valid() && ParseHeader(bytes) == Ok(h) && i < h.phnum && Checked(bytes, h, i)
      requires Image(bytes, h, i, pages0, count0, pages, |frames|, mapped)
      modifies this
      ensures Valid() && Kept(pages0, pages)
      ensures r.OutOfFrames? ==> frames == []
      ensures r.Failed? ==> RefusedAt(bytes, h, i, pages0, r.error)
      ensures r.Entry? ==> Checked(bytes, h, i + 1) && Image(bytes, h, i + 1, pages0, count0, pages, |frames|, now)
    {
      hide ParseHeader, SegmentAt, CheckSegment, Image, Fresh, Kept, Checked, Filled, PagesOf, Touches, Paged;
      ImageFresh(bytes, h, i, pages0, count0, pages, |frames|, mapped);
      FreshKept(pages0, pages, mapped);
      now := mapped;
      var s := SegmentAt(bytes, h, i);
      if s.kind == PT_LOAD {
        var bad := CheckSegment(bytes, s);
        if bad.Some? { return Failed(bad.value), now; }
      }
      if !Loads(s) {
        ImageSkip(bytes, h, i, pages0, count0, pages, |frames|, mapped);
        return Entry(h.entry), now;
      }
      ghost var pages1, count1 := pages, |frames|;
      var done;
      done, now := MapSegment(s, mapped, pages0);
      FreshKept(pages0, pages, now);
      if done == NoFrames { return OutOfFrames, now; }
      if done == Overlap { return Failed(SegmentOverlapsExisting), now; }
      ghost var pages2 := pages;
      Mapped(s, now, mapped, pages0, pages);
      Fill(bytes, s);
      ImageMore(bytes, h, i, pages0, count0, pages1, pages2, pages, count1, |frames|, mapped, now);
      ImageFresh(bytes, h, i + 1, pages0, count0, pages, |frames|, now);
      FreshKept(pages0, pages, now);
      r := Entry(h.entry);
    }

    /** Loads the file's segments and returns its entry point. */
    method Load(bytes: seq<byte>) returns (r: LoadResult)
      requires Valid()
      modifies this
      ensures Valid() && Kept(old(pages), pages)
      ensures r.OutOfFrames? ==> frames == []
      ensures r.Entry? ==>
                && ParseHeader(bytes).Ok?
                && var h := ParseHeader(bytes).value;
                   && r.entry == h.entry && Checked(bytes, h, h.phnum)
                   && Image(bytes, h, h.phnum, old(pages), |old(frames)|, pages, |frames|,
                            CoverPages(bytes, h, h.phnum))
      ensures r.Failed? ==> Refused(bytes, old(pages), r.error)
    {
      hide ParseHeader, SegmentAt, CheckSegment, Image, Kept, Checked, RefusedAt;
      KeptSelf(pages);
      var parsed := ParseHeader(bytes);
      if parsed.Err? { return Failed(parsed.error); }
      var h := parsed.value;
      ghost var pages0, count := pages, |frames|;
      var mapped: set<nat> := {};
      NoSegments(bytes, h, pages, count);
      var i := 0;
      while i < h.phnum
        invariant 0 <= i <= h.phnum && Valid() && Kept(pages0, pages) && Checked(bytes, h, i)
        invariant Image(bytes, h, i, pages0, count, pages, |frames|, mapped)
      {
        r, mapped := LoadSegment(bytes, h, i, mapped, pages0, count);
        if !r.Entry? { return; }
        i := i + 1;
      }
      ImagePages(bytes, h, h.phnum, pages0, count, pages, |frames|, mapped);
      r := Entry(h.entry);
    }
  }

  /** Pages that were there are there, unchanged. */
  ghost predicate Kept(before: map<nat, seq<byte>>, pages: map<nat, seq<byte>>) {
    forall p :: p in before ==> p in pages && pages[p] == before[p]
  }

  lemma KeptSelf(pages: map<nat, seq<byte>>)
    ensures Kept(pages, pages)
  {
  }

  lemma KeptTwice(a: map<nat, seq<byte>>, b: map<nat, seq<byte>>, c: map<nat, seq<byte>>)
    requires Kept(a, b) && Kept(b, c)
    ensures Kept(a, c)
  {
  }

  lemma FreshIn(pages0: map<nat, seq<byte>>, pages: map<nat, seq<byte>>, mapped: set<nat>, p: nat)
    requires Fresh(pages0, pages, mapped) && p !in mapped
    ensures p in pages <==> p in pages0
  {
  }

  lemma FreshMore(pages0: map<nat, seq<byte>>, pages: map<nat, seq<byte>>, mapped: set<nat>, p: nat, frame: seq<byte>)
    requires Fresh(pages0, pages, mapped) && p !in pages
    ensures Fresh(pages0, pages[p := frame], mapped + {p}) && Kept(pages, pages[p := frame])
    ensures |mapped + {p}| == |mapped| + 1
  {
    hide Kept;
    KeptMore(pages, p, frame);
    KeysMore(pages0.Keys, pages.Keys, mapped, p);
    KeptTwice(pages0, pages, pages[p := frame]);
    KeysAfter(pages, p, frame);
  }

  lemma KeysAfter(pages: map<nat, seq<byte>>, p: nat, frame: seq<byte>)
    ensures pages[p := frame].Keys == pages.Keys + {p}
  {
  }

  lemma KeptMore(pages: map<nat, seq<byte>>, p: nat, frame: seq<byte>)
    requires p !in pages
    ensures Kept(pages, pages[p := frame])
  {
  }

  lemma KeysMore(keys0: set<nat>, keys: set<nat>, mapped: set<nat>, p: nat)
    requires keys == keys0 + mapped && mapped !! keys0 && p !in keys
    ensures keys + {p} == keys0 + (mapped + {p}) && mapped + {p} !! keys0 && |mapped + {p}| == |mapped| + 1
  {
  }

  lemma ImageFresh(
    bytes: seq<byte>, h: Header, n: nat, pages0: map<nat, seq<byte>>, count0: nat, pages: map<nat, seq<byte>>,
    count: nat, mapped: set<nat>)
    requires ParseHeader(bytes) == Ok(h) && n <= h.phnum && Checked(bytes, h, n) && Paged(pages)
    requires Image(bytes, h, n, pages0, count0, pages, count, mapped)
    ensures Fresh(pages0, pages, mapped)
  {
  }

  lemma FreshKept(pages0: map<nat, seq<byte>>, pages: map<nat, seq<byte>>, mapped: set<nat>)
    requires Fresh(pages0, pages, mapped)
    ensures Kept(pages0, pages)
  {
  }

  lemma NoSegments(bytes: seq<byte>, h: Header, pages: map<nat, seq<byte>>, count: nat)
    requires ParseHeader(bytes) == Ok(h) && Paged(pages)
    ensures Checked(bytes, h, 0) && Image(bytes, h, 0, pages, count, pages, count, {})
  {
    hide ParseHeader;
  }

  lemma ImagePages(
    bytes: seq<byte>, h: Header, n: nat, pages0: map<nat, seq<byte>>, count0: nat, pages: map<nat, seq<byte>>,
    count: nat, mapped: set<nat>)
    requires ParseHeader(bytes) == Ok(h) && n <= h.phnum && Checked(bytes, h, n) && Paged(pages)
    requires Image(bytes, h, n, pages0, count0, pages, count, mapped)
    ensures mapped == CoverPages(bytes, h, n)
  {
  }

  datatype MapResult = Done | Overlap | NoFrames

  datatype LoadResult = Entry(entry: nat) | Failed(error: ElfError) | OutOfFrames

  /** The pages are those of before, untouched but for `mapped`, which are new. */
  ghost predicate Fresh(pages0: map<nat, seq<byte>>, pages: map<nat, seq<byte>>, mapped: set<nat>) {
    mapped !! pages0.Keys && pages.Keys == pages0.Keys + mapped && Kept(pages0, pages)
  }

  /** After `n` segments: exactly their pages are new, each backed by one frame, and every byte they
      cover is in place. */
  ghost predicate Image(
    bytes: seq<byte>, h: Header, n: nat, pages0: map<nat, seq<byte>>, count0: nat, pages: map<nat, seq<byte>>,
    count: nat, mapped: set<nat>)
    requires ParseHeader(bytes) == Ok(h) && n <= h.phnum && Checked(bytes, h, n) && Paged(pages)
  {
    && mapped == CoverPages(bytes, h, n) && Fresh(pages0, pages, mapped) && count + |mapped| == count0
    && InPlace(bytes, h, n, pages)
  }

  ghost predicate InPlace(bytes: seq<byte>, h: Header, n: nat, pages: map<nat, seq<byte>>)
    requires ParseHeader(bytes) == Ok(h) && n <= h.phnum && Checked(bytes, h, n) && Paged(pages)
  {
    forall a: nat :: ImageByte(bytes, h, n, a).Some? ==> ByteAt(pages, a) == ImageByte(bytes, h, n, a)
  }

  /** Segment `i` is the first to be refused, and why. */
  ghost predicate RefusedAt(bytes: seq<byte>, h: Header, i: nat, pages0: map<nat, seq<byte>>, e: ElfError)
    requires ParseHeader(bytes) == Ok(h)
  {
    && i < h.phnum && Checked(bytes, h, i) && SegmentAt(bytes, h, i).kind == PT_LOAD
    && var s := SegmentAt(bytes, h, i);
       || CheckSegment(bytes, s) == Some(e)
       || (e == SegmentOverlapsExisting && exists p :: p in PagesOf(s) && p in pages0)
  }

  ghost predicate Refused(bytes: seq<byte>, pages0: map<nat, seq<byte>>, e: ElfError) {
    match ParseHeader(bytes)
    case Err(e') => e' == e
    case Ok(h) => exists i: nat :: RefusedAt(bytes, h, i, pages0, e)
  }

  lemma TouchesAre(s: Segment, first: nat, last: nat)
    requires Loads(s) && first == s.vaddr / PAGE && last == (s.vaddr + s.memsz - 1) / PAGE
    ensures first <= last && forall p: nat :: Touches(s, p) <==> first <= p <= last
  {
  }

  lemma NoPages(s: Segment)
    ensures PagesBelow(s, s.vaddr / PAGE) == {}
  {
  }

  lemma PageMore(s: Segment, p: nat)
    requires Touches(s, p)
    ensures PagesBelow(s, p + 1) == PagesBelow(s, p) + {p}
  {
  }

  lemma AllPages(s: Segment)
    requires Loads(s)
    ensures PagesBelow(s, (s.vaddr + s.memsz - 1) / PAGE + 1) == PagesOf(s)
  {
    forall p ensures p in PagesBelow(s, (s.vaddr + s.memsz - 1) / PAGE + 1) <==> p in PagesOf(s) {}
  }

  lemma Mapped(s: Segment, now: set<nat>, mapped: set<nat>, pages0: map<nat, seq<byte>>, pages: map<nat, seq<byte>>)
    requires now == mapped + PagesOf(s) && Fresh(pages0, pages, now)
    ensures forall p: nat :: Touches(s, p) ==> p in pages
  {
    forall p: nat | Touches(s, p) ensures p in pages { PagesOfAre(s, p); }
  }

  lemma CheckedMore(bytes: seq<byte>, h: Header, i: nat)
    requires ParseHeader(bytes) == Ok(h) && i < h.phnum && Checked(bytes, h, i)
    requires SegmentAt(bytes, h, i).kind == PT_LOAD ==> CheckSegment(bytes, SegmentAt(bytes, h, i)).None?
    ensures Checked(bytes, h, i + 1)
  {
    hide ParseHeader, SegmentAt, CheckSegment;
  }

  /** A segment that is not loaded changes nothing. */
  lemma ImageSkip(
    bytes: seq<byte>, h: Header, i: nat, pages0: map<nat, seq<byte>>, count0: nat, pages: map<nat, seq<byte>>,
    count: nat,
    mapped: set<nat>)
    requires ParseHeader(bytes) == Ok(h) && i < h.phnum && Checked(bytes, h, i) && Paged(pages)
    requires Image(bytes, h, i, pages0, count0, pages, count, mapped) && !Loads(SegmentAt(bytes, h, i))
    requires SegmentAt(bytes, h, i).kind == PT_LOAD ==> CheckSegment(bytes, SegmentAt(bytes, h, i)).None?
    ensures Checked(bytes, h, i + 1) && Image(bytes, h, i + 1, pages0, count0, pages, count, mapped)
  {
    hide ParseHeader, SegmentAt, CheckSegment, ByteAt, Fresh, PagesOf, Checked, ImageByte, Paged, Loads;
    CheckedMore(bytes, h, i);
    NothingLoaded(SegmentAt(bytes, h, i));
    assert CoverPages(bytes, h, i + 1) == CoverPages(bytes, h, i);
    forall a: nat | ImageByte(bytes, h, i + 1, a).Some? ensures ByteAt(pages, a) == ImageByte(bytes, h, i + 1, a) {
      SkippedByte(bytes, h, i, a);
    }
  }

  lemma SkippedByte(bytes: seq<byte>, h: Header, i: nat, a: nat)
    requires ParseHeader(bytes) == Ok(h) && i < h.phnum && Checked(bytes, h, i + 1) && Checked(bytes, h, i)
    requires !Loads(SegmentAt(bytes, h, i))
    ensures ImageByte(bytes, h, i + 1, a) == ImageByte(bytes, h, i, a)
  {
    hide ParseHeader, SegmentAt, CheckSegment, SegmentByte;
  }

  lemma NothingLoaded(s: Segment)
    requires !Loads(s)
    ensures PagesOf(s) == {}
  {
  }

  /** Mapping and filling a segment adds it to the image. */
  lemma ImageMore(
    bytes: seq<byte>, h: Header, i: nat, pages0: map<nat, seq<byte>>, count0: nat, pages1: map<nat, seq<byte>>,
    pages2: map<nat, seq<byte>>, pages: map<nat, seq<byte>>, count1: nat, count: nat, mapped: set<nat>, now: set<nat>)
    requires ParseHeader(bytes) == Ok(h) && i < h.phnum && Checked(bytes, h, i) && Paged(pages1) && Paged(pages2)
    requires Paged(pages)
    requires Image(bytes, h, i, pages0, count0, pages1, count1, mapped) && count + |now| == count1 + |mapped|
    requires Loads(SegmentAt(bytes, h, i)) && CheckSegment(bytes, SegmentAt(bytes, h, i)).None?
    requires now == mapped + PagesOf(SegmentAt(bytes, h, i)) && Fresh(pages0, pages2, now)
    requires Kept(pages1, pages2) && Filled(bytes, SegmentAt(bytes, h, i), pages2, pages)
    ensures Checked(bytes, h, i + 1) && Image(bytes, h, i + 1, pages0, count0, pages, count, now)
  {
    hide ParseHeader, SegmentAt, CheckSegment, SegmentByte, PagesOf, Touches, Checked, Fresh, Filled, InPlace, Kept,
      Paged, Loads;
    CheckedMore(bytes, h, i);
    var s := SegmentAt(bytes, h, i);
    FilledFresh(bytes, s, pages0, pages2, pages, mapped, now);
    assert now == CoverPages(bytes, h, i + 1);
    InPlaceMore(bytes, h, i, pages1, pages2, pages);
  }

  lemma InPlaceMore(
    bytes: seq<byte>, h: Header, i: nat, pages1: map<nat, seq<byte>>, pages2: map<nat, seq<byte>>,
    pages: map<nat, seq<byte>>)
    requires ParseHeader(bytes) == Ok(h) && i < h.phnum && Checked(bytes, h, i) && Checked(bytes, h, i + 1)
    requires Paged(pages1) && Paged(pages2) && Paged(pages) && Kept(pages1, pages2) && InPlace(bytes, h, i, pages1)
    requires CheckSegment(bytes, SegmentAt(bytes, h, i)).None? && Filled(bytes, SegmentAt(bytes, h, i), pages2, pages)
    ensures InPlace(bytes, h, i + 1, pages)
  {
    hide ParseHeader, SegmentAt, CheckSegment, Checked, Filled, ByteAt, Kept, ImageByte, Paged;
    forall a: nat | ImageByte(bytes, h, i + 1, a).Some? ensures ByteAt(pages, a) == ImageByte(bytes, h, i + 1, a) {
      LoadedByte(bytes, h, i, pages1, pages2, pages, a);
    }
  }

  lemma LoadedByte(
    bytes: seq<byte>, h: Header, i: nat, pages1: map<nat, seq<byte>>, pages2: map<nat, seq<byte>>,
    pages: map<nat, seq<byte>>, a: nat)
    requires ParseHeader(bytes) == Ok(h) && i < h.phnum && Checked(bytes, h, i) && Checked(bytes, h, i + 1)
    requires Paged(pages1) && Paged(pages2) && Paged(pages) && Kept(pages1, pages2)
    requires CheckSegment(bytes, SegmentAt(bytes, h, i)).None? && Filled(bytes, SegmentAt(bytes, h, i), pages2, pages)
    requires ImageByte(bytes, h, i, a).Some? ==> ByteAt(pages1, a) == ImageByte(bytes, h, i, a)
    ensures ImageByte(bytes, h, i + 1, a).Some? ==> ByteAt(pages, a) == ImageByte(bytes, h, i + 1, a)
  {
    hide ParseHeader, SegmentAt, CheckSegment, SegmentByte, Touches, Checked, ByteAt, Kept;
    if ImageByte(bytes, h, i, a).Some? { KeptByte(pages1, pages2, a); }
  }

  /** The segment's bytes are in place, and nothing else changed. */
  ghost predicate Filled(bytes: seq<byte>, s: Segment, before: map<nat, seq<byte>>, pages: map<nat, seq<byte>>)
    requires Paged(before) && Paged(pages) && CheckSegment(bytes, s).None?
  {
    && pages.Keys == before.Keys
    && (forall x: nat :: ByteAt(pages, x) == if Covers(s, x) then Some(SegmentByte(bytes, s, x)) else ByteAt(before, x))
    && (forall p: nat :: p in pages && !Touches(s, p) ==> pages[p] == before[p])
  }

  lemma KeptByte(before: map<nat, seq<byte>>, pages: map<nat, seq<byte>>, a: nat)
    requires Kept(before, pages) && Paged(before) && Paged(pages) && ByteAt(before, a).Some?
    ensures ByteAt(pages, a) == ByteAt(before, a)
  {
  }

  lemma FilledFresh(
    bytes: seq<byte>, s: Segment, pages0: map<nat, seq<byte>>, pages2: map<nat, seq<byte>>, pages: map<nat, seq<byte>>,
    mapped: set<nat>, now: set<nat>)
    requires Paged(pages2) && Paged(pages) && CheckSegment(bytes, s).None? && Filled(bytes, s, pages2, pages)
    requires now == mapped + PagesOf(s) && Fresh(pages0, pages2, now)
    ensures Fresh(pages0, pages, now)
  {
    hide PagesOf, ByteAt, CheckSegment, Touches;
    forall p | p in pages0 ensures p in pages && pages[p] == pages0[p] {
      PagesOfAre(s, p);
    }
  }

  lemma OnItsPage(s: Segment, a: nat)
    requires Covers(s, a)
    ensures Touches(s, a / PAGE)
  {
  }

  /** All pages of the image lie in the user half. */
  lemma {:induction false} BelowUserEnd(bytes: seq<byte>, h: Header, n: nat, p: nat)
    requires ParseHeader(bytes) == Ok(h) && n <= h.phnum && Checked(bytes, h, n) && p in CoverPages(bytes, h, n)
    ensures (p + 1) * PAGE <= USER_SPACE_END
  {
    hide ParseHeader, SegmentAt;
    var s := SegmentAt(bytes, h, n - 1);
    if p in PagesOf(s) {
      PagesOfAre(s, p);
      assert CheckSegment(bytes, s).None?;
    } else {
      BelowUserEnd(bytes, h, n - 1, p);
    }
  }
}
