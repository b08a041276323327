/** Starting a program: its file is loaded, the page of the initial stack is mapped after it, and the
    arguments are laid out there. */
module Programs {
  import opened Basics
  import opened ElfImage
  import InitialStack
  import Execs
  import Heaps

  const STACK_VA := 0x7F80_1000_0000
  const STACK_PAGE := STACK_VA / PAGE

  datatype Program = Started(entry: nat, rsp: nat) | NoExec(error: ElfError) | TooBig | Abort

  ghost predicate Passes(bytes: seq<byte>) {
    ParseHeader(bytes).Ok? && Checked(bytes, ParseHeader(bytes).value, ParseHeader(bytes).value.phnum)
  }

  /** The pages the file's segments lie on. */
  ghost function FilePages(bytes: seq<byte>): set<nat>
    requires Passes(bytes)
  {
    var h := ParseHeader(bytes).value;
    CoverPages(bytes, h, h.phnum)
  }

  ghost predicate Strings(ss: seq<seq<byte>>) { forall i :: 0 <= i < |ss| ==> InitialStack.CString(ss[i]) }

  /** The program's memory: what was there, the file's pages with all its bytes, and a stack page from
      which the arguments read back. */
  ghost predicate InMemory(
    bytes: seq<byte>, argv: seq<seq<byte>>, envp: seq<seq<byte>>, pages0: map<nat, seq<byte>>,
    pages: map<nat, seq<byte>>, entry: nat, rsp: nat)
  {
    && Passes(bytes) && Paged(pages) && entry == ParseHeader(bytes).value.entry
    && STACK_PAGE !in FilePages(bytes) && STACK_PAGE in pages
    && pages.Keys == pages0.Keys + FilePages(bytes) + {STACK_PAGE} && Kept(pages0, pages)
    && InPlace(bytes, ParseHeader(bytes).value, ParseHeader(bytes).value.phnum, pages)
    && STACK_VA <= rsp && InitialStack.Reads(pages[STACK_PAGE], STACK_VA, rsp, argv, envp)
  }

  /** Loads the file, maps the stack page, lays out the arguments. */
  method Start(s: Space, bytes: seq<byte>, argv: seq<seq<byte>>, envp: seq<seq<byte>>) returns (r: Program)
    requires s.Valid() && Strings(argv) && Strings(envp)
    modifies s
    ensures s.Valid()
    ensures r.Started? ==> InMemory(bytes, argv, envp, old(s.pages), s.pages, r.entry, r.rsp)
    ensures r.NoExec? ==> Refused(bytes, old(s.pages), r.error)
    ensures r.TooBig? ==> Passes(bytes) && !InitialStack.Fits(STACK_VA + PAGE, STACK_VA, argv, envp)
    ensures r.Started? ==> InitialStack.Fits(STACK_VA + PAGE, STACK_VA, argv, envp)
    ensures r.Abort? ==>
              s.frames == [] || STACK_PAGE in old(s.pages) || (Passes(bytes) && STACK_PAGE in FilePages(bytes))
    ensures Passes(bytes) && STACK_PAGE in FilePages(bytes) ==>
              r.Abort? || (r.NoExec? && r.error == SegmentOverlapsExisting)
  {
    hide ParseHeader, Checked, Image, InPlace, CoverPages, Kept, RefusedAt;
    ghost var pages0, count0 := s.pages, |s.frames|;
    var loaded := s.Load(bytes);
    if loaded.OutOfFrames? { return Abort; }
    if loaded.Failed? {
      if Passes(bytes) { RefusedPasses(bytes, pages0, loaded.error); }
      return NoExec(loaded.error);
    }
    ghost var h := ParseHeader(bytes).value;
    ghost var pages1 := s.pages;
    LoadedImage(bytes, h, pages0, count0, pages1, |s.frames|);
    if STACK_PAGE in s.pages { return Abort; }
    var ok := s.MapUserPage(STACK_PAGE);
    if !ok { return Abort; }
    var bare := s.pages[STACK_PAGE];
    var page := new byte[PAGE](i requires 0 <= i < |bare| => bare[i]);
    var rsp := InitialStack.BuildUserStack(page, STACK_VA, argv, envp);
    if rsp.None? { return TooBig; }
    s.pages := s.pages[STACK_PAGE := page[..]];
    StackAdded(bytes, h, pages0, pages1, s.pages);
    r := Started(loaded.entry, rsp.value);
  }

  lemma RefusedPasses(bytes: seq<byte>, pages0: map<nat, seq<byte>>, e: ElfError)
    requires Refused(bytes, pages0, e) && Passes(bytes)
    ensures e == SegmentOverlapsExisting
  {
    hide ParseHeader, CheckSegment, SegmentAt;
    var h := ParseHeader(bytes).value;
    var i: nat :| RefusedAt(bytes, h, i, pages0, e);
    assert CheckSegment(bytes, SegmentAt(bytes, h, i)).None?;
  }

  lemma LoadedImage(
    bytes: seq<byte>, h: Header, pages0: map<nat, seq<byte>>, count0: nat, pages: map<nat, seq<byte>>, count: nat)
    requires ParseHeader(bytes) == Ok(h) && Checked(bytes, h, h.phnum) && Paged(pages)
    requires Image(bytes, h, h.phnum, pages0, count0, pages, count, CoverPages(bytes, h, h.phnum))
    ensures Passes(bytes) && pages.Keys == pages0.Keys + FilePages(bytes) && Kept(pages0, pages)
    ensures InPlace(bytes, h, h.phnum, pages)
  {
    hide ParseHeader, Checked, InPlace, CoverPages, Kept;
  }

  lemma StackAdded(
    bytes: seq<byte>, h: Header, pages0: map<nat, seq<byte>>, pages1: map<nat, seq<byte>>, pages: map<nat, seq<byte>>)
    requires ParseHeader(bytes) == Ok(h) && Checked(bytes, h, h.phnum) && Paged(pages1) && Paged(pages)
    requires STACK_PAGE !in pages1 && pages.Keys == pages1.Keys + {STACK_PAGE}
    requires forall p :: p in pages1 ==> pages[p] == pages1[p]
    requires Kept(pages0, pages1) && InPlace(bytes, h, h.phnum, pages1)
    ensures Kept(pages0, pages) && InPlace(bytes, h, h.phnum, pages)
  {
    hide ParseHeader, Checked, ImageByte;
    forall a: nat | ImageByte(bytes, h, h.phnum, a).Some? ensures ByteAt(pages, a) == ImageByte(bytes, h, h.phnum, a) {
      assert ByteAt(pages1, a) == ImageByte(bytes, h, h.phnum, a);
      assert a / PAGE in pages1;
    }
  }

  // --- what the checks on a segment let through ---

  /** A segment of one zeroed page, at any page of the user half, passes the loader's checks. */
  lemma PagePasses(bytes: seq<byte>, page: nat)
    requires page * PAGE + PAGE <= USER_SPACE_END
    ensures var s := Segment(PT_LOAD, 0, page * PAGE, 0, PAGE);
            CheckSegment(bytes, s).None? && PagesOf(s) == {page}
  {
    var s := Segment(PT_LOAD, 0, page * PAGE, 0, PAGE);
    forall p: nat ensures p in PagesOf(s) <==> p == page {
      PagesOfAre(s, p);
    }
  }

  // --- where the fields of a file lie ---

  /** The ELF64 file header: class, type, machine, entry, place, size and number of the program headers; and
      between them fields nobody reads. */
  ghost function FileHead(
    class_: byte, ident: seq<byte>, kind: nat, machine: nat, version: seq<byte>, h: Header, middle: seq<byte>,
    tail: seq<byte>): seq<byte>
  {
    [0x7F, 0x45, 0x4C, 0x46, class_] + ident + (InitialStack.Bytes(kind, 2) + (InitialStack.Bytes(machine, 2)
    + (version + (InitialStack.Bytes(h.entry, 8) + (InitialStack.Bytes(h.phoff, 8) + (middle
    + (InitialStack.Bytes(h.phentsize, 2) + (InitialStack.Bytes(h.phnum, 2) + tail))))))))
  }

  /** The ELF64 program header: kind, flags, offset, virtual and physical address, size in the file and in
      memory, alignment. */
  ghost function EntryOf(s: Segment, flags: nat, paddr: nat, align: nat): (r: seq<byte>)
    ensures |r| == PH_ENTRY_SIZE
  {
    InitialStack.Bytes(s.kind, 4) + (InitialStack.Bytes(flags, 4) + (InitialStack.Bytes(s.offset, 8)
    + (InitialStack.Bytes(s.vaddr, 8) + (InitialStack.Bytes(paddr, 8) + (InitialStack.Bytes(s.filesz, 8)
    + (InitialStack.Bytes(s.memsz, 8) + InitialStack.Bytes(align, 8)))))))
  }

  /** Reading on: the field at `off`, and what follows it. */
  lemma Advance(bytes: seq<byte>, off: nat, a: seq<byte>, rest: seq<byte>)
    requires off <= |bytes| && bytes[off..] == a + rest
    ensures off + |a| <= |bytes| && bytes[off + |a|..] == rest && Field(bytes, off, |a|) == Value(a)
  {
    assert bytes[off + |a|..] == bytes[off..][|a|..];
    assert bytes[off..off + |a|] == bytes[off..][..|a|];
  }

  lemma AdvanceNumber(bytes: seq<byte>, off: nat, v: nat, n: nat, rest: seq<byte>)
    requires off <= |bytes| && bytes[off..] == InitialStack.Bytes(v, n) + rest && v < InitialStack.Pow256(n)
    ensures off + n <= |bytes| && bytes[off + n..] == rest && Field(bytes, off, n) == v
  {
    hide Field, InitialStack.Bytes;
    Advance(bytes, off, InitialStack.Bytes(v, n), rest);
    InitialStack.ValueOfBytes(v, n);
  }

  lemma Powers()
    ensures InitialStack.Pow256(2) == 0x1_0000 && InitialStack.Pow256(4) == 0x1_0000_0000
    ensures InitialStack.Pow256(8) == WORD
  {
    InitialStack.WordRange();
    assert InitialStack.Pow256(1) == 256;
    assert InitialStack.Pow256(3) == 256 * InitialStack.Pow256(2);
  }

  /** Whatever else a file says, its header is read from those places, and refused for the first thing that
      is wrong with it. */
  lemma HeaderReads(
    class_: byte, ident: seq<byte>, kind: nat, machine: nat, version: seq<byte>, h: Header, middle: seq<byte>,
    tail: seq<byte>)
    requires |ident| == 11 && |version| == 4 && |middle| == 14 && |tail| >= 6
    requires kind < 0x1_0000 && machine < 0x1_0000 && h.entry < WORD && h.phoff < WORD
    requires h.phentsize < 0x1_0000 && h.phnum < 0x1_0000
    ensures var f := FileHead(class_, ident, kind, machine, version, h, middle, tail);
            && |f| == 58 + |tail| && f[58..] == tail
            && ParseHeader(f) ==
               if class_ != 2 then Err(NotElf64) else if kind != ET_EXEC then Err(NotExecutable)
               else if machine != EM_X86_64 then Err(NotX86_64)
               else if h.phentsize < PH_ENTRY_SIZE then Err(BadProgramHeaderSize)
               else if h.phoff + h.phnum * h.phentsize >= WORD || h.phoff + h.phnum * h.phentsize > |f|
               then Err(TooSmall)
               else Ok(h)
  {
    Powers();
    hide Value, InitialStack.Bytes, InitialStack.Pow256, Field;
    var f := FileHead(class_, ident, kind, machine, version, h, middle, tail);
    var r9 := InitialStack.Bytes(h.phnum, 2) + tail;
    var r8 := InitialStack.Bytes(h.phentsize, 2) + r9;
    var r7 := middle + r8;
    var r6 := InitialStack.Bytes(h.phoff, 8) + r7;
    var r5 := InitialStack.Bytes(h.entry, 8) + r6;
    var r4 := version + r5;
    var r3 := InitialStack.Bytes(machine, 2) + r4;
    var r2 := InitialStack.Bytes(kind, 2) + r3;
    var id: seq<byte> := [0x7F, 0x45, 0x4C, 0x46, class_] + ident;
    assert f == id + r2 && f[0..] == f;
    assert f[0..4] == [0x7F, 0x45, 0x4C, 0x46] && f[4] == class_;
    hide FileHead;
    Advance(f, 0, id, r2);
    AdvanceNumber(f, 0x10, kind, 2, r3);
    AdvanceNumber(f, 0x12, machine, 2, r4);
    Advance(f, 0x14, version, r5);
    AdvanceNumber(f, 0x18, h.entry, 8, r6);
    AdvanceNumber(f, 0x20, h.phoff, 8, r7);
    Advance(f, 0x28, middle, r8);
    AdvanceNumber(f, 0x36, h.phentsize, 2, r9);
    AdvanceNumber(f, 0x38, h.phnum, 2, tail);
  }

  /** A file that is too short, or does not begin with the four bytes, is refused for that. */
  lemma HeaderRefused(bytes: seq<byte>)
    ensures |bytes| < 64 ==> ParseHeader(bytes) == Err(TooSmall)
    ensures |bytes| >= 64 && bytes[..4] != [0x7F, 0x45, 0x4C, 0x46] ==> ParseHeader(bytes) == Err(BadMagic)
  {
  }

  /** Entry `i` of the table, however long the entries are, is read from its fields. */
  lemma EntryReads(bytes: seq<byte>, h: Header, i: nat, s: Segment, flags: nat, paddr: nat, align: nat, rest: seq<byte>)
    requires ParseHeader(bytes) == Ok(h) && i < h.phnum && h.phoff + i * h.phentsize <= |bytes|
    requires bytes[h.phoff + i * h.phentsize..] == EntryOf(s, flags, paddr, align) + rest
    requires s.kind < 0x1_0000_0000 && flags < 0x1_0000_0000 && paddr < WORD && align < WORD
    requires s.offset < WORD && s.vaddr < WORD && s.filesz < WORD && s.memsz < WORD
    ensures SegmentAt(bytes, h, i) == s
  {
    Powers();
    hide ParseHeader, Field, Value, InitialStack.Bytes, InitialStack.Pow256;
    var ph := h.phoff + i * h.phentsize;
    var r8 := InitialStack.Bytes(align, 8) + rest;
    var r7 := InitialStack.Bytes(s.memsz, 8) + r8;
    var r6 := InitialStack.Bytes(s.filesz, 8) + r7;
    var r5 := InitialStack.Bytes(paddr, 8) + r6;
    var r4 := InitialStack.Bytes(s.vaddr, 8) + r5;
    var r3 := InitialStack.Bytes(s.offset, 8) + r4;
    var r2 := InitialStack.Bytes(flags, 4) + r3;
    assert EntryOf(s, flags, paddr, align) + rest == InitialStack.Bytes(s.kind, 4) + r2;
    hide EntryOf;
    AdvanceNumber(bytes, ph, s.kind, 4, r2);
    AdvanceNumber(bytes, ph + 0x04, flags, 4, r3);
    AdvanceNumber(bytes, ph + 0x08, s.offset, 8, r4);
    AdvanceNumber(bytes, ph + 0x10, s.vaddr, 8, r5);
    AdvanceNumber(bytes, ph + 0x18, paddr, 8, r6);
    AdvanceNumber(bytes, ph + 0x20, s.filesz, 8, r7);
    AdvanceNumber(bytes, ph + 0x28, s.memsz, 8, r8);
  }

  // --- a program file ---

  function Zeros(n: nat): (s: seq<byte>)
    ensures |s| == n
  {
    seq(n, _ => 0)
  }

  /** An executable file of one program header: a page of zeros at `vaddr`. */
  ghost function OnePageFile(vaddr: nat): seq<byte> {
    FileHead(2, Zeros(11), ET_EXEC, EM_X86_64, Zeros(4), Header(vaddr, 64, PH_ENTRY_SIZE, 1), Zeros(14),
             Zeros(6) + EntryOf(Segment(PT_LOAD, 0, vaddr, 0, PAGE), 0, 0, 0))
  }

  lemma OnePageReads(vaddr: nat)
    requires vaddr < WORD
    ensures var f, h := OnePageFile(vaddr), Header(vaddr, 64, PH_ENTRY_SIZE, 1);
            ParseHeader(f) == Ok(h) && SegmentAt(f, h, 0) == Segment(PT_LOAD, 0, vaddr, 0, PAGE)
  {
    hide FileHead, EntryOf, ParseHeader, SegmentAt;
    var f, h, s := OnePageFile(vaddr), Header(vaddr, 64, PH_ENTRY_SIZE, 1), Segment(PT_LOAD, 0, vaddr, 0, PAGE);
    var entry := EntryOf(s, 0, 0, 0);
    HeaderReads(2, Zeros(11), ET_EXEC, EM_X86_64, Zeros(4), h, Zeros(14), Zeros(6) + entry);
    hide OnePageFile, Zeros;
    assert f[64..] == f[58..][6..] && f[64..] == entry + [];
    EntryReads(f, h, 0, s, 0, 0, 0, []);
  }

  /** For every page of the user half there is a file that passes all the loader's checks and uses just that
      page; so there is one on the page its stack will need, and one at the base of its heap. */
  lemma PageFile(page: nat)
    requires page * PAGE + PAGE <= USER_SPACE_END
    ensures Passes(OnePageFile(page * PAGE)) && FilePages(OnePageFile(page * PAGE)) == {page}
  {
    hide OnePageFile, ParseHeader, SegmentAt, CheckSegment, PagesOf, Checked, CoverPages;
    var f, h := OnePageFile(page * PAGE), Header(page * PAGE, 64, PH_ENTRY_SIZE, 1);
    OnePageReads(page * PAGE);
    PagePasses(f, page);
    OneSegment(f, h);
  }

  lemma OneSegment(bytes: seq<byte>, h: Header)
    requires ParseHeader(bytes) == Ok(h) && h.phnum == 1 && CheckSegment(bytes, SegmentAt(bytes, h, 0)).None?
    ensures Checked(bytes, h, 1) && CoverPages(bytes, h, 1) == PagesOf(SegmentAt(bytes, h, 0))
  {
    hide ParseHeader, SegmentAt, CheckSegment, PagesOf;
    assert CoverPages(bytes, h, 1) == CoverPages(bytes, h, 0) + PagesOf(SegmentAt(bytes, h, 0));
  }

  lemma StackAndHeapPass()
    ensures Passes(OnePageFile(STACK_VA)) && STACK_PAGE in FilePages(OnePageFile(STACK_VA))
    ensures Passes(OnePageFile(Heaps.HEAP_BASE)) && Heaps.HEAP_BASE / PAGE in FilePages(OnePageFile(Heaps.HEAP_BASE))
  {
    hide OnePageFile, Passes, FilePages;
    PageFile(STACK_PAGE);
    PageFile(Heaps.HEAP_BASE / PAGE);
  }

  /** The image such a program makes: the loader's pages, none of them twice, and then the stack. It has a
      page twice exactly when the loader has already used the stack's. */
  lemma StackTwice(loaded: seq<Execs.ImagePage>, words: seq<nat>)
    requires !Execs.Twice(loaded)
    ensures var path := Heaps.PathOf(STACK_PAGE);
            Execs.Twice(loaded + [Execs.ImagePage(path, words)])
            <==> exists k :: 0 <= k < |loaded| && loaded[k].path == path
  {
    var path := Heaps.PathOf(STACK_PAGE);
    var image := loaded + [Execs.ImagePage(path, words)];
    assert forall i :: 0 <= i < |loaded| ==> image[i] == loaded[i];
    if k :| 0 <= k < |loaded| && loaded[k].path == path {
      assert image[k].path == image[|loaded|].path;
    }
  }

  // --- the same pages as an image for the page tables ---

  function Words(page: seq<byte>): (ws: seq<nat>)
    requires |page| == PAGE
    ensures |ws| == 512
  {
    seq(512, i requires 0 <= i < 512 => Value(page[8 * i..8 * i + 8]))
  }

  /** Word `i` has the bytes from `8 * i` on, the lowest first. */
  lemma WordBytes(page: seq<byte>, i: nat)
    requires |page| == PAGE && i < 512
    ensures var b := 8 * i;
            Words(page)[i] ==
              256 * (256 * (256 * (256 * (256 * (256 * (256 * (page[b + 7] as int) + page[b + 6]) + page[b + 5])
                + page[b + 4]) + page[b + 3]) + page[b + 2]) + page[b + 1]) + page[b]
  {
    var s := page[8 * i..8 * i + 8];
    ValueStep(s, 0);
    ValueStep(s, 1);
    ValueStep(s, 2);
    ValueStep(s, 3);
    ValueStep(s, 4);
    ValueStep(s, 5);
    ValueStep(s, 6);
    ValueStep(s, 7);
    assert s[0..] == s && s[8..] == [];
  }

  lemma ValueStep(s: seq<byte>, i: nat)
    requires i < |s|
    ensures Value(s[i..]) == s[i] + 256 * Value(s[i + 1..])
  {
    assert s[i..][1..] == s[i + 1..];
  }

  /** The pages in the order they are mapped, each with its table indices and its words. */
  function ImageOf(order: seq<nat>, pages: map<nat, seq<byte>>): (image: seq<Execs.ImagePage>)
    requires Paged(pages) && forall i :: 0 <= i < |order| ==> order[i] in pages
    ensures |image| == |order|
  {
    seq(|order|, i requires 0 <= i < |order| => Execs.ImagePage(Heaps.PathOf(order[i]), Words(pages[order[i]])))
  }

  /** Mapped after the file's pages, in whatever order those came, the stack makes an image that has a
      page twice exactly when the file uses the stack's page. */
  lemma ProgramImage(bytes: seq<byte>, order: seq<nat>, pages: map<nat, seq<byte>>)
    requires Passes(bytes) && Paged(pages) && STACK_PAGE in pages && FilePages(bytes) <= pages.Keys
    requires forall p :: p in order <==> p in FilePages(bytes)
    requires forall i, j :: 0 <= i < j < |order| ==> order[i] != order[j]
    ensures forall i :: 0 <= i < |order + [STACK_PAGE]| ==> (order + [STACK_PAGE])[i] in pages
    ensures Execs.Twice(ImageOf(order + [STACK_PAGE], pages)) <==> STACK_PAGE in FilePages(bytes)
  {
    hide Passes, FilePages, Words, Heaps.PathOf;
    assert forall i :: 0 <= i < |order| ==> order[i] in order;
    var loaded, image := ImageOf(order, pages), ImageOf(order + [STACK_PAGE], pages);
    forall i, j | 0 <= i < j < |loaded| ensures loaded[i].path != loaded[j].path {
      SamePath(order[i], order[j]);
    }
    assert image == loaded + [Execs.ImagePage(Heaps.PathOf(STACK_PAGE), Words(pages[STACK_PAGE]))];
    StackTwice(loaded, Words(pages[STACK_PAGE]));
    forall k | 0 <= k < |loaded| ensures loaded[k].path == Heaps.PathOf(STACK_PAGE) <==> order[k] == STACK_PAGE {
      SamePath(order[k], STACK_PAGE);
    }
    assert STACK_PAGE in order <==> exists k :: 0 <= k < |loaded| && order[k] == STACK_PAGE;
  }

  lemma SamePath(p: nat, q: nat)
    ensures Heaps.PathOf(p) == Heaps.PathOf(q) <==> p == q
  {
    Heaps.PathOfPage(p);
    Heaps.PathOfPage(q);
  }
}
