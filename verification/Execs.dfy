/** Replacing a process image: a new space is built beside the old one, then either the old one or the
    new one is torn down. */
module Execs {
  import opened Basics
  import opened Frames
  import opened PageTables
  import opened AddressSpaces
  import opened Mappings
  import opened UserPages

  /** A page of the new image: where it goes and what is written into it. */
  datatype ImagePage = ImagePage(path: seq<nat>, words: seq<nat>)

  datatype Outcome = Replaced(root: nat) | Failed | Aborted

  /** Whole pages, outside the kernel's slots. */
  ghost predicate GoodImage(mem: Memory, kernel: nat, image: seq<ImagePage>) {
    forall k :: 0 <= k < |image| ==> Private(mem, kernel, image[k].path) && |image[k].words| == 512
  }

  /** One page is to be mapped twice. The loader skips what it has mapped itself, but the page of the
      initial stack is mapped after it without a look. */
  ghost predicate Twice(image: seq<ImagePage>) {
    exists j, k :: 0 <= j < k < |image| && image[j].path == image[k].path
  }

  ghost predicate LoadedAt(mem: Memory, t: Node, page: ImagePage) {
    Lookup(t, page.path).Some? && Lookup(t, page.path).value < |mem| && mem[Lookup(t, page.path).value] == page.words
  }

  /** Space `t` consists of exactly the pages of `image`, with their contents. */
  ghost predicate Loaded(mem: Memory, t: Node, image: seq<ImagePage>) {
    && (forall k :: 0 <= k < |image| ==> LoadedAt(mem, t, image[k]))
    && (forall q :: Lookup(t, q).Some? ==> exists k :: 0 <= k < |image| && image[k].path == q)
  }

  /** A new space `t`, made only of frames that were free in `v0`; nothing else was written. */
  ghost predicate Built(v0: View, v: View, t: Node, kernel: nat, image: seq<ImagePage>) {
    && SpaceIn(v, t, kernel) && FramesOf(t) == Taken(v0, v) && OnlyTook(v0, v)
    && SameOutside(v0.mem, v.mem, v0.available) && Loaded(v.mem, t, image)
  }

  lemma BuiltStep(
    v0: View, v1: View, v2: View, v: View, t: Node, t': Node, kernel: nat, image: seq<ImagePage>, k: nat, leaf: nat)
    requires k < |image| && Built(v0, v1, t, kernel, image[..k]) && v0.live !! v0.available
    requires Lookup(t, image[k].path).None? && Lookup(t', image[k].path) == Some(leaf) && leaf in v1.available
    requires PageStep(v1, v2, t, t', image[k].path, Some(leaf)) && SpaceIn(v2, t', kernel)
    requires v2.live !! v2.available && kernel !in v0.available && leaf < |v2.mem|
    requires v == v2.(mem := v2.mem[leaf := image[k].words]) && Paged(v.mem)
    ensures Built(v0, v, t', kernel, image[..k + 1]) && |v.mem| == |v0.mem| && leaf != kernel
  {
    hide Rep, Proper, Deep, FramesOf, TablesOf, Lookup, Translates, Loaded, KernelSlots;
    StepFrames(v0, v1, v2, t, t', kernel, image[k].path, leaf);
    SpaceKept(v2, v, t', kernel, {leaf});
    StepLoaded(v1, v2, v, t, t', kernel, image, k, leaf);
  }

  lemma StepFrames(v0: View, v1: View, v2: View, t: Node, t': Node, kernel: nat, path: seq<nat>, leaf: nat)
    requires FramesOf(t) == Taken(v0, v1) && OnlyTook(v0, v1) && SameOutside(v0.mem, v1.mem, v0.available)
    requires v0.live !! v0.available && v2.live !! v2.available && leaf in v1.available
    requires PageStep(v1, v2, t, t', path, Some(leaf)) && SpaceIn(v2, t', kernel) && Lookup(t', path) == Some(leaf)
    requires Lookup(t, path).None?
    ensures FramesOf(t') == Taken(v0, v2) && OnlyTook(v0, v2) && SameOutside(v0.mem, v2.mem, v0.available)
    ensures leaf !in TablesOf(t') && FramesOf(t') <= v2.live
  {
    hide HeldIn, FramesOf, TablesOf, Lookup, Translates, KernelSlots, SameOutside;
    Frames4(v2, t', KernelSlots(v2.mem, kernel));
    TablesInFrames(t);
    PageNotTable(t', path);
    Accounted(v0, v1, v2, FramesOf(t), FramesOf(t'));
    assert SameOutside(v0.mem, v2.mem, v0.available) by {
      OutsideTwice(v0.mem, v1.mem, v2.mem,
                   v0.available, TablesOf(t) + v1.available + Leaf(Lookup(t, path)), v0.available);
    }
  }

  lemma Accounted(v0: View, v1: View, v2: View, frames: set<nat>, frames': set<nat>)
    requires frames == Taken(v0, v1) && OnlyTook(v0, v1) && v0.live !! v0.available && v2.live !! v2.available
    requires v2.live + v2.available == v1.live + v1.available && v2.live - frames' == v1.live - frames
    requires frames' <= v2.live
    ensures frames' == Taken(v0, v2) && OnlyTook(v0, v2)
  {
    assert v1.live - frames == v0.live;
    assert v2.live == v0.live + frames' && v0.live !! frames';
  }

  lemma StepLoaded(
    v1: View, v2: View, v: View, t: Node, t': Node, kernel: nat, image: seq<ImagePage>, k: nat, leaf: nat)
    requires k < |image| && Loaded(v1.mem, t, image[..k]) && SpaceIn(v1, t, kernel) && leaf in v1.available
    requires Lookup(t, image[k].path).None? && PageStep(v1, v2, t, t', image[k].path, Some(leaf))
    requires leaf < |v2.mem| && v.mem == v2.mem[leaf := image[k].words] && v1.live !! v1.available
    ensures Loaded(v.mem, t', image[..k + 1])
  {
    hide SpaceIn, Lookup, TablesOf, FramesOf, LoadedAt;
    var done, more := image[..k], image[..k + 1];
    forall j | 0 <= j < |more| ensures LoadedAt(v.mem, t', more[j]) {
      if j < k {
        assert more[j] == done[j] && LoadedAt(v1.mem, t, done[j]);
        EarlierPage(v1, v2, v, t, t', kernel, done[j], image[k], leaf);
      } else {
        assert LoadedAt(v.mem, t', image[k]) by { NewPage(v2, v, t, t', image[k], leaf); }
      }
    }
    forall q | Lookup(t', q).Some? ensures exists j :: 0 <= j < |more| && more[j].path == q {
      if q == image[k].path {
        assert more[k].path == q;
      } else {
        assert Lookup(t, q).Some?;
        var j :| 0 <= j < |done| && done[j].path == q;
        assert more[j].path == q;
      }
    }
  }

  lemma NewPage(v2: View, v: View, t: Node, t': Node, page: ImagePage, leaf: nat)
    requires Translates(t, t', page.path, Some(leaf)) && leaf < |v2.mem| && v.mem == v2.mem[leaf := page.words]
    ensures LoadedAt(v.mem, t', page)
  {
    assert Lookup(t', page.path) == Some(leaf);
  }

  lemma EarlierPage(
    v1: View, v2: View, v: View, t: Node, t': Node, kernel: nat, done: ImagePage, page: ImagePage, leaf: nat)
    requires LoadedAt(v1.mem, t, done) && SpaceIn(v1, t, kernel) && leaf in v1.available
    requires Lookup(t, page.path).None? && PageStep(v1, v2, t, t', page.path, Some(leaf))
    requires leaf < |v2.mem| && v.mem == v2.mem[leaf := page.words] && v1.live !! v1.available
    ensures LoadedAt(v.mem, t', done)
  {
    hide SpaceIn, Lookup, TablesOf, FramesOf;
    PageUntouched(v1, t, done.path, kernel);
    assert Lookup(t', done.path) == Lookup(t, done.path);
  }

  lemma PageUntouched(v: View, t: Node, path: seq<nat>, kernel: nat)
    requires SpaceIn(v, t, kernel) && Lookup(t, path).Some? && v.live !! v.available
    ensures Lookup(t, path).value !in TablesOf(t) && Lookup(t, path).value !in v.available
  {
    PageNotTable(t, path);
    LookupInFrames(t, path);
  }

  /** The new space: the kernel's entries and the pages of the image, filled in. */
  method BuildImage(m: Machine, kernel: nat, image: seq<ImagePage>) returns (r: Option<nat>, ghost t: Node)
    requires Ready(m) && kernel < |m.mem| && |m.mem[kernel]| == 512 && kernel !in m.usable
    requires forall i :: 0 <= i < 512 ==> Present(m.mem[kernel][i]) || m.mem[kernel][i] == 0
    requires GoodImage(m.mem, kernel, image)
    modifies m
    ensures Ready(m) && (r.None? ==> m.Available() == {} || Twice(image))
    ensures r.Some? ==> t.frame == r.value && Built(old(ViewOf(m)), ViewOf(m), t, kernel, image) && !Twice(image)
  {
    hide Inv, Rep, Proper, Deep, FramesOf, TablesOf, Lookup, KernelSlots, PageStep, Space, SpaceIn, Built, Present,
      Twice;
    ghost var v0 := ViewOf(m);
    SpaceFacts(m, kernel);
    NoneTwice(image);
    r, t := NewSharingKernel(m, kernel);
    if r.None? { return; }
    BuiltRoot(v0, m, t, kernel, image);
    for k := 0 to |image|
      invariant Ready(m) && r == Some(t.frame)
      invariant |m.mem| == |v0.mem| && m.mem[kernel] == v0.mem[kernel] && Built(v0, ViewOf(m), t, kernel, image[..k])
      invariant !Twice(image[..k])
    {
      ghost var v1, t1 := ViewOf(m), t;
      BeforePage(v0, m, t, kernel, image, k);
      var leaf;
      leaf, t := MapUserPage(m, r.value, image[k].path, kernel, t1);
      if leaf.None? { return None, t; }
      ghost var v2 := ViewOf(m);
      SpaceStart(m, t, kernel);
      m.WriteFrame(leaf.value, image[k].words);
      ReadyPaged(m);
      BuiltStep(v0, v1, v2, ViewOf(m), t1, t, kernel, image, k, leaf.value);
      OnceMore(image, k);
    }
    assert image[..|image|] == image;
  }

  lemma SpaceFacts(m: Machine, kernel: nat)
    requires Ready(m) && kernel !in m.usable
    ensures kernel !in m.live && kernel !in m.Available() && m.live !! m.Available()
  {
    LiveUsable(m);
  }

  lemma BuiltRoot(v0: View, m: Machine, t: Node, kernel: nat, image: seq<ImagePage>)
    requires Ready(m) && t == Table(t.frame, map[]) && Space(m, t, kernel) && v0.live !! v0.available
    requires m.live == v0.live + {t.frame} && t.frame in v0.available && m.Available() == v0.available - {t.frame}
    requires SameOutside(v0.mem, m.mem, {t.frame})
    ensures Built(v0, ViewOf(m), t, kernel, image[..0])
  {
    SpaceStart(m, t, kernel);
    hide Inv, Rep, Proper, Deep, KernelSlots;
    assert FramesOf(t) == {t.frame};
  }

  /** Before page `k`: it is mapped already just when an earlier page of the image has its place. */
  lemma BeforePage(v0: View, m: Machine, t: Node, kernel: nat, image: seq<ImagePage>, k: nat)
    requires Ready(m) && kernel !in m.usable && k < |image| && Built(v0, ViewOf(m), t, kernel, image[..k])
    requires GoodImage(v0.mem, kernel, image) && m.mem[kernel] == v0.mem[kernel]
    ensures Space(m, t, kernel) && Private(m.mem, kernel, image[k].path)
    ensures Lookup(t, image[k].path).Some? <==> Earlier(image, k)
    ensures Earlier(image, k) ==> Twice(image)
  {
    hide Inv, Rep, Proper, Deep, FramesOf, TablesOf, Lookup;
    SpaceView(m, t, kernel);
    assert KernelSlots(m.mem, kernel) == KernelSlots(v0.mem, kernel);
    var done := image[..k];
    assert forall j :: 0 <= j < |done| ==> done[j] == image[j] && LoadedAt(m.mem, t, done[j]);
  }

  ghost predicate Earlier(image: seq<ImagePage>, k: nat)
    requires k < |image|
  {
    exists j :: 0 <= j < k && image[j].path == image[k].path
  }

  lemma NoneTwice(image: seq<ImagePage>)
    ensures !Twice(image[..0])
  {
  }

  lemma OnceMore(image: seq<ImagePage>, k: nat)
    requires k < |image| && !Twice(image[..k]) && !Earlier(image, k)
    ensures !Twice(image[..k + 1])
  {
    var done, more := image[..k], image[..k + 1];
    forall i, j | 0 <= i < j < |more| ensures more[i].path != more[j].path {
      if j < k { assert more[i] == done[i] && more[j] == done[j]; }
    }
  }

  /** Builds the new image beside the old one. `fails` says whether the loader or the initial stack turns
      out wrong; then the new space is dropped, otherwise the old one is. Lack of frames aborts, and
      so does a page that is to be mapped twice. */
  method Exec(m: Machine, current: nat, kernel: nat, image: seq<ImagePage>, fails: bool, ghost old0: Node)
      returns (r: Outcome, ghost t: Node)
    requires Ready(m) && old0.frame == current && Space(m, old0, kernel) && GoodImage(m.mem, kernel, image)
    requires forall i :: 0 <= i < 512 ==> Present(m.mem[kernel][i]) || m.mem[kernel][i] == 0
    modifies m
    ensures Ready(m) && (r.Failed? ==> fails) && (r.Replaced? ==> !fails)
    ensures r.Aborted? ==> m.Available() == {} || Twice(image)
    ensures Twice(image) ==> r.Aborted?
    ensures r.Failed? ==>
              && Space(m, old0, kernel) && m.live == old(m.live) && m.Available() == old(m.Available())
              && SameOutside(old(m.mem), m.mem, m.Available())
    ensures r.Replaced? ==>
              && t.frame == r.root && Space(m, t, kernel) && Loaded(m.mem, t, image)
              && FramesOf(t) <= old(m.Available()) && m.live == old(m.live) - FramesOf(old0) + FramesOf(t)
              && m.Available() == old(m.Available()) - FramesOf(t) + FramesOf(old0)
              && SameOutside(old(m.mem), m.mem, old(m.Available()) + FramesOf(old0))
  {
    hide Inv, Rep, Proper, Deep, FramesOf, TablesOf, Lookup, KernelSlots, Space, SpaceIn, Built, Present, Foreign,
      Loaded, Twice;
    ghost var v0 := ViewOf(m);
    SpaceStart(m, old0, kernel);
    KernelRow(m, old0, kernel);
    var root;
    root, t := BuildImage(m, kernel, image);
    if root.None? { return Aborted, t; }
    ghost var v1 := ViewOf(m);
    BothSpaces(v0, m, old0, t, kernel, image);
    if fails {
      Destroy(m, root.value, current, kernel, t);
      RolledBack(v0, v1, m, old0, t, kernel, image);
      return Failed, t;
    }
    Destroy(m, current, root.value, kernel, old0);
    Committed(v0, v1, m, old0, t, kernel, image);
    r := Replaced(root.value);
  }

  /** With the new space built, both spaces stand and neither leads into the other. */
  lemma BothSpaces(v0: View, m: Machine, old0: Node, t: Node, kernel: nat, image: seq<ImagePage>)
    requires Ready(m) && kernel !in m.usable && SpaceIn(v0, old0, kernel) && v0.live !! v0.available
    requires kernel !in v0.live && kernel !in v0.available && Built(v0, ViewOf(m), t, kernel, image)
    ensures Space(m, old0, kernel) && Space(m, t, kernel) && FramesOf(old0) !! FramesOf(t) && FramesOf(old0) <= v0.live
    ensures Foreign(m.mem, old0.frame, t, kernel) && Foreign(m.mem, t.frame, old0, kernel)
    ensures SpaceIn(ViewOf(m), old0, kernel)
  {
    hide Inv, Rep, Proper, Deep, FramesOf, TablesOf, KernelSlots, Loaded, Foreign;
    OldStands(v0, m, old0, kernel);
    SpaceView(m, t, kernel);
    SpaceForeign(m, t, old0, kernel);
    SpaceForeign(m, old0, t, kernel);
  }

  lemma OldStands(v0: View, m: Machine, old0: Node, kernel: nat)
    requires Ready(m) && kernel !in m.usable && SpaceIn(v0, old0, kernel) && v0.live !! v0.available
    requires kernel !in v0.available && v0.live <= m.live && SameOutside(v0.mem, m.mem, v0.available)
    ensures Space(m, old0, kernel) && FramesOf(old0) <= v0.live && SpaceIn(ViewOf(m), old0, kernel)
  {
    hide Inv, Rep, Proper, Deep, FramesOf, TablesOf, KernelSlots;
    ReadyPaged(m);
    Frames4(v0, old0, KernelSlots(v0.mem, kernel));
    TablesInFrames(old0);
    SpaceKept(v0, ViewOf(m), old0, kernel, v0.available);
    SpaceView(m, old0, kernel);
  }

  /** Dropping the new space puts every frame back where it was. */
  lemma RolledBack(v0: View, v1: View, m: Machine, old0: Node, t: Node, kernel: nat, image: seq<ImagePage>)
    requires Ready(m) && kernel !in m.usable && SpaceIn(v0, old0, kernel) && v0.live !! v0.available
    requires kernel !in v0.available && Built(v0, v1, t, kernel, image) && Released(v1, ViewOf(m), FramesOf(t))
    ensures Space(m, old0, kernel) && m.live == v0.live && m.Available() == v0.available
    ensures SameOutside(v0.mem, m.mem, v0.available)
  {
    hide Inv, Rep, Proper, Deep, FramesOf, TablesOf, KernelSlots, SpaceIn, Space, Loaded;
    assert FramesOf(t) <= v0.available;
    OldStands(v0, m, old0, kernel);
  }

  /** Dropping the old one leaves the new image as built. */
  lemma Committed(v0: View, v1: View, m: Machine, old0: Node, t: Node, kernel: nat, image: seq<ImagePage>)
    requires Ready(m) && kernel !in m.usable && v0.live !! v0.available && FramesOf(old0) <= v0.live
    requires kernel !in v0.live && Built(v0, v1, t, kernel, image) && Released(v1, ViewOf(m), FramesOf(old0))
    ensures Space(m, t, kernel) && Loaded(m.mem, t, image) && FramesOf(t) <= v0.available
    ensures m.live == v0.live - FramesOf(old0) + FramesOf(t)
    ensures m.Available() == v0.available - FramesOf(t) + FramesOf(old0)
    ensures SameOutside(v0.mem, m.mem, v0.available + FramesOf(old0))
  {
    hide Inv, Rep, Proper, Deep, FramesOf, TablesOf, KernelSlots, Space, Lookup, LoadedAt;
    ReadyPaged(m);
    TablesInFrames(t);
    SpaceView(m, t, kernel);
    SpaceKept(v1, ViewOf(m), t, kernel, FramesOf(old0));
    forall k | 0 <= k < |image| ensures LoadedAt(m.mem, t, image[k]) {
      assert LoadedAt(v1.mem, t, image[k]);
      StillLoaded(v1, m, t, kernel, image[k], FramesOf(old0));
    }
  }

  lemma StillLoaded(v1: View, m: Machine, t: Node, kernel: nat, page: ImagePage, gone: set<nat>)
    requires LoadedAt(v1.mem, t, page) && FramesOf(t) !! gone && Released(v1, ViewOf(m), gone)
    ensures LoadedAt(m.mem, t, page)
  {
    LookupInFrames(t, page.path);
  }
}
