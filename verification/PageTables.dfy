/** Page-table trees in physical memory: which frames they are made of, what they translate, and how
    both change when one entry is written. */
module PageTables {
  import opened Basics
  import opened Frames

  // --- entries ---

  const FRAME_SPACE := 0x100_0000_0000

  /** Present, writable and user-accessible: the flags of every private mapping. */
  const USER_FLAGS := 7

  predicate Present(w: nat) { w % 2 == 1 }

  predicate User(w: nat) { w / 4 % 2 == 1 }

  predicate Huge(w: nat) { w / 128 % 2 == 1 }

  function FrameOf(w: nat): nat { w / 4096 % FRAME_SPACE }

  function MakeEntry(frame: nat): (w: nat)
    ensures Present(w) && User(w) && !Huge(w) && w != 0
    ensures frame < FRAME_SPACE ==> FrameOf(w) == frame
  {
    EntryFrame(frame);
    EntryBits(frame);
    frame * 4096 + USER_FLAGS
  }

  lemma EntryFrame(frame: nat)
    ensures (frame * 4096 + 7) / 4096 == frame
    ensures frame < FRAME_SPACE ==> FrameOf(frame * 4096 + 7) == frame
  {
  }

  lemma EntryBits(frame: nat)
    ensures var w := frame * 4096 + 7; w % 2 == 1 && w / 4 % 2 == 1 && w / 128 % 2 == 0
  {
    var w := frame * 4096 + 7;
    assert w % 2 == 1 by { OddEven(frame * 2048 + 3); }
    assert w / 4 == 2 * (frame * 512) + 1 && w / 128 == 2 * (frame * 16);
    OddEven(frame * 512);
    OddEven(frame * 16);
  }

  lemma OddEven(k: nat)
    ensures (2 * k + 1) % 2 == 1 && 2 * k % 2 == 0
  {
  }

  /** The flags are the processor's: bit 0 present, bit 2 user, bit 7 a large page. */
  lemma EntryFlags(w: nat)
    ensures (Present(w) <==> Bit(w, 0)) && (User(w) <==> Bit(w, 2)) && (Huge(w) <==> Bit(w, 7))
  {
    LowBits(w);
    LowBits(w / 2 / 2 / 2);
    BitUp(w, 4);
    Halved(w);
  }

  lemma Halved(w: nat)
    ensures w / 2 / 2 == w / 4 && w / 2 / 2 / 2 / 2 / 2 / 2 / 2 == w / 128
  {
  }

  /** Every entry made is also writable: bit 1. */
  lemma EntryWritable(frame: nat)
    ensures Bit(MakeEntry(frame), 1)
  {
    LowBits(MakeEntry(frame));
    assert MakeEntry(frame) / 2 == 2 * (frame * 1024 + 1) + 1;
    OddEven(frame * 1024 + 1);
  }

  lemma BitUp(w: nat, k: nat)
    ensures Bit(w, k + 3) <==> Bit(w / 2 / 2 / 2, k)
  {
    assert Bit(w, k + 3) <==> Bit(w / 2, k + 2);
    assert Bit(w / 2, k + 2) <==> Bit(w / 2 / 2, k + 1);
  }

  // --- trees ---

  /** A page, or a table with its present entries. */
  datatype Node = Page(frame: nat) | Table(frame: nat, kids: map<nat, Node>)

  /** The tree is uniformly `level` tables deep. */
  ghost predicate Deep(t: Node, level: nat) {
    match t
    case Page(_) => level == 0
    case Table(_, kids) => level > 0 && forall i :: i in kids ==> Deep(kids[i], level - 1)
  }

  /** Entry `i` of a table represents its child at `i`, or is unused. */
  ghost predicate SlotRep(w: nat, kids: map<nat, Node>, i: nat) {
    if i in kids then Present(w) && User(w) && !Huge(w) && FrameOf(w) == kids[i].frame else w == 0
  }

  /** Memory holds the tree `t`; slots in `shared` of its root belong to the kernel. */
  ghost predicate Rep(mem: Memory, t: Node, shared: set<nat>) {
    && t.frame < |mem| && |mem[t.frame]| == 512
    && (t.Table? ==>
          && (forall i :: i in t.kids ==> i < 512 && i !in shared)
          && (forall i :: 0 <= i < 512 && i !in shared ==> SlotRep(mem[t.frame][i], t.kids, i))
          && (forall i :: i in t.kids ==> Rep(mem, t.kids[i], {})))
  }

  lemma RepRoot(mem: Memory, t: Node, shared: set<nat>)
    requires Rep(mem, t, shared)
    ensures t.frame < |mem| && |mem[t.frame]| == 512
  {
  }

  /** Every frame the tree is made of, tables and pages. */
  ghost function FramesOf(t: Node): set<nat> {
    match t
    case Page(f) => {f}
    case Table(f, kids) => {f} + set i, x | i in kids && x in FramesOf(kids[i]) :: x
  }

  /** Its tables only. */
  ghost function TablesOf(t: Node): set<nat> {
    match t
    case Page(f) => {}
    case Table(f, kids) => {f} + set i, x | i in kids && x in TablesOf(kids[i]) :: x
  }

  /** No frame occurs twice. */
  ghost predicate Proper(t: Node) {
    t.Table? ==>
      && (forall i :: i in t.kids ==> t.frame !in FramesOf(t.kids[i]) && Proper(t.kids[i]))
      && (forall i, j :: i in t.kids && j in t.kids && i != j ==> FramesOf(t.kids[i]) !! FramesOf(t.kids[j]))
  }

  /** The page a list of indices translates to. */
  ghost function Lookup(t: Node, path: seq<nat>): Option<nat> {
    match t
    case Page(f) => if path == [] then Some(f) else None
    case Table(_, kids) =>
      if path != [] && path[0] in kids then Lookup(kids[path[0]], path[1..]) else None
  }

  lemma {:induction false} TablesInFrames(t: Node)
    ensures TablesOf(t) <= FramesOf(t)
  {
    if t.Table? {
      forall i | i in t.kids ensures TablesOf(t.kids[i]) <= FramesOf(t.kids[i]) {
        TablesInFrames(t.kids[i]);
      }
    }
  }

  lemma {:induction false} LookupInFrames(t: Node, path: seq<nat>)
    requires Lookup(t, path).Some?
    ensures Lookup(t, path).value in FramesOf(t)
  {
    if t.Table? {
      LookupInFrames(t.kids[path[0]], path[1..]);
    }
  }

  /** A translated page is not one of the tables. */
  lemma {:induction false} PageNotTable(t: Node, path: seq<nat>)
    requires Proper(t) && Lookup(t, path).Some?
    ensures Lookup(t, path).value !in TablesOf(t)
  {
    if t.Table? {
      var k := path[0];
      var f := Lookup(t, path).value;
      PageNotTable(t.kids[k], path[1..]);
      LookupInFrames(t.kids[k], path[1..]);
      forall i | i in t.kids ensures f !in TablesOf(t.kids[i]) {
        TablesInFrames(t.kids[i]);
        if i != k { assert FramesOf(t.kids[i]) !! FramesOf(t.kids[k]); }
      }
      assert t.frame !in FramesOf(t.kids[k]);
    }
  }

  /** Distinct paths never translate to the same page. */
  lemma {:induction false} LookupInjective(t: Node, a: seq<nat>, b: seq<nat>)
    requires Proper(t) && Lookup(t, a).Some? && Lookup(t, a) == Lookup(t, b)
    ensures a == b
  {
    if t.Table? {
      var i, j := a[0], b[0];
      assert i != j ==> FramesOf(t.kids[i]) !! FramesOf(t.kids[j]);
      LookupInFrames(t.kids[i], a[1..]);
      LookupInFrames(t.kids[j], b[1..]);
      if i == j {
        LookupInjective(t.kids[i], a[1..], b[1..]);
        assert a == [i] + a[1..] && b == [j] + b[1..];
      }
    }
  }

  /** The tree only depends on its own tables. */
  lemma {:induction false} RepFrame(mem: Memory, mem': Memory, t: Node, shared: set<nat>)
    requires Rep(mem, t, shared) && Paged(mem') && |mem'| == |mem|
    requires forall f :: f in TablesOf(t) && f < |mem| ==> mem'[f] == mem[f]
    ensures Rep(mem', t, shared)
  {
    if t.Table? {
      forall i | i in t.kids ensures Rep(mem', t.kids[i], {}) {
        forall f | f in TablesOf(t.kids[i]) && f < |mem| ensures mem'[f] == mem[f] {
          assert f in TablesOf(t);
        }
        RepFrame(mem, mem', t.kids[i], {});
      }
    }
  }

  lemma {:induction false} FramesInMemory(mem: Memory, t: Node, shared: set<nat>)
    requires Rep(mem, t, shared)
    ensures forall f :: f in FramesOf(t) ==> f < |mem|
  {
    if t.Table? {
      forall i | i in t.kids ensures forall f :: f in FramesOf(t.kids[i]) ==> f < |mem| {
        FramesInMemory(mem, t.kids[i], {});
      }
    }
  }

  // --- changing one child ---

  ghost function WithKid(t: Node, i: nat, kid: Node): Node
    requires t.Table?
  {
    t.(kids := t.kids[i := kid])
  }

  /** The frames of the other children. */
  ghost function Others(t: Node, i: nat): set<nat>
    requires t.Table?
  {
    set j, x | j in t.kids && j != i && x in FramesOf(t.kids[j]) :: x
  }

  ghost function OtherTables(t: Node, i: nat): set<nat>
    requires t.Table?
  {
    set j, x | j in t.kids && j != i && x in TablesOf(t.kids[j]) :: x
  }

  lemma KidFrames(t: Node, i: nat)
    requires t.Table? && i in t.kids
    ensures FramesOf(t) == {t.frame} + FramesOf(t.kids[i]) + Others(t, i)
    ensures TablesOf(t) == {t.frame} + TablesOf(t.kids[i]) + OtherTables(t, i)
  {
    forall x | x in FramesOf(t) ensures x in {t.frame} + FramesOf(t.kids[i]) + Others(t, i) {
      if x != t.frame {
        var j :| j in t.kids && x in FramesOf(t.kids[j]);
      }
    }
    forall x | x in TablesOf(t) ensures x in {t.frame} + TablesOf(t.kids[i]) + OtherTables(t, i) {
      if x != t.frame {
        var j :| j in t.kids && x in TablesOf(t.kids[j]);
      }
    }
  }

  lemma NoKidFrames(t: Node, i: nat)
    requires t.Table? && i !in t.kids
    ensures FramesOf(t) == {t.frame} + Others(t, i)
    ensures TablesOf(t) == {t.frame} + OtherTables(t, i)
  {
  }

  lemma OthersSame(t: Node, i: nat, kid: Node)
    requires t.Table?
    ensures Others(WithKid(t, i, kid), i) == Others(t, i) && OtherTables(WithKid(t, i, kid), i) == OtherTables(t, i)
  {
    var t' := WithKid(t, i, kid);
    forall x | x in Others(t', i) ensures x in Others(t, i) {
      var j :| j in t'.kids && j != i && x in FramesOf(t'.kids[j]);
      assert j in t.kids && t.kids[j] == t'.kids[j];
    }
    forall x | x in Others(t, i) ensures x in Others(t', i) {
      var j :| j in t.kids && j != i && x in FramesOf(t.kids[j]);
      assert j in t'.kids && t.kids[j] == t'.kids[j];
    }
    forall x | x in OtherTables(t', i) ensures x in OtherTables(t, i) {
      var j :| j in t'.kids && j != i && x in TablesOf(t'.kids[j]);
      assert j in t.kids && t.kids[j] == t'.kids[j];
    }
    forall x | x in OtherTables(t, i) ensures x in OtherTables(t', i) {
      var j :| j in t.kids && j != i && x in TablesOf(t.kids[j]);
      assert j in t'.kids && t.kids[j] == t'.kids[j];
    }
  }

  /** Replacing or adding a child whose frames are new to the rest keeps the tree proper. */
  lemma WithKidProper(t: Node, i: nat, kid: Node)
    requires t.Table? && Proper(t) && Proper(kid)
    requires t.frame !in FramesOf(kid) && Others(t, i) !! FramesOf(kid)
    ensures Proper(WithKid(t, i, kid))
  {
    var t' := WithKid(t, i, kid);
    forall j | j in t.kids && j != i ensures FramesOf(t.kids[j]) <= Others(t, i) {}
    forall a, b | a in t'.kids && b in t'.kids && a != b ensures FramesOf(t'.kids[a]) !! FramesOf(t'.kids[b]) {
      if a == i {
        assert t'.kids[b] == t.kids[b];
      } else if b == i {
        assert t'.kids[a] == t.kids[a];
      } else {
        assert t'.kids[a] == t.kids[a] && t'.kids[b] == t.kids[b];
      }
    }
  }

  /** Memory holds the changed tree when the slot, the child and the other tables are in place. */
  lemma WithKidRep(mem: Memory, mem': Memory, t: Node, i: nat, kid: Node, shared: set<nat>)
    requires t.Table? && Rep(mem, t, shared) && Rep(mem', kid, {}) && Paged(mem') && |mem'| == |mem|
    requires i < 512 && i !in shared && forall f :: f in OtherTables(t, i) && f < |mem| ==> mem'[f] == mem[f]
    requires forall j :: 0 <= j < 512 && j != i ==> mem'[t.frame][j] == mem[t.frame][j]
    requires SlotRep(mem'[t.frame][i], map[i := kid], i)
    ensures Rep(mem', WithKid(t, i, kid), shared)
  {
    var t' := WithKid(t, i, kid);
    forall j | j in t'.kids ensures Rep(mem', t'.kids[j], {}) {
      if j != i {
        forall f | f in TablesOf(t.kids[j]) && f < |mem| ensures mem'[f] == mem[f] {
          assert f in OtherTables(t, i);
        }
        RepFrame(mem, mem', t.kids[j], {});
      }
    }
  }
}
