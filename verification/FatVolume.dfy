/** A mounted FAT32 volume over an array of 512-byte sectors, its logical view (first table
    copy and data clusters), and the sector accesses everything else is built from. */
module FatVolume {
  import opened FatBytes

  datatype FatError =
    | Block | NotFound | NoSpace | DirFull | NotADirectory | IsADirectory | AlreadyExists | NotEmpty

  datatype Result<+T> = Ok(value: T) | Err(error: FatError) {
    predicate IsFailure() { Err? }
    function PropagateFailure<U>(): Result<U> requires Err? { Err(error) }
    function Extract(): T requires Ok? { value }
  }

  /** What mounting takes from the boot sector; `count` data clusters are numbered from 2. */
  datatype Geometry = Geometry(
    spc: nat, fatStart: nat, dataStart: nat, root: nat, count: nat, numFats: nat, fatSize: nat)

  /** First sector past the last table copy. */
  ghost function FatEnd(g: Geometry): nat { g.fatStart + g.numFats * g.fatSize }

  /** First sector past the last data cluster. */
  ghost function DataEnd(g: Geometry): nat { g.dataStart + g.count * g.spc }

  ghost predicate Sane(g: Geometry) {
    && 1 <= g.spc && 1 <= g.numFats
    && g.dataStart == FatEnd(g)
    && g.count + 2 <= g.fatSize * 128
    && g.count + 2 <= EOC_MIN
    && DataEnd(g) < 0x1_0000_0000
  }

  type Disk = seq<Sector>

  ghost predicate Holds(g: Geometry, d: Disk) { DataEnd(g) <= |d| }

  predicate ValidCluster(g: Geometry, c: int) { 2 <= c < 2 + g.count }

  function FatSector(g: Geometry, k: nat, w: nat): nat { g.fatStart + k * g.fatSize + w }

  function FirstSector(g: Geometry, c: nat): int { g.dataStart + (c - 2) * g.spc }

  // --- addresses do not collide ---

  lemma RowInRange(k: nat, n: nat, w: nat, size: nat)
    requires k < n && w < size
    ensures k * size + w < n * size
  {
    assert (k + 1) * size <= n * size;
  }

  lemma RowUnique(k: nat, w: nat, k2: nat, w2: nat, size: nat)
    requires w < size && w2 < size && k * size + w == k2 * size + w2
    ensures k == k2 && w == w2
  {
    if k < k2 {
      RowInRange(k, k2, w, size);
    } else if k2 < k {
      RowInRange(k2, k, w2, size);
    }
  }

  lemma FatSectorInRange(g: Geometry, k: nat, w: nat)
    requires Sane(g) && k < g.numFats && w < g.fatSize
    ensures FatSector(g, k, w) < g.dataStart <= DataEnd(g)
  {
    RowInRange(k, g.numFats, w, g.fatSize);
  }

  lemma FatSectorUnique(g: Geometry, k: nat, w: nat, k2: nat, w2: nat)
    requires w < g.fatSize && w2 < g.fatSize && FatSector(g, k, w) == FatSector(g, k2, w2)
    ensures k == k2 && w == w2
  {
    RowUnique(k, w, k2, w2, g.fatSize);
  }

  lemma DataSectorInRange(g: Geometry, c: nat, s: nat)
    requires Sane(g) && ValidCluster(g, c) && s < g.spc
    ensures g.dataStart <= FirstSector(g, c) + s
    ensures FirstSector(g, c) + s < DataEnd(g)
    ensures FirstSector(g, c) + g.spc <= DataEnd(g)
  {
    RowInRange(c - 2, g.count, s, g.spc);
    RowInRange(c - 2, g.count, g.spc - 1, g.spc);
  }

  // --- the views of a disk ---

  /** Entry `c` of table copy `k`, reserved bits included. */
  ghost function RawEntry(g: Geometry, d: Disk, k: nat, c: nat): u32
    requires Sane(g) && Holds(g, d) && k < g.numFats && c < g.fatSize * 128
  {
    FatSectorInRange(g, k, c / 128);
    EntryAt(d[FatSector(g, k, c / 128)], c % 128)
  }

  ghost function ClusterAt(g: Geometry, d: Disk, c: nat): (r: seq<Sector>)
    requires Sane(g) && Holds(g, d) && c < g.count + 2
    ensures 2 <= c ==> |r| == g.spc
  {
    if c < 2 then [] else
      DataSectorInRange(g, c, 0);
      d[FirstSector(g, c)..FirstSector(g, c) + g.spc]
  }

  /** The first table copy's significant bits, and the sectors of every data cluster. */
  datatype Logical = Logical(fat: seq<nat>, data: seq<seq<Sector>>)

  ghost function LogOf(g: Geometry, d: Disk): Logical
    requires Sane(g) && Holds(g, d)
  {
    Logical(
      seq(g.count + 2, c requires 0 <= c < g.count + 2 => RawEntry(g, d, 0, c) % ENTRY_SPACE),
      seq(g.count + 2, c requires 0 <= c < g.count + 2 => ClusterAt(g, d, c)))
  }

  ghost predicate Shaped(g: Geometry, l: Logical) {
    && |l.fat| == |l.data| == g.count + 2
    && (forall c :: 0 <= c < |l.fat| ==> l.fat[c] < ENTRY_SPACE)
    && (forall c :: 2 <= c < |l.data| ==> |l.data[c]| == g.spc)
  }

  ghost function SetFat(l: Logical, c: nat, v: nat): Logical
    requires c < |l.fat|
  {
    l.(fat := l.fat[c := v])
  }

  ghost function SetSector(l: Logical, c: nat, s: nat, sec: Sector): Logical
    requires c < |l.data| && s < |l.data[c]|
  {
    var row: seq<Sector> := l.data[c][s := sec];
    l.(data := l.data[c := row])
  }

  lemma LogShaped(g: Geometry, d: Disk)
    requires Sane(g) && Holds(g, d)
    ensures Shaped(g, LogOf(g, d))
  {
    hide RawEntry, ClusterAt, Sane, Holds;
  }

  /** Every table copy carries the same significant bits as the first one. */
  ghost predicate Mirrored(g: Geometry, d: Disk)
    requires Sane(g) && Holds(g, d)
  {
    forall k, c :: 0 <= k < g.numFats && 0 <= c < g.count + 2 ==>
      RawEntry(g, d, k, c) % ENTRY_SPACE == RawEntry(g, d, 0, c) % ENTRY_SPACE
  }

  /** What no operation ever changes: sectors before the tables and after the clusters, the reserved
      bits of every entry, and the entries past the last cluster. */
  ghost predicate Kept(g: Geometry, d0: Disk, d: Disk)
    requires Sane(g) && Holds(g, d0)
  {
    && |d| == |d0|
    && (forall n :: 0 <= n < |d| && (n < g.fatStart || DataEnd(g) <= n) ==> d[n] == d0[n])
    && (forall k, c :: 0 <= k < g.numFats && 0 <= c < g.fatSize * 128 ==>
          RawEntry(g, d, k, c) / ENTRY_SPACE == RawEntry(g, d0, k, c) / ENTRY_SPACE)
    && (forall k, c :: 0 <= k < g.numFats && g.count + 2 <= c < g.fatSize * 128 ==>
          RawEntry(g, d, k, c) == RawEntry(g, d0, k, c))
  }

  // --- what one sector write does to the views ---

  lemma FatWriteEntries(g: Geometry, d: Disk, k: nat, c: nat, v: u32)
    requires Sane(g) && Holds(g, d) && k < g.numFats && c < g.fatSize * 128
    requires FatSector(g, k, c / 128) < |d|
    ensures var n := FatSector(g, k, c / 128);
            var d' := d[n := PatchU32(d[n], 4 * (c % 128), v)];
            && RawEntry(g, d', k, c) == v
            && forall k2, c2 :: 0 <= k2 < g.numFats && 0 <= c2 < g.fatSize * 128 && (k2 != k || c2 != c) ==>
                 RawEntry(g, d', k2, c2) == RawEntry(g, d, k2, c2)
  {
    hide Sane, FatSector, EntryAt, PatchU32;
    var n := FatSector(g, k, c / 128);
    var d' := d[n := PatchU32(d[n], 4 * (c % 128), v)];
    PatchedEntries(d[n], c % 128, v);
    forall k2, c2 | 0 <= k2 < g.numFats && 0 <= c2 < g.fatSize * 128 && (k2 != k || c2 != c)
      ensures RawEntry(g, d', k2, c2) == RawEntry(g, d, k2, c2)
    {
      FatSectorInRange(g, k2, c2 / 128);
      if FatSector(g, k2, c2 / 128) == n {
        FatSectorUnique(g, k, c / 128, k2, c2 / 128);
      }
    }
  }

  lemma FatWriteLog(g: Geometry, d: Disk, k: nat, c: nat, v: u32)
    requires Sane(g) && Holds(g, d) && k < g.numFats && c < g.count + 2
    requires FatSector(g, k, c / 128) < |d|
    ensures var n := FatSector(g, k, c / 128);
            var d' := d[n := PatchU32(d[n], 4 * (c % 128), v)];
            LogOf(g, d') == if k == 0 then SetFat(LogOf(g, d), c, v % ENTRY_SPACE) else LogOf(g, d)
  {
    var n := FatSector(g, k, c / 128);
    var d' := d[n := PatchU32(d[n], 4 * (c % 128), v)];
    FatWriteEntries(g, d, k, c, v);
    FatSectorInRange(g, k, c / 128);
    forall c2 | 2 <= c2 < g.count + 2
      ensures ClusterAt(g, d', c2) == ClusterAt(g, d, c2)
    {
      DataSectorInRange(g, c2, 0);
    }
    var l, l' := LogOf(g, d), LogOf(g, d');
    assert l'.data == l.data;
    assert l'.fat == if k == 0 then l.fat[c := v % ENTRY_SPACE] else l.fat;
  }

  lemma DataWriteLog(g: Geometry, d: Disk, c: nat, s: nat, sec: Sector)
    requires Sane(g) && Holds(g, d) && ValidCluster(g, c) && s < g.spc
    requires 0 <= FirstSector(g, c) + s < |d|
    ensures var d' := d[FirstSector(g, c) + s := sec];
            && LogOf(g, d') == (LogShaped(g, d); SetSector(LogOf(g, d), c, s, sec))
            && forall k, e :: 0 <= k < g.numFats && 0 <= e < g.fatSize * 128 ==>
                 RawEntry(g, d', k, e) == RawEntry(g, d, k, e)
  {
    var n := FirstSector(g, c) + s;
    var d' := d[n := sec];
    DataSectorInRange(g, c, s);
    forall k, e | 0 <= k < g.numFats && 0 <= e < g.fatSize * 128
      ensures RawEntry(g, d', k, e) == RawEntry(g, d, k, e)
    {
      FatSectorInRange(g, k, e / 128);
    }
    forall c2 | 0 <= c2 < g.count + 2
      ensures ClusterAt(g, d', c2) == if c2 == c then ClusterAt(g, d, c)[s := sec] else ClusterAt(g, d, c2)
    {
      if 2 <= c2 {
        DataSectorInRange(g, c2, 0);
        if c2 != c && FirstSector(g, c2) <= n < FirstSector(g, c2) + g.spc {
          RowUnique(c2 - 2, n - FirstSector(g, c2), c - 2, s, g.spc);
        }
      }
    }
    LogShaped(g, d);
    assert LogOf(g, d').data == SetSector(LogOf(g, d), c, s, sec).data;
    assert LogOf(g, d').fat == LogOf(g, d).fat;
  }

  /** Nothing is hidden from the logical view: with agreeing copies before and after, the same
      logical view means the same disk, byte for byte. */
  lemma DiskFromLog(g: Geometry, d0: Disk, d: Disk)
    requires Sane(g) && Holds(g, d0) && Kept(g, d0, d)
    requires Mirrored(g, d0) && Mirrored(g, d) && LogOf(g, d0) == LogOf(g, d)
    ensures d == d0
  {
    forall k, c | 0 <= k < g.numFats && 0 <= c < g.fatSize * 128
      ensures RawEntry(g, d, k, c) == RawEntry(g, d0, k, c)
    {
      if c < g.count + 2 {
        assert LogOf(g, d0).fat[c] == LogOf(g, d).fat[c];
        var a, b := RawEntry(g, d, k, c), RawEntry(g, d0, k, c);
        assert a % ENTRY_SPACE == b % ENTRY_SPACE && a / ENTRY_SPACE == b / ENTRY_SPACE;
      }
    }
    forall n | g.fatStart <= n < g.dataStart
      ensures d[n] == d0[n]
    {
      FatSectorSame(g, d0, d, n);
    }
    forall n | g.dataStart <= n < DataEnd(g)
      ensures d[n] == d0[n]
    {
      DataSectorSame(g, d0, d, n);
    }
  }

  lemma MulMono(a: nat, b: nat, c: nat)
    ensures a <= b ==> a * c <= b * c
  {
  }

  lemma DivRow(n: nat, rows: nat, size: nat)
    requires 0 < size && n < rows * size
    ensures n / size < rows && n == n / size * size + n % size
  {
    MulMono(rows, n / size, size);
  }

  lemma FatSectorSame(g: Geometry, d0: Disk, d: Disk, n: nat)
    requires Sane(g) && Holds(g, d0) && |d| == |d0| && g.fatStart <= n < g.dataStart
    requires forall k, c :: 0 <= k < g.numFats && 0 <= c < g.fatSize * 128 ==>
               RawEntry(g, d, k, c) == RawEntry(g, d0, k, c)
    ensures d[n] == d0[n]
  {
    var off := n - g.fatStart;
    DivRow(off, g.numFats, g.fatSize);
    var k, w := off / g.fatSize, off % g.fatSize;
    assert FatSector(g, k, w) == n;
    forall i | 0 <= i < 128
      ensures EntryAt(d[n], i) == EntryAt(d0[n], i)
    {
      var c := 128 * w + i;
      assert c / 128 == w && c % 128 == i;
      assert RawEntry(g, d, k, c) == RawEntry(g, d0, k, c);
    }
    SectorFromEntries(d[n], d0[n]);
  }

  lemma DataSectorSame(g: Geometry, d0: Disk, d: Disk, n: nat)
    requires Sane(g) && Holds(g, d0) && |d| == |d0| && LogOf(g, d0) == LogOf(g, d)
    requires g.dataStart <= n < DataEnd(g)
    ensures d[n] == d0[n]
  {
    var off := n - g.dataStart;
    DivRow(off, g.count, g.spc);
    var c, s := off / g.spc + 2, off % g.spc;
    assert FirstSector(g, c) + s == n;
    DataSectorInRange(g, c, s);
    assert LogOf(g, d).data[c] == LogOf(g, d0).data[c];
    assert d[n] == ClusterAt(g, d, c)[s] && d0[n] == ClusterAt(g, d0, c)[s];
  }
}
