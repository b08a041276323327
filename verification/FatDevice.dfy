/** The mounted volume as an object: sectors changed in place, one at a time, by a device that may
    refuse any single read or write. `trail` records the logical view after every sector write that
    happened, so a crash after any prefix of the writes leaves one of its members on the disk. */
module FatDevice {
  import opened FatBytes
  import opened FatVolume

  class Volume {
    const g: Geometry
    /** What the device will refuse: any of the accesses made to it, by their number. */
    const refused: set<nat>
    var accesses: nat
    var disk: Disk
    ghost var log: Logical
    ghost var trail: seq<Logical>
    /** Sector accesses the device has refused so far. */
    ghost var faults: nat
    /** Updates of a table entry that a refusal has cut short. */
    ghost var slips: nat

    ghost predicate Valid()
      reads this
    {
      && Sane(g) && Holds(g, disk)
      && log == LogOf(g, disk)
      && Shaped(g, log)
    }

    constructor (geometry: Geometry, sectors: Disk, refusals: set<nat>)
      requires Sane(geometry) && Holds(geometry, sectors)
      ensures Valid() && g == geometry && disk == sectors && trail == [] && faults == slips == 0
      ensures refused == refusals && accesses == 0
    {
      g, refused, accesses, disk := geometry, refusals, 0, sectors;
      log, trail, faults, slips := LogOf(geometry, sectors), [], 0, 0;
      LogShaped(geometry, sectors);
    }

    method ReadSector(n: nat) returns (r: Result<Sector>)
      requires n < |disk|
      modifies this`faults, this`accesses
      ensures r.Ok? ==> r.value == disk[n] && faults == old(faults)
      ensures r.Err? ==> r.error == Block && faults == old(faults) + 1
      ensures accesses == old(accesses) + 1 && (r.Err? <==> old(accesses) in refused)
    {
      accesses := accesses + 1;
      if accesses - 1 in refused {
        faults := faults + 1;
        return Err(Block);
      }
      r := Ok(disk[n]);
    }

    method WriteSector(n: nat, buf: Sector) returns (r: Result<()>)
      requires Valid() && n < |disk|
      modifies this`disk, this`log, this`trail, this`faults, this`accesses
      ensures Valid()
      ensures r.Ok? ==> disk == old(disk)[n := buf] && trail == old(trail) + [log] && faults == old(faults)
      ensures r.Err? ==> disk == old(disk) && log == old(log) && trail == old(trail)
      ensures r.Err? ==> r.error == Block && faults == old(faults) + 1
      ensures accesses == old(accesses) + 1 && (r.Err? <==> old(accesses) in refused)
    {
      accesses := accesses + 1;
      if accesses - 1 in refused {
        faults := faults + 1;
        return Err(Block);
      }
      disk := disk[n := buf];
      log := LogOf(g, disk);
      LogShaped(g, disk);
      trail := trail + [log];
      r := Ok(());
    }

    /** The table's successor of a cluster, reserved bits dropped. */
    method NextCluster(c: nat) returns (r: Result<nat>)
      requires Valid() && ValidCluster(g, c)
      modifies this`faults, this`accesses
      ensures Valid()
      ensures r.Ok? ==> r.value == log.fat[c] && faults == old(faults)
      ensures r.Err? ==> r.error == Block && faults == old(faults) + 1
      ensures accesses == old(accesses) + 1 && (r.Err? <==> old(accesses) in refused)
    {
      EntryOfLog(g, disk, c);
      hide LogOf, FatEnd, DataEnd;
      FatSectorInRange(g, 0, c / 128);
      var buf :- ReadSector(g.fatStart + c * 4 / 512);
      assert c * 4 / 512 == c / 128 && c * 4 % 512 == 4 * (c % 128);
      r := Ok(ReadU32(buf, c * 4 % 512) % ENTRY_SPACE);
    }

    /** Sets the significant bits of one entry in every table copy, first copy first. */
    method WriteFatEntry(c: nat, value: nat) returns (r: Result<()>)
      requires Valid() && ValidCluster(g, c) && value < ENTRY_SPACE
      modifies this
      ensures Valid()
      ensures r.Ok? <==> faults == old(faults)
      ensures slips == old(slips) + if r.Ok? then 0 else 1
      ensures r.Ok? ==> accesses == old(accesses) + 2 * g.numFats
      ensures r.Err? ==> old(accesses) < accesses <= old(accesses) + 2 * g.numFats && accesses - 1 in refused
      ensures old(accesses) in refused ==> log == old(log) && faults == old(faults) + 1
      ensures faults >= old(faults) && (r.Err? ==> r.error == Block)
      ensures log == old(log) || log == SetFat(old(log), c, value)
      ensures r.Ok? ==> log == SetFat(old(log), c, value)
      ensures |old(trail)| <= |trail| && trail[..|old(trail)|] == old(trail)
      ensures forall i :: |old(trail)| <= i < |trail| ==> trail[i] == SetFat(old(log), c, value)
      ensures Kept(g, old(disk), disk)
      ensures r.Ok? && Mirrored(g, old(disk)) ==> Mirrored(g, disk)
    {
      hide LogOf, RawEntry, Kept, Mirrored, Patched, FatEnd, DataEnd, Merge, ReadU32, PatchU32;
      assert c * 4 / 512 == c / 128 && c * 4 % 512 == 4 * (c % 128);
      ghost var d0 := disk;
      PatchedNone(g, d0, c, value);
      var k := 0;
      while k < g.numFats
        invariant 0 <= k <= g.numFats && Valid() && faults == old(faults) && slips == old(slips)
        invariant accesses == old(accesses) + 2 * k && (k > 0 ==> old(accesses) !in refused)
        invariant log == if k == 0 then old(log) else SetFat(old(log), c, value)
        invariant |old(trail)| <= |trail| && trail[..|old(trail)|] == old(trail)
        invariant forall i :: |old(trail)| <= i < |trail| ==> trail[i] == SetFat(old(log), c, value)
        invariant Patched(g, d0, disk, c, value, k)
      {
        var n := g.fatStart + k * g.fatSize + c * 4 / 512;
        FatSectorInRange(g, k, c / 128);
        var before := ReadSector(n);
        if before.Err? {
          slips := slips + 1;
          PatchedKept(g, d0, disk, c, value, k);
          return Err(Block);
        }
        var new_ := Merge(ReadU32(before.value, c * 4 % 512), value);
        ghost var d1 := disk;
        FatWriteLog(g, disk, k, c, new_);
        var w := WriteSector(n, PatchU32(before.value, c * 4 % 512, new_));
        if w.Err? {
          slips := slips + 1;
          PatchedKept(g, d0, disk, c, value, k);
          return Err(Block);
        }
        PatchedNext(g, d0, d1, disk, c, value, k);
        k := k + 1;
      }
      PatchedKept(g, d0, disk, c, value, k);
      r := Ok(());
    }

    /** Overwrites sector `s` of cluster `c` in the data area. */
    method WriteData(c: nat, s: nat, buf: Sector) returns (r: Result<()>)
      requires Valid() && ValidCluster(g, c) && s < g.spc
      modifies this`disk, this`log, this`trail, this`faults, this`accesses
      ensures Valid()
      ensures r.Ok? ==> log == SetSector(old(log), c, s, buf) && trail == old(trail) + [log] && faults == old(faults)
      ensures r.Err? ==> r.error == Block && log == old(log) && trail == old(trail) && faults == old(faults) + 1
      ensures accesses == old(accesses) + 1 && (r.Err? <==> old(accesses) in refused)
      ensures Kept(g, old(disk), disk)
      ensures Mirrored(g, old(disk)) ==> Mirrored(g, disk)
    {
      DataSectorInRange(g, c, s);
      ghost var d0 := disk;
      DataWriteLog(g, disk, c, s, buf);
      r := WriteSector(FirstSector(g, c) + s, buf);
      DataWriteKept(g, d0, c, s, buf);
    }

    method ReadData(c: nat, s: nat) returns (r: Result<Sector>)
      requires Valid() && ValidCluster(g, c) && s < g.spc
      modifies this`faults, this`accesses
      ensures Valid()
      ensures r.Ok? ==> r.value == log.data[c][s] && faults == old(faults)
      ensures r.Err? ==> r.error == Block && faults == old(faults) + 1
      ensures accesses == old(accesses) + 1 && (r.Err? <==> old(accesses) in refused)
    {
      hide LogOf, FatEnd, DataEnd, FirstSector;
      DataSectorInRange(g, c, s);
      SectorOfLog(g, disk, c, s);
      r := ReadSector(FirstSector(g, c) + s);
    }
  }

  /** Entry `c` holds `value` in the first `k` copies of `d`; nothing else differs from `d0`. */
  ghost predicate Patched(g: Geometry, d0: Disk, d: Disk, c: nat, value: nat, k: nat)
    requires Sane(g) && Holds(g, d0) && value < ENTRY_SPACE
  {
    && |d| == |d0|
    && (forall n :: 0 <= n < |d| && (n < g.fatStart || g.dataStart <= n) ==> d[n] == d0[n])
    && (forall j, e :: 0 <= j < g.numFats && 0 <= e < g.fatSize * 128 ==>
          RawEntry(g, d, j, e)
          == if e == c && j < k then Merge(RawEntry(g, d0, j, e), value) else RawEntry(g, d0, j, e))
  }

  lemma PatchedNone(g: Geometry, d: Disk, c: nat, value: nat)
    requires Sane(g) && Holds(g, d) && value < ENTRY_SPACE
    ensures Patched(g, d, d, c, value, 0)
  {
    hide RawEntry, Merge;
  }

  lemma PatchedNext(g: Geometry, d0: Disk, d: Disk, d': Disk, c: nat, value: nat, k: nat)
    requires Sane(g) && Holds(g, d0) && value < ENTRY_SPACE && Patched(g, d0, d, c, value, k)
    requires k < g.numFats && c < g.fatSize * 128 && FatSector(g, k, c / 128) < |d|
    requires var n := FatSector(g, k, c / 128);
             d' == d[n := PatchU32(d[n], 4 * (c % 128), Merge(EntryAt(d[n], c % 128), value))]
    ensures Patched(g, d0, d', c, value, k + 1)
  {
    hide Sane, FatSector, EntryAt, PatchU32;
    var n := FatSector(g, k, c / 128);
    FatSectorInRange(g, k, c / 128);
    FatSectorAfterStart(g, k, c / 128);
    FatWriteEntries(g, d, k, c, Merge(EntryAt(d[n], c % 128), value));
  }

  lemma EntryOfLog(g: Geometry, d: Disk, c: nat)
    requires Sane(g) && Holds(g, d) && ValidCluster(g, c)
    ensures Shaped(g, LogOf(g, d)) && g.fatStart + c / 128 < |d|
    ensures LogOf(g, d).fat[c] == EntryAt(d[g.fatStart + c / 128], c % 128) % ENTRY_SPACE
  {
    hide FatEnd, DataEnd, EntryAt;
    LogShaped(g, d);
    FatSectorInRange(g, 0, c / 128);
    assert FatSector(g, 0, c / 128) == g.fatStart + c / 128;
    assert LogOf(g, d).fat[c] == RawEntry(g, d, 0, c) % ENTRY_SPACE;
  }

  lemma SectorOfLog(g: Geometry, d: Disk, c: nat, s: nat)
    requires Sane(g) && Holds(g, d) && ValidCluster(g, c) && s < g.spc
    ensures Shaped(g, LogOf(g, d)) && 0 <= FirstSector(g, c) + s < |d|
    ensures LogOf(g, d).data[c][s] == d[FirstSector(g, c) + s]
  {
    hide FatEnd, DataEnd, FirstSector;
    LogShaped(g, d);
    DataSectorInRange(g, c, s);
    DataSectorInRange(g, c, 0);
    assert LogOf(g, d).data[c] == ClusterAt(g, d, c);
  }

  lemma FatSectorAfterStart(g: Geometry, k: nat, w: nat)
    ensures g.fatStart <= FatSector(g, k, w)
  {
  }

  lemma PatchedKept(g: Geometry, d0: Disk, d: Disk, c: nat, value: nat, k: nat)
    requires Sane(g) && Holds(g, d0) && value < ENTRY_SPACE && Patched(g, d0, d, c, value, k)
    requires ValidCluster(g, c)
    ensures Kept(g, d0, d)
    ensures k == g.numFats && Mirrored(g, d0) ==> Mirrored(g, d)
  {
    hide RawEntry, Merge;
  }

  lemma DataWriteKept(g: Geometry, d: Disk, c: nat, s: nat, sec: Sector)
    requires Sane(g) && Holds(g, d) && ValidCluster(g, c) && s < g.spc
    requires 0 <= FirstSector(g, c) + s < |d|
    ensures Kept(g, d, d)
    ensures var d' := d[FirstSector(g, c) + s := sec];
            Kept(g, d, d') && (Mirrored(g, d) ==> Mirrored(g, d'))
  {
    hide RawEntry;
    DataSectorInRange(g, c, s);
    DataWriteLog(g, d, c, s, sec);
  }
}
