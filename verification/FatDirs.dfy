/** Directories: where their 32-byte slots lie along a chain, and the scans that walk them. */
module FatDirs {
  import opened Basics
  import opened FatBytes
  import opened FatVolume
  import opened FatDevice
  import opened FatChains

  /** A slot's address: sector `s` of cluster `c`, byte offset `32 * e`. */
  datatype Pos = Pos(c: nat, s: nat, e: nat)

  predicate InVolume(g: Geometry, p: Pos) { ValidCluster(g, p.c) && p.s < g.spc && p.e < 16 }

  /** The 32 bytes at an address; zeros for an address outside the volume. */
  ghost function SlotAt(l: Logical, p: Pos): Slot {
    if p.c < |l.data| && p.s < |l.data[p.c]| && p.e < 16 then SlotIn(l.data[p.c][p.s], p.e)
    else ZeroSlot()
  }

  ghost function SetSlot(g: Geometry, l: Logical, p: Pos, slot: Slot): Logical
    requires Shaped(g, l) && InVolume(g, p)
  {
    SetSector(l, p.c, p.s, PatchSlot(l.data[p.c][p.s], p.e, slot))
  }

  // --- the slots of a sector, a cluster and a chain, in scan order ---

  ghost function SectorPos(c: nat, s: nat, e: nat): (r: seq<Pos>)
    requires e <= 16
    decreases 16 - e
  {
    if e == 16 then [] else [Pos(c, s, e)] + SectorPos(c, s, e + 1)
  }

  ghost function ClusterPos(spc: nat, c: nat, s: nat): (r: seq<Pos>)
    requires s <= spc
    decreases spc - s
  {
    if s == spc then [] else SectorPos(c, s, 0) + ClusterPos(spc, c, s + 1)
  }

  ghost function ChainPos(spc: nat, ch: seq<nat>): (r: seq<Pos>)
  {
    if ch == [] then [] else ClusterPos(spc, ch[0], 0) + ChainPos(spc, ch[1..])
  }

  lemma {:induction false} SectorPosMembers(c: nat, s: nat, e: nat)
    requires e <= 16
    ensures forall p :: p in SectorPos(c, s, e) <==> p.c == c && p.s == s && e <= p.e < 16
    decreases 16 - e
  {
    if e < 16 { SectorPosMembers(c, s, e + 1); }
  }

  lemma {:induction false} ClusterPosMembers(spc: nat, c: nat, s: nat)
    requires s <= spc
    ensures forall p :: p in ClusterPos(spc, c, s) <==> p.c == c && s <= p.s < spc && p.e < 16
    decreases spc - s
  {
    hide SectorPos;
    if s < spc {
      SectorPosMembers(c, s, 0);
      ClusterPosMembers(spc, c, s + 1);
    }
  }

  /** The slots visited are exactly those in the chain's clusters. */
  lemma {:induction false} ChainPosMembers(spc: nat, ch: seq<nat>)
    ensures forall p :: p in ChainPos(spc, ch) <==> p.c in ch && p.s < spc && p.e < 16
  {
    hide ClusterPos;
    if ch != [] {
      ClusterPosMembers(spc, ch[0], 0);
      ChainPosMembers(spc, ch[1..]);
      assert forall c :: c in ch <==> c == ch[0] || c in ch[1..];
    }
  }

  ghost predicate PosDistinct(ps: seq<Pos>) {
    forall i, j :: 0 <= i < j < |ps| ==> ps[i] != ps[j]
  }

  lemma PosDistinctAppend(a: seq<Pos>, b: seq<Pos>)
    requires PosDistinct(a) && PosDistinct(b) && forall p :: p in a ==> p !in b
    ensures PosDistinct(a + b)
  {
    var s := a + b;
    forall i, j | 0 <= i < j < |s| ensures s[i] != s[j] {
      if i < |a| && |a| <= j { assert a[i] in a && b[j - |a|] in b; }
    }
  }

  lemma {:induction false} SectorPosDistinct(c: nat, s: nat, e: nat)
    requires e <= 16
    ensures PosDistinct(SectorPos(c, s, e))
    decreases 16 - e
  {
    if e < 16 {
      SectorPosDistinct(c, s, e + 1);
      SectorPosMembers(c, s, e + 1);
      PosDistinctAppend([Pos(c, s, e)], SectorPos(c, s, e + 1));
    }
  }

  lemma {:induction false} ClusterPosDistinct(spc: nat, c: nat, s: nat)
    requires s <= spc
    ensures PosDistinct(ClusterPos(spc, c, s))
    decreases spc - s
  {
    hide SectorPos;
    if s < spc {
      SectorPosDistinct(c, s, 0);
      ClusterPosDistinct(spc, c, s + 1);
      SectorPosMembers(c, s, 0);
      ClusterPosMembers(spc, c, s + 1);
      PosDistinctAppend(SectorPos(c, s, 0), ClusterPos(spc, c, s + 1));
    }
  }

  /** No slot is visited twice along a chain that never meets itself. */
  lemma {:induction false} ChainPosDistinct(spc: nat, ch: seq<nat>)
    requires Distinct(ch)
    ensures PosDistinct(ChainPos(spc, ch))
  {
    hide ClusterPos;
    if ch != [] {
      ClusterPosDistinct(spc, ch[0], 0);
      ChainPosDistinct(spc, ch[1..]);
      ClusterPosMembers(spc, ch[0], 0);
      ChainPosMembers(spc, ch[1..]);
      PosDistinctAppend(ClusterPos(spc, ch[0], 0), ChainPos(spc, ch[1..]));
    }
  }

  /** Every slot a bounded walk from cluster `dir` visits. */
  ghost function DirPos(g: Geometry, l: Logical, dir: nat): (ps: seq<Pos>)
    requires |l.fat| == g.count + 2
  {
    ChainPos(g.spc, ChainFrom(g, l, dir, g.count))
  }

  // --- what the scans look for, over a list of slots ---

  /** The first live slot called `name` before the end mark. */
  ghost function Scan(l: Logical, ps: seq<Pos>, name: Name): Option<Pos>
  {
    if ps == [] then None else
      var s := SlotAt(l, ps[0]);
      if s[0] == 0 then None
      else if SlotLive(s) && SlotName(s) == name then Some(ps[0])
      else Scan(l, ps[1..], name)
  }

  /** Where an entry called `name` is, or the slot a new one would take. */
  datatype Place = Existing(at: Pos) | Vacant(at: Pos) | Full

  ghost function Locate(l: Logical, ps: seq<Pos>, name: Name, free: Option<Pos>): Place
  {
    if ps == [] then (if free.Some? then Vacant(free.value) else Full) else
      var s := SlotAt(l, ps[0]);
      if s[0] == 0 then Vacant(if free.Some? then free.value else ps[0])
      else if s[0] == 0xE5 then Locate(l, ps[1..], name, if free.Some? then free else Some(ps[0]))
      else if SlotLive(s) && SlotName(s) == name then Existing(ps[0])
      else Locate(l, ps[1..], name, free)
  }

  /** The live slots before the end mark. */
  ghost function Listed(l: Logical, ps: seq<Pos>): seq<Slot>
  {
    if ps == [] then [] else
      var s := SlotAt(l, ps[0]);
      if s[0] == 0 then []
      else (if SlotLive(s) then [s] else []) + Listed(l, ps[1..])
  }

  // --- one sector at a time ---

  /** How a scan of one sector ends: at a match, at the end mark, or off the last slot. */
  datatype Hit = Match(e: nat) | End(e: nat) | More

  /** Scans a sector's sixteen slots; `free` is the first deleted slot met on the way. */
  method ScanSector(buf: Sector, name: Name) returns (hit: Hit, free: Option<nat>)
    ensures hit.Match? ==> hit.e < 16 && SlotLive(SlotIn(buf, hit.e)) && SlotName(SlotIn(buf, hit.e)) == name
    ensures hit.End? ==> hit.e < 16 && SlotIn(buf, hit.e)[0] == 0
    ensures forall j :: 0 <= j < Stop(hit) ==>
              SlotIn(buf, j)[0] != 0 && !(SlotLive(SlotIn(buf, j)) && SlotName(SlotIn(buf, j)) == name)
    ensures free.None? ==> forall j :: 0 <= j < Stop(hit) ==> SlotIn(buf, j)[0] != 0xE5
    ensures free.Some? ==> free.value < Stop(hit) && SlotIn(buf, free.value)[0] == 0xE5
                           && forall j :: 0 <= j < free.value ==> SlotIn(buf, j)[0] != 0xE5
  {
    free := None;
    for e := 0 to 16
      invariant forall j :: 0 <= j < e ==>
                  SlotIn(buf, j)[0] != 0 && !(SlotLive(SlotIn(buf, j)) && SlotName(SlotIn(buf, j)) == name)
      invariant free.None? ==> forall j :: 0 <= j < e ==> SlotIn(buf, j)[0] != 0xE5
      invariant free.Some? ==> free.value < e && SlotIn(buf, free.value)[0] == 0xE5
                               && forall j :: 0 <= j < free.value ==> SlotIn(buf, j)[0] != 0xE5
    {
      var entry := SlotIn(buf, e);
      if entry[0] == 0 { return End(e), free; }
      if entry[0] == 0xE5 {
        if free.None? { free := Some(e); }
      } else if !SlotSkipped(entry) && SlotName(entry) == name {
        return Match(e), free;
      }
    }
    hit := More;
  }

  ghost function Stop(hit: Hit): nat { if hit.More? || hit.e > 16 then 16 else hit.e }

  ghost predicate SectorScanned(buf: Sector, name: Name, from: nat, hit: Hit)
  {
    && (hit.Match? ==> hit.e < 16 && SlotLive(SlotIn(buf, hit.e)) && SlotName(SlotIn(buf, hit.e)) == name)
    && (hit.End? ==> hit.e < 16 && SlotIn(buf, hit.e)[0] == 0)
    && forall j :: from <= j < Stop(hit) ==>
         SlotIn(buf, j)[0] != 0 && !(SlotLive(SlotIn(buf, j)) && SlotName(SlotIn(buf, j)) == name)
  }

  lemma {:induction false} ScanOneSector(
    g: Geometry, l: Logical, c: nat, s: nat, e: nat, rest: seq<Pos>, name: Name, hit: Hit)
    requires Shaped(g, l) && ValidCluster(g, c) && s < g.spc && e <= 16
    requires SectorScanned(l.data[c][s], name, e, hit) && (hit.More? || e <= hit.e)
    ensures Scan(l, SectorPos(c, s, e) + rest, name)
         == match hit { case Match(k) => Some(Pos(c, s, k)) case End(_) => None case More => Scan(l, rest, name) }
    decreases 16 - e
  {
    hide SlotIn, SlotName;
    var ps := SectorPos(c, s, e) + rest;
    if e < 16 {
      assert ps[0] == Pos(c, s, e) && ps[1..] == SectorPos(c, s, e + 1) + rest;
      if hit.More? || e < hit.e {
        ScanOneSector(g, l, c, s, e + 1, rest, name, hit);
      }
    } else {
      assert ps == rest;
    }
  }

  ghost function FreeFrom(c: nat, s: nat, before: Option<Pos>, free: Option<nat>): Option<Pos> {
    if before.Some? then before else if free.Some? then Some(Pos(c, s, free.value)) else None
  }

  ghost predicate FirstDeleted(buf: Sector, from: nat, stop: nat, free: Option<nat>)
  {
    stop <= 16 && if free.None?
    then forall j :: from <= j < stop ==> SlotIn(buf, j)[0] != 0xE5
    else from <= free.value < stop && SlotIn(buf, free.value)[0] == 0xE5
         && forall j :: from <= j < free.value ==> SlotIn(buf, j)[0] != 0xE5
  }

  lemma {:induction false} LocateOneSector(
    g: Geometry, l: Logical, c: nat, s: nat, e: nat, rest: seq<Pos>, name: Name, hit: Hit,
    before: Option<Pos>, free: Option<nat>)
    requires Shaped(g, l) && ValidCluster(g, c) && s < g.spc && e <= 16
    requires SectorScanned(l.data[c][s], name, e, hit) && (hit.More? || e <= hit.e)
    requires FirstDeleted(l.data[c][s], e, Stop(hit), free)
    ensures Locate(l, SectorPos(c, s, e) + rest, name, before)
         == var f := FreeFrom(c, s, before, free);
            match hit {
              case Match(k) => Existing(Pos(c, s, k))
              case End(k) => Vacant(if f.Some? then f.value else Pos(c, s, k))
              case More => Locate(l, rest, name, f)
            }
    decreases 16 - e
  {
    hide Locate, SectorPos, SlotLive, SlotName, SlotIn;
    LocateStep(g, l, c, s, e, rest, name, before);
    if e < 16 && (hit.More? || e < hit.e) {
      if SlotIn(l.data[c][s], e)[0] == 0xE5 {
        assert free == Some(e);
        var b := if before.Some? then before else Some(Pos(c, s, e));
        LocateRest(g, l, c, s, e + 1, rest, name, hit, b);
      } else {
        LocateOneSector(g, l, c, s, e + 1, rest, name, hit, before, free);
      }
    }
  }

  lemma LocateStep(g: Geometry, l: Logical, c: nat, s: nat, e: nat, rest: seq<Pos>, name: Name, f: Option<Pos>)
    requires Shaped(g, l) && ValidCluster(g, c) && s < g.spc && e <= 16
    ensures e == 16 ==> Locate(l, SectorPos(c, s, e) + rest, name, f) == Locate(l, rest, name, f)
    ensures e < 16 ==>
              var slot := SlotIn(l.data[c][s], e);
              var p := Pos(c, s, e);
              var more := SectorPos(c, s, e + 1) + rest;
              Locate(l, SectorPos(c, s, e) + rest, name, f)
              == if slot[0] == 0 then Vacant(if f.Some? then f.value else p)
                 else if slot[0] == 0xE5 then Locate(l, more, name, if f.Some? then f else Some(p))
                 else if SlotLive(slot) && SlotName(slot) == name then Existing(p)
                 else Locate(l, more, name, f)
    ensures e < 16 ==> (SlotLive(SlotIn(l.data[c][s], e)) ==> SlotIn(l.data[c][s], e)[0] !in {0, 0xE5})
  {
    var ps := SectorPos(c, s, e) + rest;
    if e < 16 {
      assert ps[0] == Pos(c, s, e) && ps[1..] == SectorPos(c, s, e + 1) + rest;
    } else {
      assert ps == rest;
    }
  }

  /** Once a free slot is known, later deleted slots do not matter. */
  lemma {:induction false} LocateRest(
    g: Geometry, l: Logical, c: nat, s: nat, e: nat, rest: seq<Pos>, name: Name, hit: Hit, f: Option<Pos>)
    requires Shaped(g, l) && ValidCluster(g, c) && s < g.spc && e <= 16 && f.Some?
    requires SectorScanned(l.data[c][s], name, e, hit) && (hit.More? || e <= hit.e)
    ensures Locate(l, SectorPos(c, s, e) + rest, name, f)
         == match hit {
              case Match(k) => Existing(Pos(c, s, k))
              case End(k) => Vacant(f.value)
              case More => Locate(l, rest, name, f)
            }
    decreases 16 - e
  {
    hide Locate, SectorPos, SlotLive, SlotName, SlotIn;
    LocateStep(g, l, c, s, e, rest, name, f);
    if e < 16 && (hit.More? || e < hit.e) {
      LocateRest(g, l, c, s, e + 1, rest, name, hit, f);
    }
  }

  // --- whole directories ---

  lemma UnfoldChain(g: Geometry, l: Logical, c: nat, steps: nat)
    requires Shaped(g, l) && ValidCluster(g, c)
    ensures ChainPos(g.spc, ChainFrom(g, l, c, steps + 1))
         == ClusterPos(g.spc, c, 0) + ChainPos(g.spc, ChainFrom(g, l, l.fat[c], steps))
  {
    var ch := ChainFrom(g, l, c, steps + 1);
    assert ch[0] == c && ch[1..] == ChainFrom(g, l, l.fat[c], steps);
  }

  lemma UnfoldCluster(spc: nat, c: nat, s: nat, rest: seq<Pos>)
    requires s < spc
    ensures ClusterPos(spc, c, s) + rest == SectorPos(c, s, 0) + (ClusterPos(spc, c, s + 1) + rest)
  {
  }

  lemma DoneCluster(spc: nat, c: nat, rest: seq<Pos>)
    ensures ClusterPos(spc, c, spc) + rest == rest
  {
  }

  /** How a scan of one cluster ends. */
  datatype Sighting = Seen(at: Pos, slot: Slot) | Ended | Beyond

  method ScanCluster(v: Volume, c: nat, name: Name, ghost rest: seq<Pos>) returns (r: Result<Sighting>)
    requires v.Valid() && ValidCluster(v.g, c)
    modifies v`faults, v`accesses
    ensures v.Valid()
    ensures r.Ok? ==> v.faults == old(v.faults)
    ensures r.Err? ==> r.error == Block && v.faults > old(v.faults)
    ensures r.Ok? ==>
              Scan(v.log, ClusterPos(v.g.spc, c, 0) + rest, name)
              == match r.value { case Seen(p, _) => Some(p) case Ended => None case Beyond => Scan(v.log, rest, name) }
    ensures r.Ok? && r.value.Seen? ==> InVolume(v.g, r.value.at) && r.value.slot == SlotAt(v.log, r.value.at)
  {
    hide LogOf, FatEnd, DataEnd, FirstSector, Scan, ClusterPos, SectorPos;
    var g := v.g;
    ghost var l := v.log;
    var s := 0;
    while s < g.spc
      invariant 0 <= s <= g.spc && v.Valid() && v.faults == old(v.faults)
      invariant Scan(l, ClusterPos(g.spc, c, 0) + rest, name) == Scan(l, ClusterPos(g.spc, c, s) + rest, name)
    {
      var buf :- v.ReadData(c, s);
      var hit, _ := ScanSector(buf, name);
      UnfoldCluster(g.spc, c, s, rest);
      ScanOneSector(g, l, c, s, 0, ClusterPos(g.spc, c, s + 1) + rest, name, hit);
      match hit {
        case Match(e) => return Ok(Seen(Pos(c, s, e), SlotIn(buf, e)));
        case End(_) => return Ok(Ended);
        case More =>
      }
      s := s + 1;
    }
    DoneCluster(g.spc, c, rest);
    r := Ok(Beyond);
  }

  /** Looks an entry up by its short name. */
  method LocateEntry(v: Volume, dir: nat, name: Name) returns (r: Result<Option<(Pos, Slot)>>)
    requires v.Valid()
    modifies v`faults, v`accesses
    ensures v.Valid() && v.faults >= old(v.faults)
    ensures r.Err? <==> v.faults > old(v.faults)
    ensures r.Err? ==> r.error == Block
    ensures r.Ok? ==>
              var found := Scan(v.log, DirPos(v.g, v.log, dir), name);
              match r.value {
                case None => found == None
                case Some((p, slot)) => found == Some(p) && InVolume(v.g, p) && slot == SlotAt(v.log, p)
              }
  {
    hide LogOf, FatEnd, DataEnd, FirstSector, ClusterPos;
    var g := v.g;
    ghost var l := v.log;
    var cluster, stepsLeft := dir, g.count;
    while ValidCluster(g, cluster) && stepsLeft > 0
      invariant v.Valid() && v.faults == old(v.faults)
      invariant Scan(l, DirPos(g, l, dir), name)
             == Scan(l, ChainPos(g.spc, ChainFrom(g, l, cluster, stepsLeft)), name)
      decreases stepsLeft
    {
      stepsLeft := stepsLeft - 1;
      UnfoldChain(g, l, cluster, stepsLeft);
      var seen :- ScanCluster(v, cluster, name, ChainPos(g.spc, ChainFrom(g, l, l.fat[cluster], stepsLeft)));
      match seen {
        case Seen(p, slot) => return Ok(Some((p, slot)));
        case Ended => return Ok(None);
        case Beyond =>
      }
      cluster :- v.NextCluster(cluster);
    }
    r := Ok(None);
  }

  datatype Survey = Settled(place: Place, slot: Slot) | Unsettled(free: Option<Pos>)

  method LocateInCluster(v: Volume, c: nat, name: Name, known: Option<Pos>, ghost rest: seq<Pos>)
    returns (r: Result<Survey>)
    requires v.Valid() && ValidCluster(v.g, c)
    modifies v`faults, v`accesses
    ensures v.Valid()
    ensures r.Ok? ==> v.faults == old(v.faults)
    ensures r.Err? ==> r.error == Block && v.faults > old(v.faults)
    ensures r.Ok? ==>
              Locate(v.log, ClusterPos(v.g.spc, c, 0) + rest, name, known)
              == match r.value { case Settled(p, _) => p case Unsettled(f) => Locate(v.log, rest, name, f) }
    ensures r.Ok? && r.value.Settled? ==>
              && !r.value.place.Full?
              && (r.value.place.Existing? ==>
                    InVolume(v.g, r.value.place.at) && r.value.slot == SlotAt(v.log, r.value.place.at))
  {
    hide LogOf, FatEnd, DataEnd, FirstSector, Locate, ClusterPos, SectorPos;
    var g := v.g;
    ghost var l := v.log;
    var free := known;
    var s := 0;
    while s < g.spc
      invariant 0 <= s <= g.spc && v.Valid() && v.faults == old(v.faults)
      invariant Locate(l, ClusterPos(g.spc, c, 0) + rest, name, known)
             == Locate(l, ClusterPos(g.spc, c, s) + rest, name, free)
    {
      var buf :- v.ReadData(c, s);
      var hit, deleted := ScanSector(buf, name);
      UnfoldCluster(g.spc, c, s, rest);
      LocateOneSector(g, l, c, s, 0, ClusterPos(g.spc, c, s + 1) + rest, name, hit, free, deleted);
      if free.None? && deleted.Some? { free := Some(Pos(c, s, deleted.value)); }
      match hit {
        case Match(e) => return Ok(Settled(Existing(Pos(c, s, e)), SlotIn(buf, e)));
        case End(e) => return Ok(Settled(Vacant(if free.Some? then free.value else Pos(c, s, e)), SlotIn(buf, e)));
        case More =>
      }
      s := s + 1;
    }
    DoneCluster(g.spc, c, rest);
    r := Ok(Unsettled(free));
  }

  /** Finds the entry called `name` (and reads it), or the slot where one would be created. */
  method LocateOrFreeSlot(v: Volume, dir: nat, name: Name) returns (r: Result<(Place, Slot)>)
    requires v.Valid()
    modifies v`faults, v`accesses
    ensures v.Valid() && v.faults >= old(v.faults)
    ensures r.Err? && r.error == Block <==> v.faults > old(v.faults)
    ensures r.Err? ==> r.error == Block || r.error == DirFull
    ensures r.Err? && r.error == DirFull ==> Locate(v.log, DirPos(v.g, v.log, dir), name, None) == Full
    ensures r.Ok? ==>
              && r.value.0 == Locate(v.log, DirPos(v.g, v.log, dir), name, None)
              && !r.value.0.Full?
              && (r.value.0.Existing? ==>
                    InVolume(v.g, r.value.0.at) && r.value.1 == SlotAt(v.log, r.value.0.at))
  {
    hide LogOf, FatEnd, DataEnd, FirstSector, ClusterPos;
    var g := v.g;
    ghost var l := v.log;
    var free: Option<Pos> := None;
    var cluster, stepsLeft := dir, g.count;
    while ValidCluster(g, cluster) && stepsLeft > 0
      invariant v.Valid() && v.faults == old(v.faults)
      invariant Locate(l, DirPos(g, l, dir), name, None)
             == Locate(l, ChainPos(g.spc, ChainFrom(g, l, cluster, stepsLeft)), name, free)
      decreases stepsLeft
    {
      stepsLeft := stepsLeft - 1;
      UnfoldChain(g, l, cluster, stepsLeft);
      var found :-
        LocateInCluster(v, cluster, name, free, ChainPos(g.spc, ChainFrom(g, l, l.fat[cluster], stepsLeft)));
      match found {
        case Settled(place, slot) => return Ok((place, slot));
        case Unsettled(f) => free := f;
      }
      cluster :- v.NextCluster(cluster);
    }
    r := if free.Some? then Ok((Vacant(free.value), ZeroSlot())) else Err(DirFull);
  }

  /** A sector's live slots up to its end mark, if it has one. */
  method ListSector(buf: Sector, ghost g: Geometry, ghost l: Logical, ghost c: nat, ghost s: nat, ghost rest: seq<Pos>)
    returns (items: seq<Slot>, ended: bool)
    requires Shaped(g, l) && ValidCluster(g, c) && s < g.spc && buf == l.data[c][s]
    ensures Listed(l, SectorPos(c, s, 0) + rest) == items + if ended then [] else Listed(l, rest)
  {
    hide Listed, SectorPos, SlotLive, SlotIn;
    items := [];
    for e := 0 to 16
      invariant Listed(l, SectorPos(c, s, 0) + rest) == items + Listed(l, SectorPos(c, s, e) + rest)
    {
      var entry := SlotIn(buf, e);
      ListStep(g, l, c, s, e, rest);
      if entry[0] == 0 { return items, true; }
      if SlotLive(entry) {
        assert items + ([entry] + Listed(l, SectorPos(c, s, e + 1) + rest))
            == items + [entry] + Listed(l, SectorPos(c, s, e + 1) + rest);
        items := items + [entry];
      }
    }
    DoneSector(c, s, rest);
    ended := false;
  }

  lemma DoneSector(c: nat, s: nat, rest: seq<Pos>)
    ensures SectorPos(c, s, 16) + rest == rest
  {
  }

  lemma ListedNone(g: Geometry, l: Logical, c: nat, steps: nat)
    requires Shaped(g, l) && (steps == 0 || !ValidCluster(g, c))
    ensures Listed(l, ChainPos(g.spc, ChainFrom(g, l, c, steps))) == []
  {
  }

  lemma ListStep(g: Geometry, l: Logical, c: nat, s: nat, e: nat, after: seq<Pos>)
    requires Shaped(g, l) && ValidCluster(g, c) && s < g.spc && e < 16
    ensures var slot := SlotIn(l.data[c][s], e);
            Listed(l, SectorPos(c, s, e) + after)
            == if slot[0] == 0 then []
               else (if SlotLive(slot) then [slot] else []) + Listed(l, SectorPos(c, s, e + 1) + after)
  {
    var ps := SectorPos(c, s, e) + after;
    assert ps[0] == Pos(c, s, e) && ps[1..] == SectorPos(c, s, e + 1) + after;
  }

  method ListCluster(v: Volume, c: nat, ghost rest: seq<Pos>) returns (r: Result<(seq<Slot>, bool)>)
    requires v.Valid() && ValidCluster(v.g, c)
    modifies v`faults, v`accesses
    ensures v.Valid()
    ensures r.Ok? ==> v.faults == old(v.faults)
    ensures r.Err? ==> r.error == Block && v.faults > old(v.faults)
    ensures r.Ok? ==>
              Listed(v.log, ClusterPos(v.g.spc, c, 0) + rest)
              == r.value.0 + if r.value.1 then [] else Listed(v.log, rest)
  {
    hide LogOf, FatEnd, DataEnd, FirstSector, Listed, ClusterPos, SectorPos;
    var g := v.g;
    ghost var l := v.log;
    var items: seq<Slot> := [];
    var s := 0;
    while s < g.spc
      invariant 0 <= s <= g.spc && v.Valid() && v.faults == old(v.faults)
      invariant Listed(l, ClusterPos(g.spc, c, 0) + rest) == items + Listed(l, ClusterPos(g.spc, c, s) + rest)
    {
      var buf :- v.ReadData(c, s);
      UnfoldCluster(g.spc, c, s, rest);
      ghost var after := ClusterPos(g.spc, c, s + 1) + rest;
      var more, ended := ListSector(buf, g, l, c, s, after);
      assert items + (more + Listed(l, after)) == items + more + Listed(l, after);
      assert items + (more + []) == items + more + [];
      items := items + more;
      if ended { return Ok((items, true)); }
      s := s + 1;
    }
    DoneCluster(g.spc, c, rest);
    r := Ok((items, false));
  }

  /** Collects a directory's live slots in order. */
  method ListDir(v: Volume, dir: nat) returns (r: Result<seq<Slot>>)
    requires v.Valid()
    modifies v`faults, v`accesses
    ensures v.Valid() && v.faults >= old(v.faults)
    ensures r.Err? <==> v.faults > old(v.faults)
    ensures r.Err? ==> r.error == Block
    ensures r.Ok? ==> r.value == Listed(v.log, DirPos(v.g, v.log, dir))
  {
    hide LogOf, FatEnd, DataEnd, FirstSector, ClusterPos, ChainPos, ChainFrom, Listed;
    var g := v.g;
    ghost var l := v.log;
    var items: seq<Slot> := [];
    var cluster, stepsLeft := dir, g.count;
    while ValidCluster(g, cluster) && stepsLeft > 0
      invariant v.Valid() && v.faults == old(v.faults)
      invariant Listed(l, DirPos(g, l, dir))
             == items + Listed(l, ChainPos(g.spc, ChainFrom(g, l, cluster, stepsLeft)))
      decreases stepsLeft
    {
      stepsLeft := stepsLeft - 1;
      UnfoldChain(g, l, cluster, stepsLeft);
      ghost var rest := ChainPos(g.spc, ChainFrom(g, l, l.fat[cluster], stepsLeft));
      var part :- ListCluster(v, cluster, rest);
      assert items + (part.0 + Listed(l, rest)) == items + part.0 + Listed(l, rest);
      assert items + (part.0 + []) == items + part.0;
      items := items + part.0;
      if part.1 { return Ok(items); }
      cluster :- v.NextCluster(cluster);
    }
    ListedNone(g, l, cluster, stepsLeft);
    r := Ok(items);
  }
}
