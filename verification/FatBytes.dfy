/** Bytes, sectors and the two little-endian record formats of a FAT32 volume:
    the 32-bit table entry (28 significant bits) and the 32-byte directory slot. */
module FatBytes {
  import opened Basics

  const SECTOR_SIZE := 512
  const ENTRIES_PER_SECTOR := 128
  const SLOTS_PER_SECTOR := 16
  const SLOT_SIZE := 32

  /** Values 0 .. ENTRY_SPACE fit the significant 28 bits of a table entry. */
  const ENTRY_SPACE := 0x1000_0000
  const EOC := 0x0FFF_FFFF
  const EOC_MIN := 0x0FFF_FFF8

  const ATTR_DIRECTORY: byte := 0x10
  const ATTR_ARCHIVE: byte := 0x20

  type Sector = s: seq<byte> | |s| == 512 witness seq(512, _ => 0)
  type Slot = s: seq<byte> | |s| == 32 witness seq(32, _ => 0)
  type Name = s: seq<byte> | |s| == 11 witness seq(11, _ => 0)

  type u32 = x: int | 0 <= x < 0x1_0000_0000

  // --- little-endian integers ---

  function ReadU16(b: seq<byte>, off: nat): (n: nat)
    requires off + 2 <= |b|
    ensures n < 0x1_0000
  {
    b[off] as int + 256 * (b[off + 1] as int)
  }

  function ReadU32(b: seq<byte>, off: nat): (n: u32)
    requires off + 4 <= |b|
  {
    b[off] as int + 0x100 * (b[off + 1] as int) + 0x1_0000 * (b[off + 2] as int)
    + 0x100_0000 * (b[off + 3] as int)
  }

  function Le16(n: nat): seq<byte>
    requires n < 0x1_0000
  {
    [n % 256, n / 256]
  }

  function Le32(n: u32): (s: seq<byte>)
    ensures |s| == 4 && ReadU32(s, 0) == n
  {
    [n % 0x100, n / 0x100 % 0x100, n / 0x1_0000 % 0x100, n / 0x100_0000]
  }

  // --- table entries inside a sector ---

  function PatchU32(sec: Sector, off: nat, n: u32): (r: Sector)
    requires off + 4 <= 512
  {
    sec[..off] + Le32(n) + sec[off + 4..]
  }

  /** The i-th of the 128 table entries of a sector, all 32 bits. */
  function EntryAt(sec: Sector, i: nat): u32
    requires i < 128
  {
    ReadU32(sec, 4 * i)
  }

  lemma PatchedEntries(sec: Sector, i: nat, n: u32)
    requires i < 128
    ensures EntryAt(PatchU32(sec, 4 * i, n), i) == n
    ensures forall j :: 0 <= j < 128 && j != i ==> EntryAt(PatchU32(sec, 4 * i, n), j) == EntryAt(sec, j)
  {
    var r := PatchU32(sec, 4 * i, n);
    assert r[4 * i..4 * i + 4] == Le32(n);
    assert forall k :: 4 * i <= k < 4 * i + 4 ==> r[k] == Le32(n)[k - 4 * i];
    forall j | 0 <= j < 128 && j != i
      ensures EntryAt(r, j) == EntryAt(sec, j)
    {
      assert forall k :: 4 * j <= k < 4 * j + 4 ==> r[k] == sec[k];
    }
  }

  lemma Split256(lo: int, hi: int)
    requires 0 <= lo < 0x100
    ensures (lo + 0x100 * hi) % 0x100 == lo && (lo + 0x100 * hi) / 0x100 == hi
  {
  }

  lemma U32Injective(a: seq<byte>, b: seq<byte>, off: nat)
    requires off + 4 <= |a| && off + 4 <= |b| && ReadU32(a, off) == ReadU32(b, off)
    ensures forall k :: off <= k < off + 4 ==> a[k] == b[k]
  {
    var ha := a[off + 2] as int + 0x100 * (a[off + 3] as int);
    var hb := b[off + 2] as int + 0x100 * (b[off + 3] as int);
    Split256(a[off], a[off + 1] as int + 0x100 * ha);
    Split256(b[off], b[off + 1] as int + 0x100 * hb);
    Split256(a[off + 1], ha);
    Split256(b[off + 1], hb);
    Split256(a[off + 2], a[off + 3]);
    Split256(b[off + 2], b[off + 3]);
  }

  /** A sector of table entries is determined by them: equal entries, equal bytes. */
  lemma SectorFromEntries(a: Sector, b: Sector)
    requires forall i :: 0 <= i < 128 ==> EntryAt(a, i) == EntryAt(b, i)
    ensures a == b
  {
    forall k | 0 <= k < 512
      ensures a[k] == b[k]
    {
      assert EntryAt(a, k / 4) == EntryAt(b, k / 4);
      U32Injective(a, b, 4 * (k / 4));
    }
  }

  /** Replaces the significant 28 bits of an entry and keeps the reserved top four. */
  function Merge(old_: u32, value: nat): (n: u32)
    requires value < ENTRY_SPACE
    ensures n % ENTRY_SPACE == value && n / ENTRY_SPACE == old_ / ENTRY_SPACE
  {
    old_ / ENTRY_SPACE * ENTRY_SPACE + value
  }

  // --- directory slots ---

  function SlotName(s: Slot): Name { s[..11] }

  function SlotFirst(s: Slot): u32 { 0x1_0000 * ReadU16(s, 20) + ReadU16(s, 26) }

  function SlotSize(s: Slot): u32 { ReadU32(s, 28) }

  predicate SlotIsDir(s: Slot) { s[11] / 16 % 2 == 1 }

  /** Long-name fragments and volume labels, which every scan steps over. */
  predicate SlotSkipped(s: Slot) { s[11] % 16 == 15 || s[11] / 8 % 2 == 1 }

  predicate SlotLive(s: Slot) { s[0] != 0 && s[0] != 0xE5 && !SlotSkipped(s) }

  function MakeSlot(name: Name, attr: byte, first: u32, size: u32): (s: Slot)
    ensures SlotName(s) == name && s[11] == attr && SlotFirst(s) == first && SlotSize(s) == size
  {
    var s := name + [attr] + [0, 0, 0, 0, 0, 0, 0, 0] + Le16(first / 0x1_0000) + [0, 0, 0, 0]
             + Le16(first % 0x1_0000) + Le32(size);
    assert s[28..32] == Le32(size);
    assert forall k :: 28 <= k < 32 ==> s[k] == Le32(size)[k - 28];
    s
  }

  /** Where the fields of a slot are: numbers little-endian and the first cluster in two halves, bit 4 of the
      attribute for a directory; long-name pieces have the low four bits set, volume labels bit 3. */
  lemma SlotLayout(s: Slot)
    ensures SlotFirst(s) ==
              0x100_0000 * (s[21] as int) + 0x1_0000 * (s[20] as int) + 0x100 * (s[27] as int) + s[26]
    ensures SlotSize(s) ==
              0x100_0000 * (s[31] as int) + 0x1_0000 * (s[30] as int) + 0x100 * (s[29] as int) + s[28]
    ensures SlotIsDir(s) <==> Bit(s[11], 4)
    ensures SlotSkipped(s) <==>
              Bit(s[11], 3) || (Bit(s[11], 0) && Bit(s[11], 1) && Bit(s[11], 2) && Bit(s[11], 3))
  {
    LowBits(s[11]);
  }

  /** Nothing but its five fields is set in a slot that is made. */
  lemma MadeSlot(name: Name, attr: byte, first: u32, size: u32, k: nat)
    requires 12 <= k < 20 || 22 <= k < 26
    ensures MakeSlot(name, attr, first, size)[k] == 0
  {
  }

  function SlotIn(sec: Sector, e: nat): Slot
    requires e < 16
  {
    sec[32 * e..32 * e + 32]
  }

  function PatchSlot(sec: Sector, e: nat, s: Slot): (r: Sector)
    requires e < 16
    ensures SlotIn(r, e) == s
    ensures forall j :: 0 <= j < 16 && j != e ==> SlotIn(r, j) == SlotIn(sec, j)
  {
    var r := sec[..32 * e] + s + sec[32 * e + 32..];
    assert forall j :: 0 <= j < 16 && j != e ==> SlotIn(r, j) == SlotIn(sec, j);
    r
  }

  function ZeroSlot(): Slot {
    [0, 0, 0, 0, 0, 0, 0, 0, 0, 0, 0, 0, 0, 0, 0, 0, 0, 0, 0, 0, 0, 0, 0, 0, 0, 0, 0, 0, 0, 0, 0, 0]
  }

  function ZeroSector(): (r: Sector)
    ensures forall e :: 0 <= e < 16 ==> SlotIn(r, e)[0] == 0
    ensures forall k :: 0 <= k < 512 ==> r[k] == 0
  {
    seq(512, _ => 0)
  }

  // --- file data cut into sectors ---

  function Min(a: int, b: int): int { if a < b then a else b }

  /** `data` as whole sectors, the last one padded with zero bytes. */
  function Padded(data: seq<byte>): (r: seq<Sector>)
    decreases |data|
  {
    if data == [] then []
    else if |data| <= 512 then [data + seq(512 - |data|, _ => 0)]
    else [data[..512]] + Padded(data[512..])
  }

  /** The first `n` bytes held by a list of sectors. */
  function TakeBytes(secs: seq<Sector>, n: nat): (r: seq<byte>)
    decreases |secs|
  {
    if n == 0 || secs == [] then []
    else var t := Min(n, 512); secs[0][..t] + TakeBytes(secs[1..], n - t)
  }

  /** Writing whole padded sectors and reading back the original length is the identity. */
  lemma {:induction false} PaddedRoundTrip(data: seq<byte>, more: seq<Sector>)
    ensures TakeBytes(Padded(data) + more, |data|) == data
    decreases |data|
  {
    var secs := Padded(data) + more;
    if data == [] {
    } else if |data| <= 512 {
      assert secs[0][..|data|] == data;
    } else {
      PaddedRoundTrip(data[512..], more);
      assert secs[1..] == Padded(data[512..]) + more;
      assert data == data[..512] + data[512..];
    }
  }

  lemma {:induction false} PaddedLength(data: seq<byte>)
    ensures |Padded(data)| == (|data| + 511) / 512
    decreases |data|
  {
    if |data| > 512 { PaddedLength(data[512..]); }
  }

  /** The padded sectors of a prefix that stops on a sector boundary are a prefix. */
  lemma {:induction false} PaddedStep(data: seq<byte>, done: nat)
    requires done < |data| && done % 512 == 0
    ensures var take := Min(|data| - done, 512);
            Padded(data[..done + take])
            == Padded(data[..done]) + [data[done..done + take] + seq(512 - take, _ => 0)]
    decreases done
  {
    var take := Min(|data| - done, 512);
    if done == 0 {
      assert data[0..take] == data[..take];
      assert take == 512 ==> data[..512] + seq(0, _ => 0) == data[..512];
    } else {
      var rest := data[512..];
      PaddedStep(rest, done - 512);
      assert data[..done + take][512..] == rest[..done - 512 + take];
      assert data[..done][512..] == rest[..done - 512];
      assert rest[done - 512..done - 512 + take] == data[done..done + take];
      assert data[..done + take][..512] == data[..512] == data[..done][..512];
      if done == 512 {
        assert data[..512] + seq(0, _ => 0) == data[..512];
      }
    }
  }
}
