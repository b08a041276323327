/** Short names: how a path component becomes the 11 bytes stored in a slot, and back. */
module FatNames {
  import opened Basics
  import opened Utf8
  import opened FatBytes

  const SLASH: byte := 0x2F
  const PERIOD: byte := 0x2E
  const SPACE: byte := 0x20

  function DotName(): Name { [0x2E, 0x20, 0x20, 0x20, 0x20, 0x20, 0x20, 0x20, 0x20, 0x20, 0x20] }

  function DotDotName(): Name { [0x2E, 0x2E, 0x20, 0x20, 0x20, 0x20, 0x20, 0x20, 0x20, 0x20, 0x20] }

  function IndexOf(s: seq<byte>, b: byte): (k: nat)
    ensures k <= |s| && forall i :: 0 <= i < k ==> s[i] != b
    ensures k < |s| ==> s[k] == b
  {
    if s == [] || s[0] == b then 0 else 1 + IndexOf(s[1..], b)
  }

  /** The non-empty components of a path, in order. */
  function Components(path: seq<byte>): (r: seq<seq<byte>>)
    decreases |path|
  {
    if path == [] then [] else
      var k := IndexOf(path, SLASH);
      var rest := if k < |path| then path[k + 1..] else [];
      (if k == 0 then [] else [path[..k]]) + Components(rest)
  }

  function Upper(b: byte): byte { if 0x61 <= b <= 0x7A then b - 0x20 else b }

  function Field(s: seq<byte>, width: nat): (r: seq<byte>)
    ensures |r| == width
  {
    seq(width, i requires 0 <= i < width => if i < |s| then Upper(s[i]) else SPACE)
  }

  /** Eight bytes of base and three of extension, upper-cased, cut or padded with spaces. */
  function ShortName(component: seq<byte>): (n: Name)
    ensures n[0] != PERIOD
  {
    var k := IndexOf(component, PERIOD);
    var ext := if k < |component| then component[k + 1..] else [];
    Field(component[..k], 8) + Field(ext, 3)
  }

  function ShortNames(path: seq<byte>): (r: seq<Name>)
    ensures |r| == |Components(path)| && forall i :: 0 <= i < |r| ==> r[i] == ShortName(Components(path)[i])
  {
    var cs := Components(path);
    seq(|cs|, i requires 0 <= i < |cs| => ShortName(cs[i]))
  }

  /** What the eleven bytes are: eight of the part before the first period, three of the part after it; small
      letters as capitals, other bytes as they are, blanks past the end of each part. */
  lemma ShortNameBytes(c: seq<byte>, i: nat)
    requires i < 11
    ensures var k := IndexOf(c, PERIOD);
            var part: seq<byte> := if i < 8 then c[..k] else if k < |c| then c[k + 1..] else [];
            var j := if i < 8 then i else i - 8;
            ShortName(c)[i] ==
            if j >= |part| then 0x20 else if 0x61 <= part[j] <= 0x7A then part[j] - 0x20 else part[j]
  {
    hide IndexOf;
  }

  /** The same byte, or the same ASCII letter in either case. */
  predicate SameLetter(a: byte, b: byte) {
    a == b || (0x41 <= a <= 0x5A && b == a + 0x20) || (0x61 <= a <= 0x7A && b == a - 0x20)
  }

  predicate SameButCase(a: seq<byte>, b: seq<byte>) {
    |a| == |b| && forall i :: 0 <= i < |a| ==> SameLetter(a[i], b[i])
  }

  lemma SameIndex(a: seq<byte>, b: seq<byte>, x: byte)
    requires SameButCase(a, b) && (x == PERIOD || x == SLASH)
    ensures IndexOf(a, x) == IndexOf(b, x)
  {
    var i, j := IndexOf(a, x), IndexOf(b, x);
    hide IndexOf;
    assert i < |a| ==> SameLetter(a[i], b[i]);
    assert j < |a| ==> SameLetter(a[j], b[j]);
  }

  /** Components that differ only in case have the same short name. */
  lemma CaseBlind(a: seq<byte>, b: seq<byte>)
    requires SameButCase(a, b)
    ensures ShortName(a) == ShortName(b)
  {
    hide ShortName, IndexOf;
    SameIndex(a, b, PERIOD);
    forall i: nat | i < 11 ensures ShortName(a)[i] == ShortName(b)[i] {
      ShortNameBytes(a, i);
      ShortNameBytes(b, i);
    }
  }

  lemma SameParts(a: seq<byte>, b: seq<byte>, k: nat)
    requires SameButCase(a, b) && k <= |a|
    ensures |a| == |b| && ShortName(a[..k]) == ShortName(b[..k])
    ensures SameButCase(if k < |a| then a[k + 1..] else [], if k < |b| then b[k + 1..] else [])
  {
    hide ShortName, SameLetter;
    CaseBlind(a[..k], b[..k]);
  }

  /** So paths that differ only in case are the same path. */
  lemma {:induction false} CaseBlindPaths(a: seq<byte>, b: seq<byte>)
    requires SameButCase(a, b)
    ensures ShortNames(a) == ShortNames(b)
    decreases |a|
  {
    if a != [] {
      hide IndexOf, ShortName, Components, ShortNames, SameButCase;
      SameIndex(a, b, SLASH);
      ComponentsUnfold(a);
      ComponentsUnfold(b);
      var k := IndexOf(a, SLASH);
      var ra := if k < |a| then a[k + 1..] else [];
      var rb := if k < |b| then b[k + 1..] else [];
      SameParts(a, b, k);
      CaseBlindPaths(ra, rb);
      NamesUnfold(a, k, ra);
      NamesUnfold(b, k, rb);
    }
  }

  lemma NamesUnfold(path: seq<byte>, k: nat, rest: seq<byte>)
    requires k <= |path| && Components(path) == (if k == 0 then [] else [path[..k]]) + Components(rest)
    ensures ShortNames(path) == (if k == 0 then [] else [ShortName(path[..k])]) + ShortNames(rest)
  {
    hide Components, ShortName;
  }

  /** `hello.txt` */
  lemma HelloName()
    ensures ShortName([0x68, 0x65, 0x6C, 0x6C, 0x6F, PERIOD, 0x74, 0x78, 0x74])
            == [0x48, 0x45, 0x4C, 0x4C, 0x4F, 0x20, 0x20, 0x20, 0x54, 0x58, 0x54]
  {
    var c: seq<byte> := [0x68, 0x65, 0x6C, 0x6C, 0x6F, PERIOD, 0x74, 0x78, 0x74];
    FirstAt(c, PERIOD, 5);
    hide ShortName, IndexOf;
    forall i: nat | i < 11
      ensures ShortName(c)[i] == [0x48, 0x45, 0x4C, 0x4C, 0x4F, 0x20, 0x20, 0x20, 0x54, 0x58, 0x54][i]
    {
      ShortNameBytes(c, i);
    }
  }

  /** A name that a live slot can carry: one that is neither an end mark, nor the deleted mark, nor the
      beginning of a dot entry. */
  predicate GoodName(n: Name) { n[0] != 0 && n[0] != 0xE5 && n[0] != PERIOD }

  lemma ComponentsUnfold(path: seq<byte>)
    requires path != []
    ensures var k := IndexOf(path, SLASH);
            Components(path) == (if k == 0 then [] else [path[..k]])
                                + Components(if k < |path| then path[k + 1..] else [])
  {
  }

  lemma {:induction false} ComponentBytes(path: seq<byte>, i: nat)
    requires 0 !in path && i < |Components(path)|
    ensures Components(path)[i] != [] && Components(path)[i][0] != 0
    decreases |path|
  {
    assert path != [];
    hide IndexOf, Components;
    ComponentsUnfold(path);
    var k := IndexOf(path, SLASH);
    var rest := if k < |path| then path[k + 1..] else [];
    var n := if k == 0 then 0 else 1;
    if i >= n {
      assert Components(path)[i] == Components(rest)[i - n];
      ComponentBytes(rest, i - n);
    }
  }

  /** Which paths have only good names: all those without a zero byte, but for a component that begins with
      the byte of the deleted mark. */
  lemma NamesOf(path: seq<byte>, i: nat)
    requires 0 !in path && i < |ShortNames(path)|
    ensures var c := Components(path)[i];
            && c != [] && ShortNames(path)[i][0] != 0 && ShortNames(path)[i][0] != PERIOD
            && (ShortNames(path)[i][0] == 0xE5 <==> c[0] == 0xE5)
  {
    ComponentBytes(path, i);
    hide Components;
  }

  /** U+5B57: a name like any other, but for its first byte. */
  function Zi(): seq<byte> { [0xE5, 0xAD, 0x97] }

  lemma ZiIsDead()
    ensures Decode(Zi()) == Some([0x5B57]) && Components(Zi()) == [Zi()] && ShortName(Zi())[0] == 0xE5
  {
    DecodeEncode([0x5B57]);
    assert Encode([0x5B57]) == Zi() by { assert EncodeOne(0x5B57) == Zi() && Encode([0x5B57][1..]) == []; }
    OneComponent(Zi());
  }

  lemma OneComponent(c: seq<byte>)
    requires c != [] && IndexOf(c, SLASH) == |c|
    ensures Components(c) == [c]
  {
    assert c[..|c|] == c && Components([]) == [];
  }

  // --- listing names ---

  /** Half a name as it is shown: nothing at all if it is not UTF-8, else without the blanks at its end. */
  function Half(s: seq<byte>): seq<nat> {
    match Decode(s)
    case None => []
    case Some(cs) => TrimEnd(cs)
  }

  /** The readable form of an 11-byte name, in characters. */
  function Display(n: Name): seq<nat> {
    var base, ext := Half(n[..8]), Half(n[8..]);
    if ext == [] then base else base + [PERIOD as nat] + ext
  }

  /** Emptiness of a directory is judged on readable names: these two are taken for `.` and `..`. */
  predicate ShownAsDots(n: Name) { Display(n) == [PERIOD as nat] || Display(n) == [PERIOD as nat, PERIOD as nat] }

  /** What is shown as nothing: bytes that are not UTF-8, and blanks. */
  lemma ShownAsNothing(s: seq<byte>)
    ensures Half(s) == [] <==>
            Decode(s).None? || forall i :: 0 <= i < |Decode(s).value| ==> Blank(Decode(s).value[i])
  {
    if Decode(s).Some? {
      var cs := Decode(s).value;
      if forall i :: 0 <= i < |cs| ==> Blank(cs[i]) { TrimBlanks(cs, 0); }
    }
  }

  lemma HalfBegins(s: seq<byte>)
    ensures Half(s) != [] ==> s != [] && (Half(s)[0] == PERIOD as nat ==> s[0] == PERIOD)
  {
    if Half(s) != [] { assert Decode(s).value[0] == First(s); }
  }

  /** Apart from the real dot entries, a name is shown as dots just when its base is shown as nothing and
      its extension as a lone period. */
  lemma DotsByDisplay(n: Name)
    requires n[0] != PERIOD
    ensures ShownAsDots(n) <==> Half(n[..8]) == [] && Half(n[8..]) == [PERIOD as nat]
  {
    hide Half;
    var base, ext := Half(n[..8]), Half(n[8..]);
    HalfBegins(n[..8]);
    if ext != [] {
      assert Display(n) == base + [PERIOD as nat] + ext;
      if base != [] {
        assert Display(n)[0] == base[0];
      } else {
        assert Display(n) == [PERIOD as nat] + ext;
        assert Display(n)[1..] == ext;
      }
    } else if base != [] {
      assert Display(n)[0] == base[0];
    }
  }

  /** ASCII halves are shown as they are, up to their blanks. */
  lemma HalfAscii(s: seq<byte>, k: nat)
    requires k <= |s| && (forall i :: 0 <= i < |s| ==> s[i] < 0x80) && forall i :: k <= i < |s| ==> s[i] == SPACE
    requires k > 0 ==> s[k - 1] == PERIOD
    ensures |Half(s)| == k && forall i :: 0 <= i < k ==> Half(s)[i] == s[i]
  {
    DecodeAscii(s);
    TrimBlanks(Decode(s).value, k);
  }

  /** The real dot entries are shown as dots. */
  lemma DotEntriesShown()
    ensures ShownAsDots(DotName()) && ShownAsDots(DotDotName())
  {
    hide Half;
    var d, dd := DotName(), DotDotName();
    HalfAscii(d[..8], 1);
    HalfAscii(d[8..], 0);
    HalfAscii(dd[..8], 2);
    HalfAscii(dd[8..], 0);
    assert Display(d) == Half(d[..8]) && Half(d[..8]) == [PERIOD as nat];
    assert Display(dd) == Half(dd[..8]) && Half(dd[..8]) == [PERIOD as nat, PERIOD as nat];
  }

  /** A blank followed by two periods: a component that path normalization leaves alone. */
  function BlankDots(): seq<byte> { [0x20, PERIOD, PERIOD] }

  /** A file or directory called that is an ordinary entry, and yet shown like the parent entry. */
  lemma BlankDotsShown()
    ensures Components(BlankDots()) == [BlankDots()]
    ensures GoodName(ShortName(BlankDots())) && ShownAsDots(ShortName(BlankDots()))
  {
    var c := BlankDots();
    OneComponent(c);
    assert IndexOf(c, PERIOD) == 1 && c[2..] == [PERIOD] && c[..1] == [0x20];
    var n := ShortName(c);
    assert n[..8] == Field([0x20], 8) && n[8..] == Field([PERIOD], 3);
    hide Half;
    HalfAscii(n[..8], 0);
    HalfAscii(n[8..], 1);
    DotsByDisplay(n);
  }

  /** U+65E5 U+672C U+8A9E and two periods: nine bytes and an extension. */
  function CutDots(): seq<byte> { [0xE6, 0x97, 0xA5, 0xE6, 0x9C, 0xAC, 0xE8, 0xAA, 0x9E, PERIOD, PERIOD] }

  /** So is this one: its base is cut inside a character, and then shown as nothing. */
  lemma CutDotsShown()
    ensures Decode(CutDots()) == Some([0x65E5, 0x672C, 0x8A9E, 0x2E, 0x2E])
    ensures Components(CutDots()) == [CutDots()]
    ensures GoodName(ShortName(CutDots())) && ShownAsDots(ShortName(CutDots()))
  {
    hide Decode, ShortName, Components, ShownAsDots;
    CutDotsText();
    CutName();
    CutShown(ShortName(CutDots()));
  }

  lemma CutShown(n: Name)
    requires n == [0xE6, 0x97, 0xA5, 0xE6, 0x9C, 0xAC, 0xE8, 0xAA, PERIOD, SPACE, SPACE]
    ensures ShownAsDots(n)
  {
    hide Decode, ShownAsDots, TrimEnd;
    CutDecodes(n[..8]);
    HalfAscii(n[8..], 1);
    DotsByDisplay(n);
  }

  lemma CutName()
    ensures Components(CutDots()) == [CutDots()]
    ensures ShortName(CutDots()) == [0xE6, 0x97, 0xA5, 0xE6, 0x9C, 0xAC, 0xE8, 0xAA, PERIOD, SPACE, SPACE]
  {
    hide IndexOf;
    var c := CutDots();
    FirstAt(c, SLASH, 11);
    OneComponent(c);
    FirstAt(c, PERIOD, 9);
    assert c[10..] == [PERIOD];
    var n := ShortName(c);
    assert n == Field(c[..9], 8) + Field([PERIOD], 3);
  }

  lemma {:induction false} FirstAt(s: seq<byte>, b: byte, k: nat)
    requires k <= |s| && (forall i :: 0 <= i < k ==> s[i] != b) && (k < |s| ==> s[k] == b)
    ensures IndexOf(s, b) == k
  {
    if k > 0 { FirstAt(s[1..], b, k - 1); }
  }

  lemma CutDecodes(s: seq<byte>)
    requires s == [0xE6, 0x97, 0xA5, 0xE6, 0x9C, 0xAC, 0xE8, 0xAA]
    ensures Decode(s).None?
  {
    var s1, s2 := s[3..], s[3..][3..];
    assert Lead(s) == 3 && Lead(s1) == 3 && s2 == [0xE8, 0xAA] && Lead(s2) == 0;
    assert Decode(s2).None?;
    assert Decode(s1).None?;
  }

  lemma CutDotsText()
    ensures Decode(CutDots()) == Some([0x65E5, 0x672C, 0x8A9E, 0x2E, 0x2E])
  {
    hide EncodeOne, Decode, Encode, Scalar;
    CutCharacters();
    var cs := [0x65E5, 0x672C, 0x8A9E, 0x2E, 0x2E];
    EncodeStep(cs, 4);
    EncodeStep(cs, 3);
    EncodeStep(cs, 2);
    EncodeStep(cs, 1);
    EncodeStep(cs, 0);
    assert cs[0..] == cs && cs[5..] == [];
    var tail: seq<byte> := [PERIOD, PERIOD];
    assert Encode(cs[3..]) == tail;
    assert Encode(cs) == [0xE6, 0x97, 0xA5] + ([0xE6, 0x9C, 0xAC] + ([0xE8, 0xAA, 0x9E] + tail));
    assert CutDots() == [0xE6, 0x97, 0xA5] + ([0xE6, 0x9C, 0xAC] + ([0xE8, 0xAA, 0x9E] + tail));
    DecodeEncode(cs);
  }

  lemma CutCharacters()
    ensures Scalar(0x65E5) && Scalar(0x672C) && Scalar(0x8A9E) && Scalar(0x2E) && Encode([]) == []
    ensures EncodeOne(0x65E5) == [0xE6, 0x97, 0xA5] && EncodeOne(0x672C) == [0xE6, 0x9C, 0xAC]
    ensures EncodeOne(0x8A9E) == [0xE8, 0xAA, 0x9E] && EncodeOne(0x2E) == [PERIOD]
  {
  }

  lemma EncodeStep(cs: seq<nat>, i: nat)
    requires Text(cs) && i < |cs|
    ensures Encode(cs[i..]) == EncodeOne(cs[i]) + Encode(cs[i + 1..])
  {
    assert cs[i..][1..] == cs[i + 1..];
  }
}
