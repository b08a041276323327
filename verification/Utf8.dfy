/** UTF-8 as table 3-7 of the Unicode Standard (and section 4 of RFC 3629) defines it, and the blanks a
    string is trimmed of. */
module Utf8 {
  import opened Basics

  /** A character: any code point but the surrogates. */
  predicate Scalar(c: nat) { c < 0xD800 || 0xE000 <= c < 0x11_0000 }

  predicate Continues(b: byte) { 0x80 <= b < 0xC0 }

  /** How many bytes the well formed sequence at the front of `s` has; 0 if there is none. */
  function Lead(s: seq<byte>): (k: nat)
    ensures k <= |s|
  {
    if s == [] then 0
    else if s[0] < 0x80 then 1
    else if |s| < 2 || !Continues(s[1]) then 0
    else if 0xC2 <= s[0] < 0xE0 then 2
    else if |s| < 3 || !Continues(s[2]) then 0
    else if 0xE0 <= s[0] < 0xF0 && (s[0] == 0xE0 ==> 0xA0 <= s[1]) && (s[0] == 0xED ==> s[1] < 0xA0) then 3
    else if |s| < 4 || !Continues(s[3]) then 0
    else if 0xF0 <= s[0] < 0xF5 && (s[0] == 0xF0 ==> 0x90 <= s[1]) && (s[0] == 0xF4 ==> s[1] < 0x90) then 4
    else 0
  }

  /** Six more bits. */
  function More(high: nat, b: byte): nat
    requires 0x80 <= b
  {
    high * 64 + (b - 0x80)
  }

  function First(s: seq<byte>): nat
    requires Lead(s) > 0
  {
    match Lead(s)
    case 1 => s[0]
    case 2 => More(s[0] - 0xC0, s[1])
    case 3 => More(More(s[0] - 0xE0, s[1]), s[2])
    case _ => More(More(More(s[0] - 0xF0, s[1]), s[2]), s[3])
  }

  /** The characters of a byte string, if it is UTF-8. */
  function Decode(s: seq<byte>): Option<seq<nat>> {
    if s == [] then Some([])
    else if Lead(s) == 0 then None
    else
      match Decode(s[Lead(s)..])
      case None => None
      case Some(rest) => Some([First(s)] + rest)
  }

  function EncodeOne(c: nat): (r: seq<byte>)
    requires Scalar(c)
    ensures r != []
  {
    if c < 0x80 then [c]
    else if c < 0x800 then [0xC0 + c / 64, 0x80 + c % 64]
    else if c < 0x1_0000 then [0xE0 + c / 64 / 64, 0x80 + c / 64 % 64, 0x80 + c % 64]
    else [0xF0 + c / 64 / 64 / 64, 0x80 + c / 64 / 64 % 64, 0x80 + c / 64 % 64, 0x80 + c % 64]
  }

  ghost predicate Text(cs: seq<nat>) { forall i :: 0 <= i < |cs| ==> Scalar(cs[i]) }

  function Encode(cs: seq<nat>): seq<byte>
    requires Text(cs)
  {
    if cs == [] then [] else EncodeOne(cs[0]) + Encode(cs[1..])
  }

  lemma OneRoundTrip(c: nat, rest: seq<byte>)
    requires Scalar(c)
    ensures Lead(EncodeOne(c) + rest) == |EncodeOne(c)| && First(EncodeOne(c) + rest) == c
  {
    var a, b := c / 64, c / 64 / 64;
    assert c == a * 64 + c % 64 && a == b * 64 + a % 64 && b == b / 64 * 64 + b % 64;
  }

  /** What is encoded is read back. */
  lemma {:induction false} DecodeEncode(cs: seq<nat>)
    requires Text(cs)
    ensures Decode(Encode(cs)) == Some(cs)
  {
    hide Lead, First, EncodeOne, Scalar;
    if cs != [] {
      var one, rest := EncodeOne(cs[0]), Encode(cs[1..]);
      OneRoundTrip(cs[0], rest);
      assert (one + rest)[|one|..] == rest;
      DecodeEncode(cs[1..]);
      assert cs == [cs[0]] + cs[1..];
    }
  }

  lemma LeadEncodes(s: seq<byte>)
    requires Lead(s) > 0
    ensures Scalar(First(s)) && EncodeOne(First(s)) == s[..Lead(s)]
  {
    var c, k := First(s), Lead(s);
    if k == 2 {
      assert c / 64 == s[0] - 0xC0;
    } else if k == 3 {
      assert c / 64 == More(s[0] - 0xE0, s[1]);
      assert c / 64 / 64 == s[0] - 0xE0;
    } else if k == 4 {
      assert c / 64 == More(More(s[0] - 0xF0, s[1]), s[2]);
      assert c / 64 / 64 == More(s[0] - 0xF0, s[1]);
      assert c / 64 / 64 / 64 == s[0] - 0xF0;
    }
  }

  /** And nothing else is read: a byte string is UTF-8 just when it encodes some text. */
  lemma {:induction false} EncodeDecode(s: seq<byte>)
    ensures Decode(s).Some? ==> Text(Decode(s).value) && Encode(Decode(s).value) == s
  {
    hide Lead, First, EncodeOne, Scalar;
    if s != [] && Lead(s) > 0 {
      LeadEncodes(s);
      EncodeDecode(s[Lead(s)..]);
      var r := Decode(s[Lead(s)..]);
      if r.Some? {
        var cs := [First(s)] + r.value;
        assert cs[1..] == r.value;
        assert s == s[..Lead(s)] + s[Lead(s)..];
      }
    }
  }

  // --- blanks ---

  /** The characters with the property White_Space. */
  predicate Blank(c: nat) {
    || 0x09 <= c <= 0x0D || c in {0x20, 0x85, 0xA0, 0x1680, 0x2028, 0x2029, 0x202F, 0x205F, 0x3000}
    || 0x2000 <= c <= 0x200A
  }

  /** Without the blanks at its end. */
  function TrimEnd(s: seq<nat>): (r: seq<nat>)
    ensures r <= s && (r == [] || !Blank(r[|r| - 1]))
    ensures forall i :: |r| <= i < |s| ==> Blank(s[i])
  {
    if s == [] || !Blank(s[|s| - 1]) then s else TrimEnd(s[..|s| - 1])
  }

  lemma {:induction false} TrimBlanks(s: seq<nat>, k: nat)
    requires k <= |s| && (k > 0 ==> !Blank(s[k - 1])) && forall i :: k <= i < |s| ==> Blank(s[i])
    ensures TrimEnd(s) == s[..k]
    decreases |s|
  {
    if k < |s| {
      TrimBlanks(s[..|s| - 1], k);
      assert s[..|s| - 1][..k] == s[..k];
    } else {
      assert s[..k] == s;
    }
  }

  lemma {:induction false} DecodeAscii(s: seq<byte>)
    requires forall i :: 0 <= i < |s| ==> s[i] < 0x80
    ensures Decode(s).Some? && |Decode(s).value| == |s|
    ensures forall i :: 0 <= i < |s| ==> Decode(s).value[i] == s[i]
  {
    if s != [] { DecodeAscii(s[1..]); }
  }
}
