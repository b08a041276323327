/** The initial stack of a process: arguments, environment and the end of the auxiliary vector, laid out
    as section 3.4.1 of the System V AMD64 psABI says, and read back from there. */
module InitialStack {
  import opened Basics

  // --- words in memory ---

  function Pow256(n: nat): nat { if n == 0 then 1 else 256 * Pow256(n - 1) }

  /** The `n` low bytes of `v`, low byte first. */
  function Bytes(v: nat, n: nat): (s: seq<byte>)
    ensures |s| == n
  {
    if n == 0 then [] else [v % 256] + Bytes(v / 256, n - 1)
  }

  lemma {:induction false} ValueOfBytes(v: nat, n: nat)
    requires v < Pow256(n)
    ensures Value(Bytes(v, n)) == v
  {
    if n > 0 {
      ValueOfBytes(v / 256, n - 1);
      assert Bytes(v, n)[1..] == Bytes(v / 256, n - 1);
    }
  }

  lemma WordRange()
    ensures Pow256(8) == 0x1_0000_0000_0000_0000
  {
    assert Pow256(4) == 0x1_0000_0000;
    assert Pow256(8) == 256 * (256 * (256 * (256 * Pow256(4))));
  }

  // --- reading the stack the way a program does ---

  /** The page `mem` starts at address `floor`. */
  predicate Within(mem: seq<byte>, floor: nat, a: nat, n: nat) {
    floor <= a && a + n <= floor + |mem|
  }

  function WordAt(mem: seq<byte>, floor: nat, a: nat): nat
    requires Within(mem, floor, a, 8)
  {
    Value(mem[a - floor..a - floor + 8])
  }

  /** The string at `a`, up to its zero byte; none if the page ends first. */
  function StringAt(mem: seq<byte>, floor: nat, a: nat): Option<seq<byte>>
    decreases floor + |mem| - a
  {
    if !Within(mem, floor, a, 1) then None
    else if mem[a - floor] == 0 then Some([])
    else
      match StringAt(mem, floor, a + 1)
      case None => None
      case Some(rest) => Some([mem[a - floor]] + rest)
  }

  /** The strings an array of pointers at `a` leads to, up to its null pointer. */
  function StringsAt(mem: seq<byte>, floor: nat, a: nat): Option<seq<seq<byte>>>
    decreases floor + |mem| - a
  {
    if !Within(mem, floor, a, 8) then None
    else if WordAt(mem, floor, a) == 0 then Some([])
    else
      match (StringAt(mem, floor, WordAt(mem, floor, a)), StringsAt(mem, floor, a + 8))
      case (Some(s), Some(rest)) => Some([s] + rest)
      case _ => None
  }

  /** What a program finds at its entry: argument count, arguments, environment, end of auxiliary vector. */
  ghost predicate Reads(mem: seq<byte>, floor: nat, rsp: nat, argv: seq<seq<byte>>, envp: seq<seq<byte>>) {
    var args, env := rsp + 8, rsp + 8 + 8 * |argv| + 8;
    var aux := env + 8 * |envp| + 8;
    && rsp % 16 == 0 && Within(mem, floor, rsp, 8) && WordAt(mem, floor, rsp) == |argv|
    && StringsAt(mem, floor, args) == Some(argv) && StringsAt(mem, floor, env) == Some(envp)
    && Within(mem, floor, aux, 16) && WordAt(mem, floor, aux) == 0 && WordAt(mem, floor, aux + 8) == 0
  }

  // --- what is in place while the stack is built downwards ---

  /** `bytes` are in memory at `a`. */
  predicate Holds(mem: seq<byte>, floor: nat, a: nat, bytes: seq<byte>) {
    Within(mem, floor, a, |bytes|) && mem[a - floor..a - floor + |bytes|] == bytes
  }

  /** Only addresses below `a` differ. */
  predicate SameFrom(mem: seq<byte>, mem': seq<byte>, floor: nat, a: nat) {
    |mem'| == |mem| && forall i :: 0 <= i < |mem| && a <= floor + i ==> mem'[i] == mem[i]
  }

  lemma HoldsSame(mem: seq<byte>, mem': seq<byte>, floor: nat, sp: nat, a: nat, bytes: seq<byte>)
    requires Holds(mem, floor, a, bytes) && SameFrom(mem, mem', floor, sp) && sp <= a
    ensures Holds(mem', floor, a, bytes)
  {
    forall i | 0 <= i < |bytes| ensures mem'[a - floor + i] == bytes[i] {
      assert mem[a - floor..a - floor + |bytes|][i] == bytes[i];
    }
  }

  /** No zero byte inside. */
  predicate CString(s: seq<byte>) { forall i :: 0 <= i < |s| ==> s[i] != 0 }

  lemma {:induction false} ReadsString(mem: seq<byte>, floor: nat, a: nat, s: seq<byte>)
    requires Holds(mem, floor, a, s + [0]) && CString(s)
    ensures StringAt(mem, floor, a) == Some(s)
    decreases |s|
  {
    var m := mem[a - floor..a - floor + |s| + 1];
    assert m == s + [0];
    assert mem[a - floor] == m[0];
    if s != [] {
      assert mem[a + 1 - floor..a + 1 - floor + |s[1..]| + 1] == m[1..];
      assert s[1..] + [0] == (s + [0])[1..];
      ReadsString(mem, floor, a + 1, s[1..]);
      assert s == [s[0]] + s[1..];
    }
  }

  /** Words `ws` are in memory from `a` on. */
  ghost predicate WordsAt(mem: seq<byte>, floor: nat, a: nat, ws: seq<nat>) {
    Within(mem, floor, a, 8 * |ws|) && forall i :: 0 <= i < |ws| ==> Holds(mem, floor, a + 8 * i, Bytes(ws[i], 8))
  }

  lemma ReadsWord(mem: seq<byte>, floor: nat, a: nat, v: nat)
    requires Holds(mem, floor, a, Bytes(v, 8)) && v < 0x1_0000_0000_0000_0000
    ensures WordAt(mem, floor, a) == v
  {
    WordRange();
    ValueOfBytes(v, 8);
    hide Pow256, Bytes, Value;
  }

  /** The strings of `ss` are in memory, at `ps`, none below `sp`. */
  ghost predicate StringsIn(mem: seq<byte>, floor: nat, sp: nat, ps: seq<nat>, ss: seq<seq<byte>>) {
    |ps| == |ss| && forall i :: 0 <= i < |ps| ==> sp <= ps[i] && Holds(mem, floor, ps[i], ss[i] + [0])
  }

  lemma StringsSame(mem: seq<byte>, mem': seq<byte>, floor: nat, sp: nat, sp': nat, ps: seq<nat>, ss: seq<seq<byte>>)
    requires StringsIn(mem, floor, sp, ps, ss) && SameFrom(mem, mem', floor, sp) && sp' <= sp
    ensures StringsIn(mem', floor, sp', ps, ss)
  {
    forall i | 0 <= i < |ps| ensures sp' <= ps[i] && Holds(mem', floor, ps[i], ss[i] + [0]) {
      HoldsSame(mem, mem', floor, sp, ps[i], ss[i] + [0]);
    }
  }

  lemma WordsSame(mem: seq<byte>, mem': seq<byte>, floor: nat, a: nat, ws: seq<nat>)
    requires WordsAt(mem, floor, a, ws) && SameFrom(mem, mem', floor, a)
    ensures WordsAt(mem', floor, a, ws)
  {
    forall i | 0 <= i < |ws| ensures Holds(mem', floor, a + 8 * i, Bytes(ws[i], 8)) {
      HoldsSame(mem, mem', floor, a, a + 8 * i, Bytes(ws[i], 8));
    }
  }

  lemma WordsTail(mem: seq<byte>, floor: nat, a: nat, ws: seq<nat>, k: nat)
    requires WordsAt(mem, floor, a, ws) && k <= |ws|
    ensures WordsAt(mem, floor, a + 8 * k, ws[k..])
  {
    hide Bytes, Holds;
    forall i | 0 <= i < |ws[k..]| ensures Holds(mem, floor, a + 8 * k + 8 * i, Bytes(ws[k..][i], 8)) {
      assert Holds(mem, floor, a + 8 * (k + i), Bytes(ws[k + i], 8));
      assert a + 8 * (k + i) == a + 8 * k + 8 * i;
    }
  }

  lemma WordsHead(mem: seq<byte>, floor: nat, a: nat, ws: seq<nat>, k: nat)
    requires WordsAt(mem, floor, a, ws) && k <= |ws|
    ensures WordsAt(mem, floor, a, ws[..k])
  {
  }

  lemma FirstWord(mem: seq<byte>, floor: nat, a: nat, ws: seq<nat>)
    requires WordsAt(mem, floor, a, ws) && ws != [] && ws[0] < 0x1_0000_0000_0000_0000
    ensures Within(mem, floor, a, 8) && WordAt(mem, floor, a) == ws[0]
  {
    assert Holds(mem, floor, a + 8 * 0, Bytes(ws[0], 8));
    ReadsWord(mem, floor, a, ws[0]);
  }

  /** An array of pointers to strings, ended by null, reads back as the strings. */
  lemma {:induction false} ReadsStrings(mem: seq<byte>, floor: nat, a: nat, sp: nat, ps: seq<nat>, ss: seq<seq<byte>>)
    requires WordsAt(mem, floor, a, ps + [0]) && StringsIn(mem, floor, sp, ps, ss) && 0 < floor
    requires floor + |mem| <= 0x1_0000_0000_0000_0000 && forall i :: 0 <= i < |ss| ==> CString(ss[i])
    ensures StringsAt(mem, floor, a) == Some(ss)
    decreases |ps|
  {
    hide WordsAt, StringAt, CString, WordAt;
    if ps == [] {
      FirstWord(mem, floor, a, ps + [0]);
    } else {
      assert Holds(mem, floor, ps[0], ss[0] + [0]);
      FirstWord(mem, floor, a, ps + [0]);
      ReadsString(mem, floor, ps[0], ss[0]);
      WordsTail(mem, floor, a, ps + [0], 1);
      assert (ps + [0])[1..] == ps[1..] + [0];
      ReadsStrings(mem, floor, a + 8, sp, ps[1..], ss[1..]);
      assert ss == [ss[0]] + ss[1..];
    }
  }

  // --- building ---

  /** Copies bytes into the page. */
  method Store(page: array<byte>, off: nat, bytes: seq<byte>)
    requires off + |bytes| <= page.Length
    modifies page
    ensures page[off..off + |bytes|] == bytes
    ensures forall i :: 0 <= i < page.Length && !(off <= i < off + |bytes|) ==> page[i] == old(page[i])
  {
    for i := 0 to |bytes|
      invariant forall j :: 0 <= j < i ==> page[off + j] == bytes[j]
      invariant forall j :: 0 <= j < page.Length && !(off <= j < off + i) ==> page[j] == old(page[j])
    {
      page[off + i] := bytes[i];
    }
  }

  /** Puts bytes right below `sp`, if there is room above the floor. */
  method Lower(page: array<byte>, floor: nat, sp: nat, bytes: seq<byte>) returns (r: Option<nat>)
    requires floor <= sp <= floor + page.Length
    modifies page
    ensures r.None? <==> sp - floor < |bytes|
    ensures r.None? ==> page[..] == old(page[..])
    ensures r.Some? ==> r.value == sp - |bytes| && Holds(page[..], floor, r.value, bytes)
    ensures SameFrom(old(page[..]), page[..], floor, sp)
  {
    if sp - floor < |bytes| { return None; }
    Store(page, sp - |bytes| - floor, bytes);
    r := Some(sp - |bytes|);
    assert page[..][r.value - floor..r.value - floor + |bytes|] == page[r.value - floor..r.value - floor + |bytes|];
  }

  /** Room for the strings with their zero bytes. */
  function Size(ss: seq<seq<byte>>): nat {
    if ss == [] then 0 else Size(ss[..|ss| - 1]) + |ss[|ss| - 1]| + 1
  }

  lemma SizeStep(ss: seq<seq<byte>>, i: nat)
    requires i < |ss|
    ensures Size(ss[..i + 1]) == Size(ss[..i]) + |ss[i]| + 1
  {
    assert ss[..i + 1][..i] == ss[..i];
  }

  lemma {:induction false} SizeGrows(ss: seq<seq<byte>>, i: nat)
    requires i <= |ss|
    ensures Size(ss[..i]) <= Size(ss)
    decreases |ss| - i
  {
    if i == |ss| {
      assert ss[..i] == ss;
    } else {
      SizeStep(ss, i);
      SizeGrows(ss, i + 1);
    }
  }

  lemma NoStrings(mem: seq<byte>, floor: nat, sp: nat, ss: seq<seq<byte>>)
    ensures StringsIn(mem, floor, sp, [], ss[..0]) && Size(ss[..0]) == 0 && SameFrom(mem, mem, floor, sp)
  {
  }

  lemma StringsPut(
    mem: seq<byte>, mem': seq<byte>, floor: nat, at: nat, p: nat, ps: seq<nat>, ss: seq<seq<byte>>, i: nat)
    requires i < |ss| && StringsIn(mem, floor, at, ps, ss[..i]) && SameFrom(mem, mem', floor, at) && p <= at
    requires Holds(mem', floor, p, ss[i] + [0])
    ensures StringsIn(mem', floor, p, ps + [p], ss[..i + 1])
  {
    hide Holds, SameFrom;
    StringsSame(mem, mem', floor, at, p, ps, ss[..i]);
    assert ss[..i + 1] == ss[..i] + [ss[i]];
  }

  lemma SameFromTwice(a: seq<byte>, b: seq<byte>, c: seq<byte>, floor: nat, at: nat, sp: nat)
    requires SameFrom(a, b, floor, sp) && SameFrom(b, c, floor, at) && at <= sp
    ensures SameFrom(a, c, floor, sp)
  {
  }

  /** Puts the strings below `sp`, first string highest, and returns their addresses. */
  method PutStrings(page: array<byte>, floor: nat, sp: nat, ss: seq<seq<byte>>)
      returns (r: Option<nat>, ps: seq<nat>)
    requires floor <= sp <= floor + page.Length
    modifies page
    ensures r.None? <==> sp - floor < Size(ss)
    ensures r.Some? ==> r.value == sp - Size(ss) && StringsIn(page[..], floor, r.value, ps, ss)
    ensures SameFrom(old(page[..]), page[..], floor, sp)
  {
    hide Holds, StringsIn, Size, SameFrom;
    ps := [];
    var at := sp;
    NoStrings(page[..], floor, sp, ss);
    for i := 0 to |ss|
      invariant floor <= at == sp - Size(ss[..i]) && StringsIn(page[..], floor, at, ps, ss[..i])
      invariant SameFrom(old(page[..]), page[..], floor, sp)
    {
      SizeStep(ss, i);
      SizeGrows(ss, i + 1);
      ghost var mem := page[..];
      var p := Lower(page, floor, at, ss[i] + [0]);
      if p.None? { return None, ps; }
      StringsPut(mem, page[..], floor, at, p.value, ps, ss, i);
      SameFromTwice(old(page[..]), mem, page[..], floor, at, sp);
      at := p.value;
      ps := ps + [p.value];
    }
    assert ss[..|ss|] == ss;
    r := Some(at);
  }

  /** Pushes words, last one first, so that they end up in order above the result. */
  method PushWords(page: array<byte>, floor: nat, sp: nat, ws: seq<nat>, ghost above: seq<nat>) returns (r: Option<nat>)
    requires floor <= sp <= floor + page.Length && WordsAt(page[..], floor, sp, above)
    modifies page
    ensures r.None? <==> sp - floor < 8 * |ws|
    ensures r.Some? ==> r.value == sp - 8 * |ws| && WordsAt(page[..], floor, r.value, ws + above)
    ensures SameFrom(old(page[..]), page[..], floor, sp)
  {
    hide Holds, Bytes, WordsAt;
    var at, i := sp, |ws|;
    assert ws[|ws|..] + above == above;
    while i > 0
      invariant 0 <= i <= |ws| && floor <= at == sp - 8 * (|ws| - i) && WordsAt(page[..], floor, at, ws[i..] + above)
      invariant SameFrom(old(page[..]), page[..], floor, sp)
    {
      ghost var mem := page[..];
      var p := Lower(page, floor, at, Bytes(ws[i - 1], 8));
      if p.None? { return None; }
      PushedOne(mem, page[..], floor, at, ws[i - 1], ws[i..] + above);
      assert [ws[i - 1]] + (ws[i..] + above) == ws[i - 1..] + above;
      at, i := p.value, i - 1;
    }
    assert ws[0..] == ws;
    r := Some(at);
  }

  lemma PushedOne(mem: seq<byte>, mem': seq<byte>, floor: nat, at: nat, w: nat, ws: seq<nat>)
    requires WordsAt(mem, floor, at, ws) && SameFrom(mem, mem', floor, at) && floor + 8 <= at
    requires Holds(mem', floor, at - 8, Bytes(w, 8))
    ensures WordsAt(mem', floor, at - 8, [w] + ws)
  {
    hide Holds, Bytes, SameFrom;
    WordsSame(mem, mem', floor, at, ws);
    var all, a := [w] + ws, at - 8;
    forall i | 0 <= i < |all| ensures Holds(mem', floor, a + 8 * i, Bytes(all[i], 8)) {
      if i > 0 {
        var k := i - 1;
        assert Holds(mem', floor, at + 8 * k, Bytes(ws[k], 8));
        assert all[i] == ws[k] && a + 8 * i == at + 8 * k;
      }
    }
  }

  /** Word slots of the stack's table, made even so that the whole stays aligned. */
  function Slots(n: nat, m: nat): nat {
    var slots := 1 + n + 1 + m + 1 + 2;
    if slots % 2 == 1 then slots + 1 else slots
  }

  /** Everything fits: the strings, the gap for alignment, and the table. */
  predicate Fits(top: nat, floor: nat, argv: seq<seq<byte>>, envp: seq<seq<byte>>) {
    && Size(argv) + Size(envp) + floor <= top
    && floor + 8 * Slots(|argv|, |envp|) <= (top - Size(argv) - Size(envp)) / 16 * 16
  }

  /** The table's upper part: environment, its null, the end of the auxiliary vector, padding. */
  ghost function EnvPart(env: seq<nat>, odd: bool): (ws: seq<nat>)
    ensures |ws| == |env| + 3 + (if odd then 1 else 0)
    ensures ws[..|env| + 1] == env + [0] && ws[|env| + 1] == 0 && ws[|env| + 2] == 0
  {
    env + ([0, 0, 0] + if odd then [0] else [])
  }

  /** Its lower part: the count, the arguments and their null. */
  ghost function ArgsPart(args: seq<nat>, above: seq<nat>): (ws: seq<nat>)
    ensures |ws| == |args| + 2 + |above| && ws[0] == |args| && ws[1..1 + |args| + 1] == args + [0]
    ensures ws[|args| + 2..] == above
  {
    [|args|] + (args + ([0] + above))
  }

  predicate Odd(n: nat, m: nat) { (1 + n + 1 + m + 1 + 2) % 2 == 1 }

  /** The whole table, from the argument count up. */
  ghost function TableWords(args: seq<nat>, env: seq<nat>): (ws: seq<nat>)
    ensures |ws| == Slots(|args|, |env|)
  {
    ArgsPart(args, EnvPart(env, Odd(|args|, |env|)))
  }

  method PushEnv(page: array<byte>, floor: nat, sp: nat, env: seq<nat>, odd: bool) returns (r: Option<nat>)
    requires floor <= sp <= floor + page.Length
    modifies page
    ensures r.None? <==> sp - floor < 8 * |EnvPart(env, odd)|
    ensures r.Some? ==> r.value == sp - 8 * |EnvPart(env, odd)| && WordsAt(page[..], floor, r.value, EnvPart(env, odd))
    ensures SameFrom(old(page[..]), page[..], floor, sp)
  {
    assert WordsAt(page[..], floor, sp, []);
    hide WordsAt;
    var at := sp;
    if odd {
      r := PushWords(page, floor, at, [0], []);
      if r.None? { return; }
      at := r.value;
      assert [0] + [] == [0];
    }
    ghost var pad := if odd then [0] else [];
    r := PushWords(page, floor, at, [0, 0, 0], pad);
    if r.None? { return; }
    r := PushWords(page, floor, r.value, env, [0, 0, 0] + pad);
  }

  method PushArgs(page: array<byte>, floor: nat, sp: nat, args: seq<nat>, ghost above: seq<nat>)
      returns (r: Option<nat>)
    requires floor <= sp <= floor + page.Length && WordsAt(page[..], floor, sp, above)
    modifies page
    ensures r.None? <==> sp - floor < 8 * (|args| + 2)
    ensures r.Some? ==> r.value == sp - 8 * (|args| + 2) && WordsAt(page[..], floor, r.value, ArgsPart(args, above))
    ensures SameFrom(old(page[..]), page[..], floor, sp)
  {
    hide WordsAt;
    r := PushWords(page, floor, sp, [0], above);
    if r.None? { return; }
    r := PushWords(page, floor, r.value, args, [0] + above);
    if r.None? { return; }
    r := PushWords(page, floor, r.value, [|args|], args + ([0] + above));
  }

  /** Padding, end of the auxiliary vector, environment, arguments, count: pushed in that order. */
  method PushTable(page: array<byte>, floor: nat, sp: nat, args: seq<nat>, env: seq<nat>) returns (r: Option<nat>)
    requires floor <= sp <= floor + page.Length
    modifies page
    ensures r.None? <==> sp - floor < 8 * Slots(|args|, |env|)
    ensures r.Some? ==> r.value == sp - 8 * Slots(|args|, |env|)
    ensures r.Some? ==> WordsAt(page[..], floor, r.value, TableWords(args, env))
    ensures SameFrom(old(page[..]), page[..], floor, sp)
  {
    hide WordsAt, EnvPart, ArgsPart;
    var odd := Odd(|args|, |env|);
    r := PushEnv(page, floor, sp, env, odd);
    if r.None? { return; }
    r := PushArgs(page, floor, r.value, args, EnvPart(env, odd));
  }

  /** One word of the table. */
  lemma EntryReads(mem: seq<byte>, floor: nat, a: nat, ws: seq<nat>, k: nat)
    requires WordsAt(mem, floor, a, ws) && k < |ws| && ws[k] < 0x1_0000_0000_0000_0000
    ensures Within(mem, floor, a + 8 * k, 8) && WordAt(mem, floor, a + 8 * k) == ws[k]
  {
    hide WordsAt, WordAt;
    WordsTail(mem, floor, a, ws, k);
    FirstWord(mem, floor, a + 8 * k, ws[k..]);
  }

  /** A run of pointers in the table, with the null after it. */
  lemma RunReads(mem: seq<byte>, floor: nat, a: nat, ws: seq<nat>, k: nat, sp: nat, ps: seq<nat>, ss: seq<seq<byte>>)
    requires WordsAt(mem, floor, a, ws) && k + |ps| < |ws| && ws[k..k + |ps| + 1] == ps + [0]
    requires StringsIn(mem, floor, sp, ps, ss) && 0 < floor && floor + |mem| <= 0x1_0000_0000_0000_0000
    requires forall i :: 0 <= i < |ss| ==> CString(ss[i])
    ensures StringsAt(mem, floor, a + 8 * k) == Some(ss)
  {
    hide WordsAt, StringsAt, CString, StringsIn;
    WordsTail(mem, floor, a, ws, k);
    WordsHead(mem, floor, a + 8 * k, ws[k..], |ps| + 1);
    assert ws[k..][..|ps| + 1] == ps + [0];
    ReadsStrings(mem, floor, a + 8 * k, sp, ps, ss);
  }

  lemma TableParts(args: seq<nat>, env: seq<nat>)
    ensures var ws, n, m := TableWords(args, env), |args|, |env|;
            && n + m + 5 <= |ws| && ws[0] == n && ws[1..1 + n + 1] == args + [0]
            && ws[n + 2..n + 2 + m + 1] == env + [0]
            && ws[n + m + 3] == 0 && ws[n + m + 4] == 0
  {
    hide EnvPart, ArgsPart;
    var ws, n, m := TableWords(args, env), |args|, |env|;
    var above := EnvPart(env, Odd(n, m));
    assert ws[n + 2..] == above;
    assert ws[n + 2..n + 2 + m + 1] == above[..m + 1];
    assert ws[n + 2 + (m + 1)] == above[m + 1] && ws[n + 2 + (m + 2)] == above[m + 2];
  }

  /** A table above the strings reads back. */
  lemma TableReads(
    mem: seq<byte>, floor: nat, rsp: nat, sp: nat, args: seq<nat>, env: seq<nat>, argv: seq<seq<byte>>,
    envp: seq<seq<byte>>)
    requires WordsAt(mem, floor, rsp, TableWords(args, env)) && rsp % 16 == 0 && |args| == |argv| && |env| == |envp|
    requires StringsIn(mem, floor, sp, args, argv) && StringsIn(mem, floor, sp, env, envp)
    requires 0 < floor && floor + |mem| <= 0x1_0000_0000_0000_0000
    requires (forall i :: 0 <= i < |argv| ==> CString(argv[i])) && (forall i :: 0 <= i < |envp| ==> CString(envp[i]))
    ensures Reads(mem, floor, rsp, argv, envp)
  {
    hide StringsAt, CString, WordAt, WordsAt, TableWords, StringsIn, Within;
    CountSmall(mem, floor, rsp, args, env);
    var ws, n, m := TableWords(args, env), |args|, |env|;
    TableParts(args, env);
    EntryReads(mem, floor, rsp, ws, 0);
    RunReads(mem, floor, rsp, ws, 1, sp, args, argv);
    RunReads(mem, floor, rsp, ws, n + 2, sp, env, envp);
    EntryReads(mem, floor, rsp, ws, n + m + 3);
    EntryReads(mem, floor, rsp, ws, n + m + 4);
    Placed(mem, floor, rsp, argv, envp);
  }

  /** The same, by the addresses of the table's entries. */
  lemma Placed(mem: seq<byte>, floor: nat, rsp: nat, argv: seq<seq<byte>>, envp: seq<seq<byte>>)
    requires rsp % 16 == 0 && Within(mem, floor, rsp + 8 * 0, 8) && WordAt(mem, floor, rsp + 8 * 0) == |argv|
    requires StringsAt(mem, floor, rsp + 8 * 1) == Some(argv)
    requires StringsAt(mem, floor, rsp + 8 * (|argv| + 2)) == Some(envp)
    requires var aux := rsp + 8 * (|argv| + |envp| + 3); Within(mem, floor, aux, 8) && WordAt(mem, floor, aux) == 0
    requires var aux := rsp + 8 * (|argv| + |envp| + 4); Within(mem, floor, aux, 8) && WordAt(mem, floor, aux) == 0
    ensures Reads(mem, floor, rsp, argv, envp)
  {
    hide StringsAt, WordAt;
    var env := rsp + 8 + 8 * |argv| + 8;
    assert env == rsp + 8 * (|argv| + 2);
    assert env + 8 * |envp| + 8 == rsp + 8 * (|argv| + |envp| + 3);
    assert env + 8 * |envp| + 8 + 8 == rsp + 8 * (|argv| + |envp| + 4);
  }

  lemma CountSmall(mem: seq<byte>, floor: nat, rsp: nat, args: seq<nat>, env: seq<nat>)
    requires WordsAt(mem, floor, rsp, TableWords(args, env)) && floor + |mem| <= 0x1_0000_0000_0000_0000
    ensures |args| < 0x1_0000_0000_0000_0000
  {
  }

  /** Lays out the initial stack at the top of the page and returns where the argument count is, or
      nothing if it does not fit. */
  method BuildUserStack(page: array<byte>, floor: nat, argv: seq<seq<byte>>, envp: seq<seq<byte>>)
      returns (rsp: Option<nat>)
    requires 0 < floor && floor % 16 == 0 && floor + page.Length <= 0x1_0000_0000_0000_0000
    requires (forall i :: 0 <= i < |argv| ==> CString(argv[i])) && (forall i :: 0 <= i < |envp| ==> CString(envp[i]))
    modifies page
    ensures rsp.Some? <==> Fits(floor + page.Length, floor, argv, envp)
    ensures rsp.Some? ==> floor <= rsp.value && Reads(page[..], floor, rsp.value, argv, envp)
  {
    hide StringsIn, WordsAt, SameFrom, CString, Reads, TableWords;
    var sp, args := PutStrings(page, floor, floor + page.Length, argv);
    if sp.None? { return None; }
    ghost var mem, below := page[..], sp.value;
    var env;
    sp, env := PutStrings(page, floor, sp.value, envp);
    if sp.None? { return None; }
    StringsSame(mem, page[..], floor, below, sp.value, args, argv);
    SameLengths(page[..], floor, sp.value, args, argv);
    SameLengths(page[..], floor, sp.value, env, envp);
    ghost var mem2, strings := page[..], sp.value;
    var aligned := sp.value / 16 * 16;
    rsp := PushTable(page, floor, aligned, args, env);
    if rsp.Some? {
      SameFromMore(mem2, page[..], floor, aligned, strings);
      StringsSame(mem2, page[..], floor, strings, strings, args, argv);
      StringsSame(mem2, page[..], floor, strings, strings, env, envp);
      TableReads(page[..], floor, rsp.value, strings, args, env, argv, envp);
    }
  }

  lemma SameLengths(mem: seq<byte>, floor: nat, sp: nat, ps: seq<nat>, ss: seq<seq<byte>>)
    requires StringsIn(mem, floor, sp, ps, ss)
    ensures |ps| == |ss|
  {
  }

  lemma SameFromMore(mem: seq<byte>, mem': seq<byte>, floor: nat, a: nat, b: nat)
    requires SameFrom(mem, mem', floor, a) && a <= b
    ensures SameFrom(mem, mem', floor, b)
  {
  }
}
