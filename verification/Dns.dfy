/** DNS queries for an address and the reading of answers, against the message format of sections 4.1.1 to
    4.1.4 of RFC 1035. */
module Dns {
  import opened Basics

  const TYPE_A := 1
  const CLASS_IN := 1
  const DOT: byte := 46
  const HEADER := 12

  function Be16(v: nat): (s: seq<byte>)
    requires v < 0x1_0000
    ensures |s| == 2 && U16(s, 0) == v
  {
    [v / 256, v % 256]
  }

  function U16(msg: seq<byte>, i: nat): nat
    requires i + 2 <= |msg|
  {
    256 * (msg[i] as int) + msg[i + 1]
  }

  // --- the format ---

  /** A name: labels, then the root or a pointer to the rest of it elsewhere. */
  datatype Tail = Root | Pointer(high: byte, low: byte)

  datatype Name = Name(labels: seq<seq<byte>>, tail: Tail)

  predicate GoodLabel(l: seq<byte>) { 1 <= |l| <= 63 }

  predicate GoodName(n: Name) {
    && (forall i :: 0 <= i < |n.labels| ==> GoodLabel(n.labels[i]))
    && (n.tail.Pointer? ==> n.tail.high >= 0xC0)
  }

  function EncodeLabels(labels: seq<seq<byte>>): seq<byte>
    requires forall i :: 0 <= i < |labels| ==> GoodLabel(labels[i])
  {
    if labels == [] then [] else
    assert GoodLabel(labels[0]);
    var len: byte := |labels[0]|;
    [len] + labels[0] + EncodeLabels(labels[1..])
  }

  function EncodeTail(t: Tail): seq<byte> {
    match t
    case Root => [0]
    case Pointer(h, l) => [h, l]
  }

  function EncodeName(n: Name): seq<byte>
    requires GoodName(n)
  {
    EncodeLabels(n.labels) + EncodeTail(n.tail)
  }

  datatype Question = Question(name: Name, qtype: nat, qclass: nat)

  datatype Record = Record(name: Name, rtype: nat, rclass: nat, ttl: seq<byte>, rdata: seq<byte>)

  predicate GoodQuestion(q: Question) { GoodName(q.name) && q.qtype < 0x1_0000 && q.qclass < 0x1_0000 }

  predicate GoodRecord(r: Record) {
    GoodName(r.name) && r.rtype < 0x1_0000 && r.rclass < 0x1_0000 && |r.ttl| == 4 && |r.rdata| < 0x1_0000
  }

  function EncodeQuestion(q: Question): seq<byte>
    requires GoodQuestion(q)
  {
    EncodeName(q.name) + (Be16(q.qtype) + Be16(q.qclass))
  }

  /** Type, class, time to live and length: the ten bytes before the data. */
  function RecordHead(r: Record): (s: seq<byte>)
    requires GoodRecord(r)
    ensures |s| == 10 && U16(s, 0) == r.rtype && U16(s, 2) == r.rclass && U16(s, 8) == |r.rdata|
  {
    Be16(r.rtype) + Be16(r.rclass) + r.ttl + Be16(|r.rdata|)
  }

  function EncodeRecord(r: Record): seq<byte>
    requires GoodRecord(r)
  {
    EncodeName(r.name) + (RecordHead(r) + r.rdata)
  }

  function EncodeQuestions(qs: seq<Question>): seq<byte>
    requires forall i :: 0 <= i < |qs| ==> GoodQuestion(qs[i])
  {
    if qs == [] then [] else EncodeQuestion(qs[0]) + EncodeQuestions(qs[1..])
  }

  function EncodeRecords(rs: seq<Record>): seq<byte>
    requires forall i :: 0 <= i < |rs| ==> GoodRecord(rs[i])
  {
    if rs == [] then [] else EncodeRecord(rs[0]) + EncodeRecords(rs[1..])
  }

  /** A whole message; `more` is whatever follows the answers. */
  datatype Message = Message(
    id: nat, flags: seq<byte>, questions: seq<Question>, answers: seq<Record>, counts: seq<byte>, more: seq<byte>)

  predicate GoodMessage(m: Message) {
    && m.id < 0x1_0000 && |m.flags| == 2 && |m.counts| == 4 && |m.questions| < 0x1_0000 && |m.answers| < 0x1_0000
    && (forall i :: 0 <= i < |m.questions| ==> GoodQuestion(m.questions[i]))
    && (forall i :: 0 <= i < |m.answers| ==> GoodRecord(m.answers[i]))
  }

  function EncodeHeader(m: Message): (s: seq<byte>)
    requires GoodMessage(m)
    ensures |s| == HEADER && U16(s, 0) == m.id && s[3] == m.flags[1]
    ensures U16(s, 4) == |m.questions| && U16(s, 6) == |m.answers|
  {
    Be16(m.id) + m.flags + Be16(|m.questions|) + Be16(|m.answers|) + m.counts
  }

  function Encode(m: Message): seq<byte>
    requires GoodMessage(m)
  {
    EncodeHeader(m) + (EncodeQuestions(m.questions) + (EncodeRecords(m.answers) + m.more))
  }

  predicate IsAddress(r: Record) { r.rtype == TYPE_A && r.rclass == CLASS_IN && |r.rdata| == 4 }

  /** The data of the first address record. */
  function FirstAddress(rs: seq<Record>): Option<seq<byte>> {
    if rs == [] then None else if IsAddress(rs[0]) then Some(rs[0].rdata) else FirstAddress(rs[1..])
  }

  // --- reading ---

  function SkipName(msg: seq<byte>, pos: nat): (r: Option<nat>)
    ensures r.Some? ==> pos < r.value <= |msg|
    decreases |msg| - pos
  {
    if pos >= |msg| then None
    else if msg[pos] >= 0xC0 then (if pos + 1 < |msg| then Some(pos + 2) else None)
    else if msg[pos] == 0 then Some(pos + 1)
    else SkipName(msg, pos + 1 + msg[pos])
  }

  function SkipQuestions(msg: seq<byte>, pos: nat, n: nat): Option<nat>
    decreases n
  {
    if n == 0 then Some(pos)
    else
      match SkipName(msg, pos)
      case None => None
      case Some(p) => SkipQuestions(msg, p + 4, n - 1)
  }

  function FindAddress(msg: seq<byte>, pos: nat, n: nat): (r: Option<seq<byte>>)
    ensures r.Some? ==> |r.value| == 4
    decreases n
  {
    if n == 0 then None
    else
      match SkipName(msg, pos)
      case None => None
      case Some(p) =>
        if p + 10 > |msg| then None
        else
          var rend := p + 10 + U16(msg, p + 8);
          if rend > |msg| then None
          else if U16(msg, p) == TYPE_A && U16(msg, p + 2) == CLASS_IN && rend == p + 14 then Some(msg[p + 10..p + 14])
          else FindAddress(msg, rend, n - 1)
  }

  function FindA(msg: seq<byte>): Option<seq<byte>>
    requires HEADER <= |msg|
  {
    if msg[3] % 16 != 0 then None
    else
      match SkipQuestions(msg, HEADER, U16(msg, 4))
      case None => None
      case Some(pos) => FindAddress(msg, pos, U16(msg, 6))
  }

  // --- skipping lands where the encoding ends ---

  /** `bytes` are in the message at `pos`. */
  ghost predicate At(msg: seq<byte>, pos: nat, bytes: seq<byte>) {
    pos + |bytes| <= |msg| && msg[pos..pos + |bytes|] == bytes
  }

  lemma AtSplit(msg: seq<byte>, pos: nat, a: seq<byte>, b: seq<byte>)
    requires At(msg, pos, a + b)
    ensures At(msg, pos, a) && At(msg, pos + |a|, b)
  {
    var m := msg[pos..pos + |a + b|];
    assert msg[pos..pos + |a|] == m[..|a|] == a;
    assert msg[pos + |a|..pos + |a| + |b|] == m[|a|..] == b;
  }

  lemma AtByte(msg: seq<byte>, pos: nat, bytes: seq<byte>, i: nat)
    requires At(msg, pos, bytes) && i < |bytes|
    ensures msg[pos + i] == bytes[i]
  {
    assert msg[pos..pos + |bytes|][i] == msg[pos + i];
  }

  lemma {:induction false} SkipsName(msg: seq<byte>, pos: nat, n: Name)
    requires GoodName(n) && At(msg, pos, EncodeName(n))
    ensures SkipName(msg, pos) == Some(pos + |EncodeName(n)|)
    decreases |n.labels|
  {
    if n.labels != [] {
      var l, rest := n.labels[0], Name(n.labels[1..], n.tail);
      var len: byte := |l|;
      var step: seq<byte> := [len] + l;
      assert EncodeName(n) == step + EncodeName(rest);
      AtSplit(msg, pos, step, EncodeName(rest));
      AtByte(msg, pos, step, 0);
      hide At;
      SkipsName(msg, pos + |step|, rest);
    } else {
      assert EncodeName(n) == EncodeTail(n.tail);
      AtByte(msg, pos, EncodeTail(n.tail), 0);
    }
  }

  lemma {:induction false} SkipsQuestions(msg: seq<byte>, pos: nat, qs: seq<Question>)
    requires (forall i :: 0 <= i < |qs| ==> GoodQuestion(qs[i])) && At(msg, pos, EncodeQuestions(qs))
    ensures SkipQuestions(msg, pos, |qs|) == Some(pos + |EncodeQuestions(qs)|)
    decreases |qs|
  {
    hide At, EncodeName, SkipName;
    if qs != [] {
      var q := qs[0];
      AtSplit(msg, pos, EncodeQuestion(q), EncodeQuestions(qs[1..]));
      AtSplit(msg, pos, EncodeName(q.name), Be16(q.qtype) + Be16(q.qclass));
      SkipsName(msg, pos, q.name);
      SkipsQuestions(msg, pos + |EncodeQuestion(q)|, qs[1..]);
    }
  }

  lemma {:induction false} FindsAddress(msg: seq<byte>, pos: nat, rs: seq<Record>)
    requires (forall i :: 0 <= i < |rs| ==> GoodRecord(rs[i])) && At(msg, pos, EncodeRecords(rs))
    ensures FindAddress(msg, pos, |rs|) == FirstAddress(rs)
    decreases |rs|
  {
    hide At, EncodeRecord;
    if rs != [] {
      AtSplit(msg, pos, EncodeRecord(rs[0]), EncodeRecords(rs[1..]));
      OneRecord(msg, pos, rs[0], |rs|);
      hide FindAddress;
      FindsAddress(msg, pos + |EncodeRecord(rs[0])|, rs[1..]);
    }
  }

  lemma OneRecord(msg: seq<byte>, pos: nat, r: Record, n: nat)
    requires GoodRecord(r) && n > 0 && At(msg, pos, EncodeRecord(r))
    ensures FindAddress(msg, pos, n) ==
            if IsAddress(r) then Some(r.rdata) else FindAddress(msg, pos + |EncodeRecord(r)|, n - 1)
  {
    hide At, EncodeName, RecordHead, SkipName, FindAddress;
    AtSplit(msg, pos, EncodeName(r.name), RecordHead(r) + r.rdata);
    SkipsName(msg, pos, r.name);
    var p := pos + |EncodeName(r.name)|;
    AtSplit(msg, p, RecordHead(r), r.rdata);
    HeadInPlace(msg, p, RecordHead(r));
    assert At(msg, p + 10, r.rdata);
    DataInPlace(msg, p + 10, r.rdata);
    FindStep(msg, pos, p, r, n);
  }

  lemma HeadInPlace(msg: seq<byte>, p: nat, head: seq<byte>)
    requires |head| == 10 && At(msg, p, head)
    ensures p + 10 <= |msg| && U16(msg, p) == U16(head, 0) && U16(msg, p + 2) == U16(head, 2)
    ensures U16(msg, p + 8) == U16(head, 8)
  {
    forall i | 0 <= i < 10 ensures msg[p + i] == head[i] { AtByte(msg, p, head, i); }
  }

  lemma DataInPlace(msg: seq<byte>, p: nat, data: seq<byte>)
    requires At(msg, p, data)
    ensures p + |data| <= |msg| && msg[p..p + |data|] == data
  {
  }

  lemma FindStep(msg: seq<byte>, pos: nat, p: nat, r: Record, n: nat)
    requires n > 0 && SkipName(msg, pos) == Some(p) && p + 10 + |r.rdata| <= |msg|
    requires U16(msg, p) == r.rtype && U16(msg, p + 2) == r.rclass && U16(msg, p + 8) == |r.rdata|
    requires msg[p + 10..p + 10 + |r.rdata|] == r.rdata
    ensures FindAddress(msg, pos, n) ==
            if IsAddress(r) then Some(r.rdata) else FindAddress(msg, p + 10 + |r.rdata|, n - 1)
  {
    hide SkipName, U16;
  }

  /** On every well-formed message without an error code: the first address record, or none. */
  lemma FindsFirstAddress(m: Message)
    requires GoodMessage(m) && m.flags[1] % 16 == 0
    ensures FindA(Encode(m)) == FirstAddress(m.answers)
  {
    hide EncodeHeader, EncodeQuestions, EncodeRecords, SkipQuestions, FindAddress, FirstAddress, At;
    var msg, head := Encode(m), EncodeHeader(m);
    AtAll(msg);
    AtSplit(msg, 0, head, EncodeQuestions(m.questions) + (EncodeRecords(m.answers) + m.more));
    AtSplit(msg, HEADER, EncodeQuestions(m.questions), EncodeRecords(m.answers) + m.more);
    var pos := HEADER + |EncodeQuestions(m.questions)|;
    AtSplit(msg, pos, EncodeRecords(m.answers), m.more);
    HeaderInPlace(msg, head);
    SkipsQuestions(msg, HEADER, m.questions);
    FindsAddress(msg, pos, m.answers);
  }

  lemma AtAll(msg: seq<byte>)
    ensures At(msg, 0, msg)
  {
  }

  lemma HeaderInPlace(msg: seq<byte>, head: seq<byte>)
    requires |head| == HEADER && At(msg, 0, head)
    ensures HEADER <= |msg| && msg[3] == head[3]
    ensures U16(msg, 0) == U16(head, 0) && U16(msg, 4) == U16(head, 4) && U16(msg, 6) == U16(head, 6)
  {
    forall i | 0 <= i < HEADER ensures msg[0 + i] == head[i] { AtByte(msg, 0, head, i); }
  }

  // --- the reading code ---

  method SkipNameAt(msg: seq<byte>, start: nat) returns (r: Option<nat>)
    ensures r == SkipName(msg, start)
  {
    var pos := start;
    while pos < |msg|
      invariant SkipName(msg, start) == SkipName(msg, pos)
      decreases |msg| - pos
    {
      var len := msg[pos];
      if len >= 0xC0 { return if pos + 1 < |msg| then Some(pos + 2) else None; }
      if len == 0 { return Some(pos + 1); }
      pos := pos + 1 + len;
    }
    r := None;
  }

  method FindFirstA(msg: seq<byte>) returns (r: Option<seq<byte>>)
    requires HEADER <= |msg|
    ensures r == FindA(msg)
  {
    if msg[3] % 16 != 0 { return None; }
    hide SkipName, U16;
    var qdcount, ancount := U16(msg, 4), U16(msg, 6);
    var pos: nat, i := HEADER, 0;
    while i < qdcount
      invariant 0 <= i <= qdcount && SkipQuestions(msg, HEADER, qdcount) == SkipQuestions(msg, pos, qdcount - i)
    {
      var p := SkipNameAt(msg, pos);
      if p.None? { return None; }
      pos := p.value + 4;
      i := i + 1;
    }
    ghost var answers := pos;
    i := 0;
    while i < ancount
      invariant 0 <= i <= ancount && FindAddress(msg, answers, ancount) == FindAddress(msg, pos, ancount - i)
    {
      var p := SkipNameAt(msg, pos);
      if p.None? || p.value + 10 > |msg| { return None; }
      var rtype, rclass, rdlen := U16(msg, p.value), U16(msg, p.value + 2), U16(msg, p.value + 8);
      var rdata := p.value + 10;
      var rend := rdata + rdlen;
      if rend > |msg| { return None; }
      if rtype == TYPE_A && rclass == CLASS_IN && rdlen == 4 { return Some(msg[rdata..rdata + 4]); }
      pos := rend;
      i := i + 1;
    }
    r := None;
  }

  datatype Answer = Ipv4(addr: seq<byte>) | NoIpv4 | Ignore

  method ParseAnswer(id: nat, msg: seq<byte>) returns (r: Answer)
    ensures r == Ignore <==> |msg| < HEADER || U16(msg, 0) != id
    ensures r != Ignore ==> r == match FindA(msg) { case Some(a) => Ipv4(a) case None => NoIpv4 }
  {
    if |msg| < HEADER || U16(msg, 0) != id { return Ignore; }
    var a := FindFirstA(msg);
    r := match a { case Some(addr) => Ipv4(addr) case None => NoIpv4 };
  }

  /** An answer to our query is understood as its first address record says. */
  lemma AnswerUnderstood(m: Message)
    requires GoodMessage(m)
    ensures HEADER <= |Encode(m)| && U16(Encode(m), 0) == m.id
    ensures m.flags[1] % 16 == 0 ==> FindA(Encode(m)) == FirstAddress(m.answers)
    ensures m.flags[1] % 16 != 0 ==> FindA(Encode(m)) == None
  {
    hide EncodeHeader, EncodeQuestions, EncodeRecords, At, SkipQuestions, FindAddress;
    AtAll(Encode(m));
    AtSplit(Encode(m), 0, EncodeHeader(m), EncodeQuestions(m.questions) + (EncodeRecords(m.answers) + m.more));
    HeaderInPlace(Encode(m), EncodeHeader(m));
    if m.flags[1] % 16 == 0 { FindsFirstAddress(m); }
  }

  // --- building a query ---

  /** The parts of a name between its dots. */
  function Split(s: seq<byte>): (parts: seq<seq<byte>>)
    ensures |parts| >= 1
  {
    if s == [] then [[]]
    else if s[0] == DOT then [[]] + Split(s[1..])
    else var rest := Split(s[1..]); [[s[0]] + rest[0]] + rest[1..]
  }

  function Join(parts: seq<seq<byte>>): seq<byte>
    requires |parts| >= 1
  {
    if |parts| == 1 then parts[0] else parts[0] + [DOT] + Join(parts[1..])
  }

  /** Splitting is undone by joining, and no part has a dot in it. */
  lemma {:induction false} SplitJoins(s: seq<byte>)
    ensures Join(Split(s)) == s && forall i :: 0 <= i < |Split(s)| ==> DOT !in Split(s)[i]
  {
    if s != [] {
      SplitJoins(s[1..]);
      var rest := Split(s[1..]);
      assert s == [s[0]] + s[1..];
      if s[0] == DOT {
        assert Split(s)[1..] == rest;
      } else {
        assert Split(s)[1..] == rest[1..];
      }
    }
  }

  function StripDot(host: seq<byte>): seq<byte> {
    if host != [] && host[|host| - 1] == DOT then host[..|host| - 1] else host
  }

  /** One final dot is dropped and nothing else. */
  lemma FinalDot(host: seq<byte>)
    ensures StripDot(host + [0x2E]) == host
    ensures host == [] || host[|host| - 1] != 0x2E ==> StripDot(host) == host
  {
  }

  predicate GoodLabels(labels: seq<seq<byte>>) { forall i :: 0 <= i < |labels| ==> GoodLabel(labels[i]) }

  /** The message a query for `labels` is: one question, recursion desired, nothing else. */
  function QueryFor(id: nat, labels: seq<seq<byte>>): Message {
    Message(id, [1, 0], [Question(Name(labels, Root), TYPE_A, CLASS_IN)], [], [0, 0, 0, 0], [])
  }

  lemma QueryGood(id: nat, labels: seq<seq<byte>>)
    requires id < 0x1_0000 && GoodLabels(labels)
    ensures GoodMessage(QueryFor(id, labels))
    ensures Encode(QueryFor(id, labels)) == QueryHead(id) + EncodeLabels(labels) + QueryEnd()
  {
    var m := QueryFor(id, labels);
    hide EncodeLabels;
    assert EncodeQuestions(m.questions[1..]) == [] && EncodeRecords(m.answers) == [];
    assert EncodeHeader(m) == QueryHead(id);
    assert EncodeQuestions(m.questions) == EncodeQuestion(m.questions[0]) + [];
    assert EncodeQuestion(m.questions[0]) == EncodeLabels(labels) + QueryEnd();
  }

  function QueryHead(id: nat): (s: seq<byte>)
    requires id < 0x1_0000
    ensures |s| == HEADER
  {
    Be16(id) + [1, 0] + [0, 1] + [0, 0, 0, 0, 0, 0]
  }

  function QueryEnd(): seq<byte> { [0] + Be16(TYPE_A) + Be16(CLASS_IN) }

  /** Skipping the name of a query lands on its type field. */
  lemma SkipsQuery(id: nat, labels: seq<seq<byte>>)
    requires id < 0x1_0000 && GoodLabels(labels) && GoodMessage(QueryFor(id, labels))
    ensures var q := Encode(QueryFor(id, labels));
            && SkipName(q, HEADER) == Some(|q| - 4) && q[|q| - 4..] == Be16(TYPE_A) + Be16(CLASS_IN)
  {
    hide EncodeLabels;
    QueryGood(id, labels);
    var q, n := Encode(QueryFor(id, labels)), Name(labels, Root);
    assert EncodeName(n) == EncodeLabels(labels) + [0];
    assert q == QueryHead(id) + (EncodeName(n) + (Be16(TYPE_A) + Be16(CLASS_IN)));
    AtAll(q);
    AtSplit(q, 0, QueryHead(id), EncodeName(n) + (Be16(TYPE_A) + Be16(CLASS_IN)));
    AtSplit(q, HEADER, EncodeName(n), Be16(TYPE_A) + Be16(CLASS_IN));
    SkipsName(q, HEADER, n);
  }

  /** Appends bytes to the buffer, if they fit. */
  method Write(out: array<byte>, pos: nat, bytes: seq<byte>) returns (r: Option<nat>)
    requires pos <= out.Length
    modifies out
    ensures r.None? <==> pos + |bytes| > out.Length
    ensures r.Some? ==> r.value == pos + |bytes| && out[..r.value] == old(out[..pos]) + bytes
  {
    if pos + |bytes| > out.Length { return None; }
    for i := 0 to |bytes|
      invariant forall j :: 0 <= j < pos ==> out[j] == old(out[j])
      invariant forall j :: 0 <= j < i ==> out[pos + j] == bytes[j]
    {
      out[pos + i] := bytes[i];
    }
    r := Some(pos + |bytes|);
    assert out[..pos] == old(out[..pos]) && out[pos..pos + |bytes|] == bytes;
    assert out[..pos + |bytes|] == out[..pos] + out[pos..pos + |bytes|];
  }

  lemma {:induction false} LabelsMore(labels: seq<seq<byte>>, i: nat)
    requires GoodLabels(labels) && i < |labels|
    ensures GoodLabels(labels[..i]) && GoodLabels(labels[..i + 1])
    ensures EncodeLabels(labels[..i + 1]) == EncodeLabels(labels[..i]) + Labelled(labels[i])
    decreases i
  {
    if i == 0 {
      assert labels[..1] == [labels[0]] && labels[..0] == [] && labels[..1][1..] == [];
    } else {
      LabelsMore(labels[1..], i - 1);
      assert labels[..i + 1][1..] == labels[1..][..i] && labels[..i][1..] == labels[1..][..i - 1];
      assert labels[1..][i - 1] == labels[i];
    }
  }

  function Labelled(l: seq<byte>): seq<byte>
    requires GoodLabel(l)
  {
    var len: byte := |l|;
    [len] + l
  }

  lemma {:induction false} LabelsGrow(labels: seq<seq<byte>>, i: nat)
    requires GoodLabels(labels) && i <= |labels|
    ensures GoodLabels(labels[..i]) && |EncodeLabels(labels[..i])| <= |EncodeLabels(labels)|
    decreases |labels| - i
  {
    if i == |labels| {
      assert labels[..i] == labels;
    } else {
      LabelsMore(labels, i);
      LabelsGrow(labels, i + 1);
    }
  }

  /** Writes the labels one by one; fails on a bad label or a full buffer. */
  method WriteLabels(out: array<byte>, start: nat, labels: seq<seq<byte>>) returns (r: Option<nat>)
    requires start <= out.Length
    modifies out
    ensures r.Some? <==> GoodLabels(labels) && start + |EncodeLabels(labels)| <= out.Length
    ensures r.Some? ==>
              r.value == start + |EncodeLabels(labels)| && out[..r.value] == old(out[..start]) + EncodeLabels(labels)
  {
    hide EncodeLabels, Labelled;
    var pos, i := start, 0;
    NoLabels(labels);
    ghost var before := out[..start];
    while i < |labels|
      invariant 0 <= i <= |labels| && GoodLabels(labels[..i])
      invariant start <= pos == start + |EncodeLabels(labels[..i])| <= out.Length
      invariant out[..pos] == before + EncodeLabels(labels[..i])
    {
      var part := labels[i];
      if !GoodLabel(part) { return None; }
      GoodMore(labels, i);
      LabelsMore(labels[..i + 1], i);
      assert labels[..i + 1][..i] == labels[..i] && labels[..i + 1][..i + 1] == labels[..i + 1];
      if GoodLabels(labels) { LabelsGrow(labels, i + 1); }
      var p := Write(out, pos, Labelled(part));
      if p.None? { return None; }
      assert before + EncodeLabels(labels[..i]) + Labelled(part) == before + EncodeLabels(labels[..i + 1]);
      pos, i := p.value, i + 1;
    }
    assert labels[..|labels|] == labels;
    r := Some(pos);
  }

  lemma NoLabels(labels: seq<seq<byte>>)
    ensures labels[..0] == [] && EncodeLabels(labels[..0]) == []
  {
  }

  lemma GoodMore(labels: seq<seq<byte>>, i: nat)
    requires i < |labels| && GoodLabels(labels[..i]) && GoodLabel(labels[i])
    ensures GoodLabels(labels[..i + 1])
  {
    var more := labels[..i + 1];
    forall j | 0 <= j < |more| ensures GoodLabel(more[j]) {
      if j < i { assert more[j] == labels[..i][j]; }
    }
  }

  /** Writes the query for a host name: exactly the encoding of a message with that one question. */
  method BuildQuery(id: nat, host: seq<byte>, out: array<byte>) returns (r: Option<nat>)
    requires id < 0x1_0000
    modifies out
    ensures var labels := Split(StripDot(host));
            && (GoodLabels(labels) ==> GoodMessage(QueryFor(id, labels)))
            && (r.Some? <==> GoodLabels(labels) && |Encode(QueryFor(id, labels))| <= out.Length)
            && (r.Some? ==> r.value <= out.Length && out[..r.value] == Encode(QueryFor(id, labels)))
    ensures var name := StripDot(host);
            && (r.Some? <==>
                  |name| + 18 <= out.Length && forall i :: 0 <= i < |Split(name)| ==> 1 <= |Split(name)[i]| <= 63)
            && (r.Some? ==>
                  && r.value == |name| + 18
                  && forall k :: 0 <= k < |name| && name[k] != 0x2E ==> out[..r.value][13 + k] == name[k])
    ensures r.Some? ==>
              && 17 <= r.value <= out.Length && U16(out[..r.value], 0) == id && out[2] == 0x01 && out[3] == 0x00
              && out[4] == 0 && out[5] == 1 && (forall i :: 6 <= i < 12 ==> out[i] == 0)
              && out[r.value - 5] == 0 && U16(out[..r.value], r.value - 4) == 1 && U16(out[..r.value], r.value - 2) == 1
  {
    hide Encode, Split, EncodeLabels, GoodMessage;
    var labels := Split(StripDot(host));
    if GoodLabels(labels) {
      QueryGood(id, labels);
      SplitJoins(StripDot(host));
      LabelBytes(labels);
    }
    var pos := Write(out, 0, QueryHead(id));
    if pos.None? { return None; }
    pos := WriteLabels(out, pos.value, labels);
    if pos.None? { return None; }
    r := Write(out, pos.value, QueryEnd());
    if r.Some? { QueryBytes(id, labels, out[..r.value]); }
  }

  /** Encoded, a name keeps its bytes, one place further on, with lengths where its dots were. */
  lemma {:induction false} LabelBytes(labels: seq<seq<byte>>)
    requires GoodLabels(labels) && labels != []
    ensures |EncodeLabels(labels)| == |Join(labels)| + 1
    ensures forall k :: 0 <= k < |Join(labels)| && Join(labels)[k] != 0x2E ==>
              EncodeLabels(labels)[k + 1] == Join(labels)[k]
  {
    if |labels| > 1 {
      LabelBytes(labels[1..]);
      var l, rest, joined := labels[0], EncodeLabels(labels[1..]), Join(labels[1..]);
      assert EncodeLabels(labels) == Labelled(l) + rest && Join(labels) == l + [DOT] + joined;
      forall k | 0 <= k < |Join(labels)| && Join(labels)[k] != 0x2E
        ensures EncodeLabels(labels)[k + 1] == Join(labels)[k]
      {
        if k > |l| {
          assert EncodeLabels(labels)[k + 1] == rest[k - |l|];
          assert Join(labels)[k] == joined[k - |l| - 1];
        }
      }
    } else {
      assert EncodeLabels(labels[1..]) == [];
    }
  }

  /** Where things are in a query. */
  lemma QueryBytes(id: nat, labels: seq<seq<byte>>, q: seq<byte>)
    requires id < 0x1_0000 && GoodLabels(labels) && q == QueryHead(id) + EncodeLabels(labels) + QueryEnd()
    ensures |q| >= 17 && U16(q, 0) == id && q[2] == 0x01 && q[3] == 0x00 && q[4] == 0 && q[5] == 1
    ensures (forall i :: 6 <= i < 12 ==> q[i] == 0) && q[|q| - 5] == 0 && U16(q, |q| - 4) == 1 && U16(q, |q| - 2) == 1
  {
    hide EncodeLabels;
    var head, end := QueryHead(id), QueryEnd();
    assert head[..2] == Be16(id) && end[1..3] == Be16(1) && end[3..] == Be16(1);
    assert forall i :: 0 <= i < 12 ==> q[i] == head[i];
    assert forall i :: 0 <= i < 5 ==> q[|q| - 5 + i] == end[i];
  }
}
