/** The answer to a DNS query for a name on the mesh, and a strict reader of DNS messages
    (sections 4.1.1 to 4.1.4 of RFC 1035) to read it with. */
module Dns {
  import opened Foundations
  import opened Numbers
  import Text

  /** The walk takes any length byte below 0xC0. */
  type Label = l: Bytes | |l| < 0xC0
  type Ipv4 = b: Bytes | |b| == 4 witness [0, 0, 0, 0]

  const HEADER: nat := 12

  /** A big-endian field of a message. */
  function Num(b: Bytes, i: nat, width: nat): nat
  {
    if i + width <= |b| then FromBigEndian(b[i..i + width]) else 0
  }

  lemma NumWithin(b: Bytes, low: nat, high: nat, i: nat, width: nat)
    requires low <= high <= |b| && i + width <= high - low
    ensures Num(b[low..high], i, width) == Num(b, low + i, width)
  {
    SliceOfSlice(b, low, high, i, i + width);
  }

  // ---- the question ----

  /** The labels from `i` on, and where the walk ends: after a zero byte, or at the end of
      the request if there is none. */
  function Walk(req: Bytes, i: nat): (w: Option<(seq<Label>, nat)>)
    requires i <= |req|
    ensures w.Some? ==> i <= w.value.1 <= |req|
    decreases |req| - i
  {
    if i == |req| then Some(([], i))
    else
      var l := req[i];
      if l == 0 then Some(([], i + 1))
      else if l >= 0xC0 || i + 1 + l > |req| then None
      else
        match Walk(req, i + 1 + l)
        case None => None
        case Some((labels, end)) => Some(([req[i + 1..i + 1 + l]] + labels, end))
  }

  /** Name, type and class of a request, if it gets that far. */
  function QuestionOf(req: Bytes): Option<(seq<Label>, nat)>
  {
    if |req| < HEADER then None
    else
      match Walk(req, HEADER)
      case None => None
      case Some((labels, end)) => if end + 4 > |req| then None else Some((labels, end))
  }

  /** The table of names and how a name is spelled in it: labels read as text, joined by
      dots, in lower case. */
  datatype Names = Names(table: map<string, Ipv4>, text: Label -> string, lower: string -> string)

  function Spelled(n: Names, labels: seq<Label>): string
  {
    n.lower(Text.JoinWith(seq(|labels|, i requires 0 <= i < |labels| => n.text(labels[i])), "."))
  }

  function Lookup(n: Names, labels: seq<Label>, qtype: nat): Option<Ipv4>
  {
    if (qtype == 1 || qtype == 255) && Spelled(n, labels) in n.table then Some(n.table[Spelled(n, labels)]) else None
  }

  function AnswerBytes(ip: Option<Ipv4>): Bytes
  {
    if ip.None? then []
    else BigEndian(0xC00C, 2) + BigEndian(1, 2) + BigEndian(1, 2) + BigEndian(30, 4) + BigEndian(4, 2) + ip.value
  }

  function HeaderBytes(id: Bytes, ip: Option<Ipv4>): Bytes
  {
    id + BigEndian(if ip.Some? then 0x8180 else 0x8183, 2) + BigEndian(1, 2)
    + BigEndian(if ip.Some? then 1 else 0, 2) + BigEndian(0, 2) + BigEndian(0, 2)
  }

  function AddressFor(req: Bytes, n: Names): Option<Ipv4>
    requires QuestionOf(req).Some?
  {
    var (labels, end) := QuestionOf(req).value;
    Lookup(n, labels, Num(req, end, 2))
  }

  function Response(req: Bytes, n: Names): Option<Bytes>
  {
    if QuestionOf(req).None? then None
    else
      var (_, end) := QuestionOf(req).value;
      var ip := AddressFor(req, n);
      Some(HeaderBytes(req[..2], ip) + req[HEADER..end + 4] + AnswerBytes(ip))
  }

  /** The loop over the labels. */
  method WalkName(req: Bytes) returns (found: Option<(seq<Label>, nat)>)
    requires |req| >= HEADER
    ensures found == Walk(req, HEADER)
  {
    var i := HEADER;
    var labels: seq<Label> := [];
    ghost var goal := Walk(req, HEADER);
    assert goal.Some? ==> [] + goal.value.0 == goal.value.0;
    while i < |req|
      invariant HEADER <= i <= |req|
      invariant Walk(req, i).None? ==> goal.None?
      invariant Walk(req, i).Some? ==> goal == Some((labels + Walk(req, i).value.0, Walk(req, i).value.1))
    {
      var l := req[i];
      if l == 0 {
        assert labels + [] == labels;
        return Some((labels, i + 1));
      }
      if l >= 0xC0 {
        return None;
      }
      if i + 1 + l > |req| {
        return None;
      }
      ghost var rest := Walk(req, i + 1 + l);
      if rest.Some? {
        assert labels + ([req[i + 1..i + 1 + l]] + rest.value.0) == (labels + [req[i + 1..i + 1 + l]]) + rest.value.0;
      }
      i := i + 1;
      labels := labels + [req[i..i + l]];
      i := i + l;
    }
    assert labels + [] == labels;
    return Some((labels, i));
  }

  method BuildDnsResponse(req: Bytes, n: Names) returns (out: Option<Bytes>)
    ensures out == Response(req, n)
  {
    hide Num, Spelled, Walk, HeaderBytes;
    if |req| < HEADER {
      return None;
    }
    var found := WalkName(req);
    if found.None? {
      return None;
    }
    var (labels, i) := found.value;
    if i + 4 > |req| {
      return None;
    }
    var ip := Lookup(n, labels, Num(req, i, 2));
    var bytes := HeaderBytes(req[..2], ip);
    bytes := bytes + req[HEADER..i + 4];
    if ip.Some? {
      bytes := bytes + AnswerBytes(ip);
    } else {
      assert bytes + [] == bytes;
    }
    return Some(bytes);
  }

  // ---- which address ----

  /** The labels as text with dots between. */
  function Dotted(n: Names, labels: seq<Label>): string
  {
    if labels == [] then "" else if |labels| == 1 then n.text(labels[0]) else n.text(labels[0]) + "." + Dotted(n, labels[1..])
  }

  lemma {:induction false} SpelledIsDotted(n: Names, labels: seq<Label>)
    ensures Spelled(n, labels) == n.lower(Dotted(n, labels))
  {
    JoinedIsDotted(n, labels);
  }

  lemma {:induction false} JoinedIsDotted(n: Names, labels: seq<Label>)
    ensures Text.JoinWith(seq(|labels|, i requires 0 <= i < |labels| => n.text(labels[i])), ".") == Dotted(n, labels)
  {
    var texts := seq(|labels|, i requires 0 <= i < |labels| => n.text(labels[i]));
    if |labels| > 1 {
      var rest := labels[1..];
      JoinedIsDotted(n, rest);
      assert texts[1..] == seq(|rest|, i requires 0 <= i < |rest| => n.text(rest[i]));
    }
  }

  /** A query is answered with an address exactly when it is for an address (type 1) or for
      anything (255) and its name, in lower case with dots, is in the table: with the one the
      table has. The class does not matter. */
  lemma AddressIff(req: Bytes, n: Names, ip: Ipv4)
    requires QuestionOf(req).Some?
    ensures var (labels, end) := QuestionOf(req).value;
      var qtype := 0x100 * (req[end] as int) + req[end + 1] as int; var name := n.lower(Dotted(n, labels));
      && (AddressFor(req, n) == Some(ip) <==> (qtype == 1 || qtype == 255) && name in n.table && n.table[name] == ip)
      && (AddressFor(req, n) == None <==> !((qtype == 1 || qtype == 255) && name in n.table))
  {
    var (labels, end) := QuestionOf(req).value;
    SpelledIsDotted(n, labels);
    BigEndianReadsAs(req[end..end + 2]);
    assert req[end..end + 2][0] == req[end] && req[end..end + 2][1] == req[end + 1];
    hide Spelled, FromBigEndian;
  }

  // ---- which requests are answered ----

  function EncodeName(labels: seq<Label>): Bytes
  {
    if labels == [] then [0] else [|labels[0]|] + labels[0] + EncodeName(labels[1..])
  }

  ghost predicate NameAt(b: Bytes, i: nat, labels: seq<Label>, end: nat)
  {
    && i <= end <= |b| && b[i..end] == EncodeName(labels)
    && (forall l :: l in labels ==> l != [])
  }

  lemma NameStepsIn(b: Bytes, i: nat, labels: seq<Label>, end: nat)
    requires i < |b| && b[i] != 0 && NameAt(b, i, labels, end)
    ensures labels != [] && i + 1 + b[i] <= |b| && labels[0] == b[i + 1..i + 1 + b[i]]
    ensures NameAt(b, i + 1 + b[i], labels[1..], end)
  {
    var all := b[i..end];
    assert all[0] == b[i];
    var l := labels[0];
    SliceOfSlice(b, i, end, 1, 1 + |l|);
    SliceOfSlice(b, i, end, 1 + |l|, |all|);
    assert all[1..1 + |l|] == l && all[1 + |l|..|all|] == EncodeName(labels[1..]);
    assert forall x :: x in labels[1..] ==> x in labels;
  }

  lemma NameStepsOut(b: Bytes, i: nat, labels: seq<Label>, end: nat)
    requires i < |b| && b[i] != 0 && labels != [] && i + 1 + b[i] <= |b| && labels[0] == b[i + 1..i + 1 + b[i]]
    requires NameAt(b, i + 1 + b[i], labels[1..], end)
    ensures NameAt(b, i, labels, end)
  {
    var m := i + 1 + b[i];
    assert [b[i]] + b[i + 1..m] == b[i..m];
    assert b[i..m] + b[m..end] == b[i..end];
    assert b[i..end] == EncodeName(labels);
    forall x | x in labels ensures x != [] {
      assert x == labels[0] || x in labels[1..];
    }
  }

  lemma NameSteps(b: Bytes, i: nat, labels: seq<Label>, end: nat)
    requires i < |b|
    ensures NameAt(b, i, labels, end) <==>
      if b[i] == 0 then labels == [] && end == i + 1
      else
        && labels != [] && i + 1 + b[i] <= |b| && labels[0] == b[i + 1..i + 1 + b[i]]
        && NameAt(b, i + 1 + b[i], labels[1..], end)
  {
    if b[i] == 0 {
      if NameAt(b, i, labels, end) {
        assert b[i..end][0] == b[i];
        FirstByte(labels);
      }
      if labels == [] && end == i + 1 { assert b[i..end] == [0]; }
    } else {
      hide NameAt;
      if NameAt(b, i, labels, end) { NameStepsIn(b, i, labels, end); }
      if labels != [] && i + 1 + b[i] <= |b| && labels[0] == b[i + 1..i + 1 + b[i]] && NameAt(b, i + 1 + b[i], labels[1..], end) {
        NameStepsOut(b, i, labels, end);
      }
    }
  }

  lemma NameEnds(b: Bytes, labels: seq<Label>, end: nat)
    ensures NameAt(b, |b|, labels, end) ==> end == |b|
  {
  }

  /** Short of the last byte, the walk finds exactly the name that is spelled there. */
  lemma {:induction false} WalkIffName(req: Bytes, i: nat, labels: seq<Label>, end: nat)
    requires i <= |req| && end < |req|
    ensures Walk(req, i) == Some((labels, end)) <==> NameAt(req, i, labels, end)
    decreases |req| - i
  {
    hide NameAt;
    if i == |req| {
      NameEnds(req, labels, end);
    } else {
      NameSteps(req, i, labels, end);
      var l := req[i];
      if 0 < l < 0xC0 && i + 1 + l <= |req| {
        var head: Label := req[i + 1..i + 1 + l];
        WalkIffName(req, i + 1 + l, if labels == [] then [] else labels[1..], end);
        assert labels != [] && labels[0] == head ==> labels == [head] + labels[1..];
        match Walk(req, i + 1 + l)
        case Some((more, _)) => assert ([head] + more)[1..] == more && ([head] + more)[0] == head;
        case None =>
      }
    }
  }

  /** A request is answered exactly when a name is spelled out after the header, however
      often its length bytes stray above 63, and a type and class follow. */
  lemma AnsweredIff(req: Bytes, n: Names, labels: seq<Label>, end: nat)
    ensures Response(req, n).Some? && QuestionOf(req).value == (labels, end) <==>
      |req| >= HEADER && NameAt(req, HEADER, labels, end) && end + 4 <= |req|
  {
    if |req| >= HEADER && end < |req| {
      WalkIffName(req, HEADER, labels, end);
    }
  }

  // ---- a strict reader ----

  function ReadLabels(b: Bytes, i: nat): Option<(seq<Label>, nat)>
    decreases |b| - i
  {
    if i >= |b| then None
    else if b[i] == 0 then Some(([], i + 1))
    else if b[i] > 63 || i + 1 + b[i] > |b| then None
    else
      match ReadLabels(b, i + 1 + b[i])
      case None => None
      case Some((labels, end)) => Some(([b[i + 1..i + 1 + b[i]]] + labels, end))
  }

  /** A name spelled out, or a pointer back to one. */
  function ReadName(b: Bytes, i: nat): Option<(seq<Label>, nat)>
  {
    if i + 2 <= |b| && b[i] >= 0xC0 then
      var high: int, low: int := b[i], b[i + 1];
      var target := (high - 0xC0) * 0x100 + low;
      if target >= i || ReadLabels(b, target).None? then None
      else Some((ReadLabels(b, target).value.0, i + 2))
    else ReadLabels(b, i)
  }

  datatype Question = Question(name: seq<Label>, qtype: nat, qclass: nat)
  datatype Record = Record(name: seq<Label>, rtype: nat, rclass: nat, ttl: nat, data: Bytes)
  datatype Message = Message(id: nat, flags: nat, questions: seq<Question>, answers: seq<Record>)

  function ReadQuestion(b: Bytes, i: nat): Option<(Question, nat)>
  {
    match ReadName(b, i)
    case None => None
    case Some((name, j)) =>
      if j + 4 > |b| then None
      else Some((Question(name, Num(b, j, 2), Num(b, j + 2, 2)), j + 4))
  }

  function ReadRecord(b: Bytes, i: nat): Option<(Record, nat)>
  {
    match ReadName(b, i)
    case None => None
    case Some((name, j)) => ReadFields(b, name, j)
  }

  function ReadFields(b: Bytes, name: seq<Label>, j: nat): Option<(Record, nat)>
  {
    if j + 10 > |b| then None
    else
      var n := Num(b, j + 8, 2);
      if j + 10 + n > |b| then None
      else Some((Record(name, Num(b, j, 2), Num(b, j + 2, 2), Num(b, j + 4, 4), b[j + 10..j + 10 + n]), j + 10 + n))
  }

  function ReadQuestions(b: Bytes, i: nat, count: nat): Option<(seq<Question>, nat)>
    decreases count
  {
    if count == 0 then Some(([], i))
    else
      match ReadQuestion(b, i)
      case None => None
      case Some((q, j)) =>
        match ReadQuestions(b, j, count - 1)
        case None => None
        case Some((qs, k)) => Some(([q] + qs, k))
  }

  function ReadRecords(b: Bytes, i: nat, count: nat): Option<(seq<Record>, nat)>
    decreases count
  {
    if count == 0 then Some(([], i))
    else
      match ReadRecord(b, i)
      case None => None
      case Some((r, j)) =>
        match ReadRecords(b, j, count - 1)
        case None => None
        case Some((rs, k)) => Some(([r] + rs, k))
  }

  /** A whole message of questions and answers, with nothing after them. */
  function ReadMessage(b: Bytes): Option<Message>
  {
    if |b| < HEADER || Num(b, 8, 2) != 0 || Num(b, 10, 2) != 0 then None
    else
      match ReadQuestions(b, HEADER, Num(b, 4, 2))
      case None => None
      case Some((qs, j)) =>
        match ReadRecords(b, j, Num(b, 6, 2))
        case None => None
        case Some((rs, k)) =>
          if k != |b| then None else Some(Message(Num(b, 0, 2), Num(b, 2, 2), qs, rs))
  }

  // ---- the answer read back ----

  predicate Short(labels: seq<Label>)
  {
    forall l :: l in labels ==> |l| <= 63
  }

  lemma {:induction false} StrictIff(b: Bytes, i: nat, labels: seq<Label>, end: nat)
    requires NameAt(b, i, labels, end)
    ensures ReadLabels(b, i) == if Short(labels) then Some((labels, end)) else None
    decreases |b| - i
  {
    NameSteps(b, i, labels, end);
    if b[i] != 0 {
      StrictIff(b, i + 1 + b[i], labels[1..], end);
      assert labels == [labels[0]] + labels[1..];
      assert Short(labels) <==> |labels[0]| <= 63 && Short(labels[1..]);
    }
  }

  lemma SmallNumbers()
    ensures Pow256(2) == 0x1_0000 && Pow256(4) == 0x1_0000_0000
  {
    assert Pow256(1) == 0x100 && Pow256(2) == 0x100 * Pow256(1) && Pow256(3) == 0x100 * Pow256(2) && Pow256(4) == 0x100 * Pow256(3);
  }

  /** What a strict reader makes of the answer: the request's id and question, and, exactly
      when the name has an address and one was asked for, that one record for the very name
      asked. It can read it at all exactly when no label of the question is over 63 bytes. */
  lemma AnswerReadsBack(req: Bytes, n: Names)
    requires Response(req, n).Some?
    ensures var (labels, end) := QuestionOf(req).value; var out, ip := Response(req, n).value, AddressFor(req, n);
      && |out| == end + 4 + (if ip.Some? then 16 else 0)
      && out[..2] == req[..2] && out[HEADER..end + 4] == req[HEADER..end + 4]
      && ReadMessage(out) == if !Short(labels) then None else Some(Message(
           Num(req, 0, 2),
           if ip.Some? then 0x8180 else 0x8183,
           [Question(labels, Num(req, end, 2), Num(req, end + 2, 2))],
           if ip.Some? then [Record(labels, 1, 1, 30, ip.value)] else []))
  {
    var (labels, end) := QuestionOf(req).value;
    var out, ip := Response(req, n).value, AddressFor(req, n);
    AnsweredIff(req, n, labels, end);
    QuestionKept(req, out, labels, end, ip);
    hide Num, HeaderBytes, AnswerBytes, QuestionOf, AddressFor, ReadLabels, ReadQuestions, ReadRecords, NameAt, Short;
    Layout(out, req[..2], ip, req[HEADER..end + 4]);
    StrictIff(out, HEADER, labels, end);
    QuestionReadsBack(out, labels, end);
    AnswerLength(ip);
    if Short(labels) { AnswersReadBack(out, labels, end, end + 4, ip); }
  }

  lemma Layout(out: Bytes, id: Bytes, ip: Option<Ipv4>, question: Bytes)
    requires |id| == 2 && out == HeaderBytes(id, ip) + question + AnswerBytes(ip)
    ensures |out| == HEADER + |question| + |AnswerBytes(ip)| && out[HEADER + |question|..] == AnswerBytes(ip)
    ensures out[..2] == id && Num(out, 0, 2) == Num(id, 0, 2)
    ensures Num(out, 2, 2) == (if ip.Some? then 0x8180 else 0x8183)
    ensures Num(out, 4, 2) == 1 && Num(out, 6, 2) == (if ip.Some? then 1 else 0)
    ensures Num(out, 8, 2) == 0 && Num(out, 10, 2) == 0
  {
    HeaderReadsBack(id, ip, question + AnswerBytes(ip));
    hide HeaderBytes, AnswerBytes;
    Reassociate(HeaderBytes(id, ip), question, AnswerBytes(ip));
    WholeNum(out);
    WholeNum(id);
  }

  lemma WholeNum(b: Bytes)
    requires |b| >= 2
    ensures Num(b, 0, 2) == FromBigEndian(b[..2])
  {
  }

  lemma Reassociate(a: Bytes, b: Bytes, c: Bytes)
    ensures a + b + c == a + (b + c) && |a + b + c| == |a| + |b| + |c| && (a + b + c)[|a| + |b|..] == c
  {
  }

  lemma {:induction false} AnswersReadBack(out: Bytes, labels: seq<Label>, end: nat, i: nat, ip: Option<Ipv4>)
    requires HEADER < i <= |out| && out[i..] == AnswerBytes(ip)
    requires ReadLabels(out, HEADER) == Some((labels, end))
    ensures ReadRecords(out, i, if ip.Some? then 1 else 0) ==
      Some((if ip.Some? then [Record(labels, 1, 1, 30, ip.value)] else [], |out|))
  {
    hide ReadLabels, ReadRecord;
    if ip.Some? {
      RecordReadsBack(out, labels, end, i, ip.value);
      OneRecord(out, i);
    }
  }

  lemma AnswerLength(ip: Option<Ipv4>)
    ensures |AnswerBytes(ip)| == if ip.Some? then 16 else 0
  {
  }

  lemma OneQuestion(b: Bytes)
    ensures ReadQuestions(b, HEADER, 1) ==
      match ReadQuestion(b, HEADER) case None => None case Some((q, j)) => Some(([q], j))
  {
    hide ReadQuestion;
    if ReadQuestion(b, HEADER).Some? {
      var (q, j) := ReadQuestion(b, HEADER).value;
      assert ReadQuestions(b, j, 0) == Some(([], j));
      assert [q] + [] == [q];
    }
  }

  lemma OneRecord(b: Bytes, i: nat)
    ensures ReadRecords(b, i, 1) ==
      match ReadRecord(b, i) case None => None case Some((r, j)) => Some(([r], j))
  {
    hide ReadRecord;
    if ReadRecord(b, i).Some? {
      var (r, j) := ReadRecord(b, i).value;
      assert ReadRecords(b, j, 0) == Some(([], j));
      assert [r] + [] == [r];
    }
  }

  /** The question stands in the answer where it stood in the request. */
  lemma {:induction false} QuestionKept(req: Bytes, out: Bytes, labels: seq<Label>, end: nat, ip: Option<Ipv4>)
    requires HEADER <= end && end + 4 <= |req| && NameAt(req, HEADER, labels, end)
    requires out == HeaderBytes(req[..2], ip) + req[HEADER..end + 4] + AnswerBytes(ip)
    ensures end + 4 <= |out| && out[..2] == req[..2] && out[HEADER..end + 4] == req[HEADER..end + 4]
    ensures NameAt(out, HEADER, labels, end) && out[HEADER] < 0xC0
    ensures Num(out, end, 2) == Num(req, end, 2) && Num(out, end + 2, 2) == Num(req, end + 2, 2)
  {
    hide Num, EncodeName, AnswerBytes;
    HeaderReadsBack(req[..2], ip, req[HEADER..end + 4] + AnswerBytes(ip));
    var header := HeaderBytes(req[..2], ip);
    hide HeaderBytes;
    assert out == header + (req[HEADER..end + 4] + AnswerBytes(ip));
    assert out[HEADER..end + 4] == req[HEADER..end + 4];
    SliceOfSlice(out, HEADER, end + 4, 0, end - HEADER);
    SliceOfSlice(req, HEADER, end + 4, 0, end - HEADER);
    FirstByte(labels);
    assert out[HEADER..end][0] == out[HEADER];
    NumWithin(out, HEADER, end + 4, end - HEADER, 2);
    NumWithin(req, HEADER, end + 4, end - HEADER, 2);
    NumWithin(out, HEADER, end + 4, end + 2 - HEADER, 2);
    NumWithin(req, HEADER, end + 4, end + 2 - HEADER, 2);
  }

  lemma FirstByte(labels: seq<Label>)
    ensures EncodeName(labels) != [] && EncodeName(labels)[0] < 0xC0
    ensures labels != [] && EncodeName(labels)[0] == 0 ==> [] in labels
  {
  }

  lemma HeaderReadsBack(id: Bytes, ip: Option<Ipv4>, rest: Bytes)
    requires |id| == 2
    ensures var b := HeaderBytes(id, ip) + rest;
      && |HeaderBytes(id, ip)| == HEADER
      && b[..2] == id && Num(b, 2, 2) == (if ip.Some? then 0x8180 else 0x8183)
      && Num(b, 4, 2) == 1 && Num(b, 6, 2) == (if ip.Some? then 1 else 0)
      && Num(b, 8, 2) == 0 && Num(b, 10, 2) == 0
  {
    hide BigEndian, FromBigEndian;
    SmallNumbers();
    var flags, count := if ip.Some? then 0x8180 else 0x8183, if ip.Some? then 1 else 0;
    var b := HeaderBytes(id, ip) + rest;
    assert b[2..4] == BigEndian(flags, 2) && b[4..6] == BigEndian(1, 2) && b[6..8] == BigEndian(count, 2);
    assert b[8..10] == BigEndian(0, 2) && b[10..12] == BigEndian(0, 2);
    BigEndianReadsBack(flags, 2);
    BigEndianReadsBack(1, 2);
    BigEndianReadsBack(count, 2);
    BigEndianReadsBack(0, 2);
  }

  lemma QuestionReadsBack(out: Bytes, labels: seq<Label>, end: nat)
    requires HEADER <= end && end + 4 <= |out| && out[HEADER] < 0xC0
    requires ReadLabels(out, HEADER) == if Short(labels) then Some((labels, end)) else None
    ensures ReadQuestions(out, HEADER, 1) ==
      if Short(labels) then Some(([Question(labels, Num(out, end, 2), Num(out, end + 2, 2))], end + 4)) else None
  {
    hide Num, ReadLabels, Short;
    OneQuestion(out);
  }

  lemma AnswerFields(ip: Ipv4)
    ensures var a := AnswerBytes(Some(ip));
      && |a| == 16 && a[0] == 0xC0 && a[1] == 0x0C
      && Num(a, 2, 2) == 1 && Num(a, 4, 2) == 1 && Num(a, 6, 4) == 30
      && Num(a, 10, 2) == 4 && a[12..16] == ip
  {
    PointerBytes();
    hide BigEndian, FromBigEndian;
    SmallNumbers();
    var a := AnswerBytes(Some(ip));
    BigEndianReadsBack(1, 2);
    BigEndianReadsBack(30, 4);
    BigEndianReadsBack(4, 2);
    assert a[2..4] == BigEndian(1, 2) && a[4..6] == BigEndian(1, 2);
    assert a[6..10] == BigEndian(30, 4) && a[10..12] == BigEndian(4, 2) && a[12..16] == ip;
  }

  lemma RecordBytes(out: Bytes, i: nat, j: nat, ip: Ipv4)
    requires j == i + 2 && i <= |out| && out[i..|out|] == AnswerBytes(Some(ip))
    ensures |out| == j + 10 + 4 && out[i] == 0xC0 && out[i + 1] == 0x0C && out[j + 10..j + 10 + 4] == ip
    ensures Num(out, j, 2) == 1 && Num(out, j + 2, 2) == 1 && Num(out, j + 4, 4) == 30 && Num(out, j + 8, 2) == 4
  {
    AnswerFields(ip);
    hide Num, AnswerBytes;
    var n := |out|;
    NumWithin(out, i, n, 2, 2);
    NumWithin(out, i, n, 4, 2);
    NumWithin(out, i, n, 6, 4);
    NumWithin(out, i, n, 10, 2);
    SliceOfSlice(out, i, n, 12, 16);
    assert out[i] == out[i..n][0] && out[i + 1] == out[i..n][1];
  }

  lemma PointerName(out: Bytes, labels: seq<Label>, end: nat, i: nat)
    requires HEADER < i && i + 2 <= |out| && out[i] == 0xC0 && out[i + 1] == 0x0C
    requires ReadLabels(out, HEADER) == Some((labels, end))
    ensures ReadName(out, i) == Some((labels, i + 2))
  {
    hide ReadLabels;
  }

  lemma FieldsReadBack(out: Bytes, labels: seq<Label>, j: nat, data: Bytes)
    requires |out| == j + 10 + 4 && out[j + 10..j + 10 + 4] == data
    requires Num(out, j, 2) == 1 && Num(out, j + 2, 2) == 1 && Num(out, j + 4, 4) == 30 && Num(out, j + 8, 2) == 4
    ensures ReadFields(out, labels, j) == Some((Record(labels, 1, 1, 30, data), j + 14))
  {
    hide Num;
  }

  lemma {:induction false} RecordReadsBack(out: Bytes, labels: seq<Label>, end: nat, i: nat, ip: Ipv4)
    requires HEADER < i <= |out| && out[i..|out|] == AnswerBytes(Some(ip))
    requires ReadLabels(out, HEADER) == Some((labels, end))
    ensures |out| == i + 16
    ensures ReadRecord(out, i) == Some((Record(labels, 1, 1, 30, ip), i + 16))
  {
    hide Num, ReadLabels, ReadName, ReadFields, AnswerBytes;
    RecordBytes(out, i, i + 2, ip);
    PointerName(out, labels, end, i);
    FieldsReadBack(out, labels, i + 2, ip);
  }

  lemma PointerBytes()
    ensures BigEndian(0xC00C, 2) == [0xC0, 0x0C]
  {
    assert BigEndian(0xC0, 1) == BigEndian(0, 0) + [0xC0];
  }
}
