/**
 The DNS message code of internal/core/resolver.go (and its copy in internal/dns):
 the query builder and the two response parsers, over arbitrary bytes.
 */
module Dns {
  import opened Wrappers
  import opened Bytes
  import opened OrderedSets

  datatype IPv4 = IPv4(a: Byte, b: Byte, c: Byte, d: Byte)

  datatype Failure = TooShort | NotResponse | ErrorCode(rcode: nat) | NoAnswers | NoARecord

  datatype Result<+T> = Ok(value: T) | Err(error: Failure) {
    predicate IsFailure() { Err? }

    function PropagateFailure<U>(): Result<U>
      requires Err?
    {
      Err(error)
    }

    function Extract(): T
      requires Ok?
    {
      value
    }
  }

  function U16(r: seq<Byte>, i: nat): (v: nat)
    requires i + 2 <= |r|
    ensures v < 0x10000
  {
    var hi: nat := r[i];
    hi * 256 + r[i + 1]
  }

  function U16Bytes(v: nat): (b: seq<Byte>)
    requires v < 0x10000
    ensures |b| == 2
  {
    [v / 256, v % 256]
  }

  // ---- What the parsers' loops compute ----

  /** Where the loop over the question's labels stops. */
  function LabelsEnd(r: seq<Byte>, o: nat): (e: nat)
    ensures o <= e
    decreases if o < |r| then |r| - o else 0
  {
    if o < |r| && r[o] != 0 && r[o] <= 63 then LabelsEnd(r, o + r[o] + 1) else o
  }

  /** Past the owner name of an answer: labels, a compression pointer, or labels then a pointer. */
  function NameEnd(r: seq<Byte>, o: nat): (e: nat)
    ensures o <= e
    decreases if o < |r| then |r| - o else 0
  {
    if o >= |r| then o
    else if r[o] == 0 then o + 1
    else if r[o] > 63 then o + 2
    else NameEnd(r, o + r[o] + 1)
  }

  /** The address of the record whose fixed part starts at p, if it is an A record. */
  function Address(r: seq<Byte>, p: nat): seq<IPv4>
    requires p + 10 < |r|
  {
    var q := p + 10;
    if U16(r, p) == 1 && U16(r, p + 8) == 4 && q + 4 <= |r| then [IPv4(r[q], r[q + 1], r[q + 2], r[q + 3])] else []
  }

  /** The addresses of at most n records from offset o on, repetitions included. */
  function Addresses(r: seq<Byte>, o: nat, n: nat): seq<IPv4>
    decreases n
  {
    if n == 0 || o >= |r| then []
    else
      var p := NameEnd(r, o);
      if p + 10 >= |r| then [] else Address(r, p) + Addresses(r, p + 10 + U16(r, p + 8), n - 1)
  }

  /** The checks both parsers make before they read answers. */
  function HeaderFailure(r: seq<Byte>): (f: Result<()>)
    ensures f.Ok? ==> |r| >= 12
  {
    if |r| < 12 then Err(TooShort)
    else
      var flags := U16(r, 2);
      if flags / 0x8000 % 2 == 0 then Err(NotResponse)
      else if flags % 16 != 0 then Err(ErrorCode(flags % 16))
      else if U16(r, 6) == 0 then Err(NoAnswers)
      else Ok(())
  }

  function AllAddresses(r: seq<Byte>): seq<IPv4>
    requires |r| >= 12
  {
    Addresses(r, LabelsEnd(r, 12) + 5, U16(r, 6))
  }

  function ParseAll(r: seq<Byte>): Result<seq<IPv4>> {
    var h := HeaderFailure(r);
    if h.Err? then Err(h.error)
    else if AllAddresses(r) == [] then Err(NoARecord)
    else Ok(Dedup(AllAddresses(r)))
  }

  // ---- The parsers ----

  method SkipLabels(r: seq<Byte>, start: nat) returns (offset: nat)
    ensures offset == LabelsEnd(r, start)
  {
    offset := start;
    while offset < |r| && r[offset] != 0
      invariant LabelsEnd(r, start) == LabelsEnd(r, offset)
      decreases |r| - offset
    {
      var labelLen := r[offset];
      if labelLen == 0 || labelLen > 63 {
        break;
      }
      offset := offset + labelLen + 1;
    }
  }

  method SkipName(r: seq<Byte>, start: nat) returns (offset: nat)
    ensures offset == NameEnd(r, start)
  {
    offset := start;
    var nameSkipped := false;
    while offset < |r| && r[offset] != 0
      invariant !nameSkipped && NameEnd(r, start) == NameEnd(r, offset)
      decreases |r| - offset
    {
      var labelLen := r[offset];
      if labelLen > 63 {
        offset := offset + 2;
        nameSkipped := true;
        break;
      }
      offset := offset + labelLen + 1;
    }
    if !nameSkipped && offset < |r| && r[offset] == 0 {
      offset := offset + 1;
    }
  }

  method CheckHeader(r: seq<Byte>) returns (res: Result<nat>)
    ensures res.Err? <==> HeaderFailure(r).Err?
    ensures res.Err? ==> res.error == HeaderFailure(r).error
    ensures res.Ok? ==> |r| >= 12 && res.value == U16(r, 6) > 0
  {
    if |r| < 12 {
      return Err(TooShort);
    }
    var flags := U16(r, 2);
    if flags / 0x8000 % 2 == 0 {
      return Err(NotResponse);
    }
    var rcode := flags % 16;
    if rcode != 0 {
      return Err(ErrorCode(rcode));
    }
    var ansCount := U16(r, 6);
    if ansCount == 0 {
      return Err(NoAnswers);
    }
    return Ok(ansCount);
  }

  lemma AddressesStep(r: seq<Byte>, o: nat, n: nat)
    requires n > 0 && o < |r|
    ensures var p := NameEnd(r, o);
            Addresses(r, o, n) ==
            if p + 10 >= |r| then [] else Address(r, p) + Addresses(r, p + 10 + U16(r, p + 8), n - 1)
  {
    hide NameEnd, Address, U16;
  }

  lemma AddressesEnd(r: seq<Byte>, o: nat, n: nat)
    requires n == 0 || o >= |r|
    ensures Addresses(r, o, n) == []
  {
  }

  method CollectAddresses(r: seq<Byte>, start: nat, ansCount: nat) returns (ips: seq<IPv4>)
    ensures ips == Dedup(Addresses(r, start, ansCount))
  {
    hide NameEnd, Address, Addresses, U16, Dedup;
    var offset: nat := start;
    ips := [];
    ghost var found: seq<IPv4> := [];
    DedupStart();
    var i := 0;
    while i < ansCount && offset < |r|
      invariant 0 <= i <= ansCount
      invariant Addresses(r, start, ansCount) == found + Addresses(r, offset, ansCount - i)
      invariant ips == Dedup(found)
      decreases ansCount - i
    {
      AddressesStep(r, offset, ansCount - i);
      offset := SkipName(r, offset);
      if offset + 10 >= |r| {
        assert found + [] == found;
        return;
      }
      var ip := RecordAddress(r, offset);
      if ip.Some? {
        DedupSnoc(found, ip.value);
        if ip.value !in ips {
          ips := ips + [ip.value];
        }
      } else {
        assert found + [] == found;
      }
      ghost var address := Address(r, offset);
      offset, i := offset + 10 + U16(r, offset + 8), i + 1;
      assert found + (address + Addresses(r, offset, ansCount - i))
             == found + address + Addresses(r, offset, ansCount - i);
      found := found + address;
    }
    AddressesEnd(r, offset, ansCount - i);
    assert found + [] == found;
  }

  method ParseDNSResponseAll(r: seq<Byte>) returns (res: Result<seq<IPv4>>)
    ensures res == ParseAll(r)
  {
    hide LabelsEnd, Addresses, HeaderFailure, U16, Dedup;
    var ansCount :- CheckHeader(r);
    var offset: nat := SkipLabels(r, 12);
    offset := offset + 5;
    var ips := CollectAddresses(r, offset, ansCount);
    DedupMembers(AllAddresses(r));
    assert ips == [] <==> AllAddresses(r) == [] by {
      if AllAddresses(r) != [] {
        assert AllAddresses(r)[0] in ips;
      } else {
        DedupStart();
      }
    }
    return if |ips| == 0 then Err(NoARecord) else Ok(ips);
  }

  lemma DedupStart()
    ensures Dedup<IPv4>([]) == []
  {
  }

  lemma DedupSnoc(s: seq<IPv4>, x: IPv4)
    ensures Dedup(s + [x]) == if x in Dedup(s) then Dedup(s) else Dedup(s) + [x]
  {
    assert (s + [x])[..|s|] == s;
  }

  method RecordAddress(r: seq<Byte>, p: nat) returns (ip: Option<IPv4>)
    requires p + 10 < |r|
    ensures Address(r, p) == if ip.Some? then [ip.value] else []
  {
    var qtype := U16(r, p);
    var rdLength := U16(r, p + 8);
    var q := p + 10;
    if qtype == 1 && rdLength == 4 && q + 4 <= |r| {
      return Some(IPv4(r[q], r[q + 1], r[q + 2], r[q + 3]));
    }
    return None;
  }

  /**
   The parser for one address.  It agrees with the parser for all of them on every byte
   string: it fails on the same inputs with the same error, and returns the first address.
   */
  method ParseDNSResponse(r: seq<Byte>) returns (res: Result<IPv4>)
    ensures res.Err? <==> ParseAll(r).Err?
    ensures res.Err? ==> res.error == ParseAll(r).error
    ensures res.Ok? ==> ParseAll(r).value != [] && res.value == ParseAll(r).value[0]
  {
    hide LabelsEnd, NameEnd, Address, Addresses, HeaderFailure, U16, Dedup;
    var ansCount :- CheckHeader(r);
    var offset: nat := SkipLabels(r, 12);
    offset := offset + 5;
    var i := 0;
    while i < ansCount && offset < |r|
      invariant 0 <= i <= ansCount
      invariant AllAddresses(r) == Addresses(r, offset, ansCount - i)
      decreases ansCount - i
    {
      AddressesStep(r, offset, ansCount - i);
      offset := SkipName(r, offset);
      if offset + 10 >= |r| {
        return Err(NoARecord);
      }
      var ip := RecordAddress(r, offset);
      if ip.Some? {
        FirstKept(ip.value, Addresses(r, offset + 10 + U16(r, offset + 8), ansCount - i - 1));
        return Ok(ip.value);
      }
      assert Address(r, offset) + Addresses(r, offset + 10 + U16(r, offset + 8), ansCount - i - 1)
             == Addresses(r, offset + 10 + U16(r, offset + 8), ansCount - i - 1);
      offset, i := offset + 10 + U16(r, offset + 8), i + 1;
    }
    AddressesEnd(r, offset, ansCount - i);
    return Err(NoARecord);
  }

  lemma FirstKept(x: IPv4, rest: seq<IPv4>)
    ensures var d := Dedup([x] + rest); d != [] && d[0] == x
  {
    DedupPrefix([x], rest);
    assert [x][..0] == [];
    assert Dedup([x]) == [x];
  }

  // ---- Encoded messages ----

  type Label = seq<Byte>

  ghost predicate ValidLabel(l: Label) { 1 <= |l| <= 63 }

  function LabelBytes(l: Label): seq<Byte> { [|l| % 256] + l }

  function LabelsBytes(ls: seq<Label>): seq<Byte> {
    if ls == [] then [] else LabelBytes(ls[0]) + LabelsBytes(ls[1..])
  }

  /** How an owner name ends: the root, or a compression pointer (RFC 1035 section 4.1.4). */
  datatype Ending = Root | Pointer(hi: Byte, lo: Byte)

  datatype Answer = Answer(labels: seq<Label>, ending: Ending, rtype: nat, classAndTtl: seq<Byte>, rdata: seq<Byte>)

  ghost predicate ValidAnswer(a: Answer) {
    && (forall l | l in a.labels :: ValidLabel(l))
    && (a.ending.Pointer? ==> a.ending.hi >= 0xC0)
    && a.rtype < 0x10000 && |a.classAndTtl| == 6 && |a.rdata| < 0x10000
  }

  function EndingBytes(e: Ending): seq<Byte> { if e.Root? then [0] else [e.hi, e.lo] }

  function NameBytes(a: Answer): seq<Byte> { LabelsBytes(a.labels) + EndingBytes(a.ending) }

  ghost function FixedBytes(a: Answer): (b: seq<Byte>)
    requires ValidAnswer(a)
    ensures |b| == 10
  {
    var n := |a.rdata|;
    [a.rtype / 256, a.rtype % 256] + a.classAndTtl + [n / 256, n % 256]
  }

  ghost function AnswerBytes(a: Answer): (b: seq<Byte>)
    requires ValidAnswer(a)
    ensures |b| >= 11
  {
    NameBytes(a) + FixedBytes(a) + a.rdata
  }

  ghost predicate ValidAnswers(answers: seq<Answer>) { forall a | a in answers :: ValidAnswer(a) }

  ghost function AnswersBytes(answers: seq<Answer>): seq<Byte>
    requires ValidAnswers(answers)
  {
    if answers == [] then [] else assert ValidAnswer(answers[0]); AnswerBytes(answers[0]) + AnswersBytes(answers[1..])
  }

  /** The addresses the answers carry, in order. */
  ghost function ARecords(answers: seq<Answer>): seq<IPv4> {
    if answers == [] then []
    else
      var a := answers[0];
      (if a.rtype == 1 && |a.rdata| == 4 then [IPv4(a.rdata[0], a.rdata[1], a.rdata[2], a.rdata[3])] else [])
      + ARecords(answers[1..])
  }

  /** A question section as the builder writes it: labels, root, type A, class IN. */
  function QuestionBytes(ls: seq<Label>): seq<Byte> { LabelsBytes(ls) + [0, 0, 1, 0, 1] }

  // ---- Decoding what was encoded ----

  lemma {:induction false} LabelsSkipped(pre: seq<Byte>, ls: seq<Label>, rest: seq<Byte>)
    requires forall l | l in ls :: ValidLabel(l)
    ensures var r := pre + LabelsBytes(ls) + rest; var e := |pre| + |LabelsBytes(ls)|;
            LabelsEnd(r, |pre|) == LabelsEnd(r, e) && NameEnd(r, |pre|) == NameEnd(r, e)
    decreases |ls|
  {
    var r := pre + LabelsBytes(ls) + rest;
    if ls != [] {
      assert ValidLabel(ls[0]);
      var pre' := pre + LabelBytes(ls[0]);
      assert r == pre' + LabelsBytes(ls[1..]) + rest;
      assert r[|pre|] == |ls[0]|;
      LabelsSkipped(pre', ls[1..], rest);
    }
  }

  lemma NameSkipped(pre: seq<Byte>, a: Answer, rest: seq<Byte>)
    requires ValidAnswer(a)
    ensures NameEnd(pre + NameBytes(a) + rest, |pre|) == |pre| + |NameBytes(a)|
  {
    hide LabelsBytes, LabelsEnd;
    var r := pre + NameBytes(a) + rest;
    assert r == pre + LabelsBytes(a.labels) + (EndingBytes(a.ending) + rest);
    LabelsSkipped(pre, a.labels, EndingBytes(a.ending) + rest);
    assert r[|pre| + |LabelsBytes(a.labels)|] == EndingBytes(a.ending)[0];
  }

  lemma QuestionSkipped(pre: seq<Byte>, ls: seq<Label>, rest: seq<Byte>)
    requires forall l | l in ls :: ValidLabel(l)
    ensures LabelsEnd(pre + QuestionBytes(ls) + rest, |pre|) + 5 == |pre| + |QuestionBytes(ls)|
  {
    hide LabelsBytes, NameEnd;
    var r := pre + QuestionBytes(ls) + rest;
    var tail: seq<Byte> := [0, 0, 1, 0, 1];
    assert r == pre + LabelsBytes(ls) + (tail + rest);
    LabelsSkipped(pre, ls, tail + rest);
    assert r[|pre| + |LabelsBytes(ls)|] == tail[0];
  }

  lemma FixedPartRead(pre: seq<Byte>, a: Answer, rest: seq<Byte>)
    requires ValidAnswer(a)
    ensures var r := pre + FixedBytes(a) + a.rdata + rest; var p := |pre|;
            && |r| >= p + 10 && U16(r, p) == a.rtype && U16(r, p + 8) == |a.rdata|
            && (p + 10 < |r| ==> Address(r, p) == ARecords([a]))
  {
    var r, p := pre + FixedBytes(a) + a.rdata + rest, |pre|;
    var f := FixedBytes(a);
    assert r[p] == f[0] && r[p + 1] == f[1] && r[p + 8] == f[8] && r[p + 9] == f[9];
    assert forall k | 0 <= k < |a.rdata| :: r[p + 10 + k] == a.rdata[k];
  }

  /** Reading n records where some are encoded yields exactly their addresses, if n is their number or the bytes
      end with them. */
  lemma {:induction false} AnswersRead(pre: seq<Byte>, answers: seq<Answer>, rest: seq<Byte>, n: nat)
    requires ValidAnswers(answers) && |answers| <= n && (|answers| < n ==> rest == [])
    ensures Addresses(pre + AnswersBytes(answers) + rest, |pre|, n) == ARecords(answers)
    decreases |answers|
  {
    hide NameEnd, Address, NameBytes, FixedBytes, U16, Addresses, ARecords, AnswersBytes, ValidAnswer;
    if answers == [] {
      NoAnswersLeft(pre, rest);
      AddressesEnd(pre + AnswersBytes(answers) + rest, |pre|, n);
      ARecordsNone();
    } else {
      var a, later := answers[0], answers[1..];
      assert ValidAnswer(a);
      AnswersBytesHead(a, later);
      assert [a] + later == answers;
      var tail := AnswersBytes(later);
      Regroup(pre, NameBytes(a), FixedBytes(a), a.rdata, tail, rest);
      FirstAnswerRead(pre, a, tail + rest, n - 1);
      AnswersRead(pre + AnswerBytes(a), later, rest, n - 1);
      AnswerBytesIs(a, pre);
      ARecordsHead(a, later);
    }
  }

  lemma AnswerBytesIs(a: Answer, pre: seq<Byte>)
    requires ValidAnswer(a)
    ensures AnswerBytes(a) == NameBytes(a) + FixedBytes(a) + a.rdata
    ensures pre + AnswerBytes(a) == pre + NameBytes(a) + FixedBytes(a) + a.rdata
    ensures |AnswerBytes(a)| == |NameBytes(a)| + 10 + |a.rdata|
  {
  }

  lemma NoAnswersLeft(pre: seq<Byte>, rest: seq<Byte>)
    ensures pre + AnswersBytes([]) + rest == pre + rest
  {
  }

  lemma ARecordsNone()
    ensures ARecords([]) == []
  {
  }

  lemma FirstAnswerRead(pre: seq<Byte>, a: Answer, tail: seq<Byte>, n: nat)
    requires ValidAnswer(a)
    ensures var r := pre + NameBytes(a) + (FixedBytes(a) + a.rdata + tail);
            Addresses(r, |pre|, n + 1) == ARecords([a]) + Addresses(r, |pre| + |NameBytes(a)| + 10 + |a.rdata|, n)
  {
    hide NameEnd, Address, NameBytes, FixedBytes, U16, Addresses, ARecords, ValidAnswer;
    var name := NameBytes(a);
    var r := pre + name + (FixedBytes(a) + a.rdata + tail);
    assert r == (pre + name) + FixedBytes(a) + a.rdata + tail;
    NameSkipped(pre, a, FixedBytes(a) + a.rdata + tail);
    FixedPartRead(pre + name, a, tail);
    AddressesStep(r, |pre|, n + 1);
    var p := |pre| + |name|;
    if p + 10 >= |r| {
      NoAddress(a);
      AddressesEnd(r, p + 10 + |a.rdata|, n);
    }
  }

  lemma NoAddress(a: Answer)
    requires a.rdata == []
    ensures ARecords([a]) == []
  {
    assert [a][1..] == [];
  }

  lemma AnswersBytesHead(a: Answer, later: seq<Answer>)
    requires ValidAnswer(a) && ValidAnswers(later)
    ensures ValidAnswers([a] + later)
    ensures AnswersBytes([a] + later) == AnswerBytes(a) + AnswersBytes(later)
  {
    assert ([a] + later)[1..] == later;
  }

  lemma Regroup(pre: seq<Byte>, name: seq<Byte>, fixed: seq<Byte>, rdata: seq<Byte>, later: seq<Byte>, rest: seq<Byte>)
    ensures var r := pre + (name + fixed + rdata + later) + rest;
            && r == pre + name + (fixed + rdata + (later + rest))
            && r == (pre + name) + fixed + rdata + (later + rest)
            && r == (pre + name + fixed + rdata) + later + rest
  {
  }

  lemma ARecordsHead(a: Answer, later: seq<Answer>)
    ensures ARecords([a] + later) == ARecords([a]) + ARecords(later)
  {
    assert [a][1..] == [] && ([a] + later)[1..] == later;
  }

  ghost predicate BigEndianAt(r: seq<Byte>, i: nat, v: nat) {
    i + 2 <= |r| && v == r[i] as int * 256 + r[i + 1] as int
  }

  /** A header that announces a successful response with n answers (RFC 1035 section 4.1.1). */
  ghost predicate ResponseHeader(h: seq<Byte>, n: nat) {
    |h| == 12 && h[2] >= 0x80 && h[3] % 16 == 0 && BigEndianAt(h, 6, n)
  }

  /**
   Decode of encode: header, the one question, any well-formed answers, and anything
   after them.  The list parser returns the A records' addresses, first occurrences in order.
   A header may announce more answers than there are.
   */
  lemma DecodesResponse(h: seq<Byte>, question: seq<Label>, answers: seq<Answer>, trailer: seq<Byte>, n: nat)
    requires ValidAnswers(answers) && |answers| <= n && (|answers| < n ==> trailer == [])
    requires n > 0 && ResponseHeader(h, n)
    requires forall l | l in question :: ValidLabel(l)
    ensures ParseAll(h + QuestionBytes(question) + AnswersBytes(answers) + trailer) ==
            if ARecords(answers) == [] then Err(NoARecord) else Ok(Dedup(ARecords(answers)))
  {
    hide LabelsEnd, Addresses, QuestionBytes, AnswersBytes, ARecords, HeaderFailure, U16, Dedup, ValidAnswers;
    var q := QuestionBytes(question);
    var r := h + q + AnswersBytes(answers) + trailer;
    assert r == h + q + (AnswersBytes(answers) + trailer);
    assert r == (h + q) + AnswersBytes(answers) + trailer;
    HeaderBytes(h, q + AnswersBytes(answers) + trailer);
    assert r == h + (q + AnswersBytes(answers) + trailer);
    HeaderAccepted(r, h, n);
    QuestionSkipped(h, question, AnswersBytes(answers) + trailer);
    AnswersRead(h + q, answers, trailer, n);
  }

  /** The header (RFC 1035 section 4.1.1) refuses too short a message, then one that is no response, then one
      with an error code, then one without answers; nothing else does. */
  lemma HeaderExactly(r: seq<Byte>)
    ensures var res := ParseAll(r);
            if |r| < 12 then res == Err(TooShort)
            else if r[2] < 128 then res == Err(NotResponse)
            else if r[3] % 16 != 0 then res == Err(ErrorCode(r[3] % 16))
            else if r[6] == 0 && r[7] == 0 then res == Err(NoAnswers)
            else res.Ok? || res == Err(NoARecord)
  {
    hide AllAddresses;
    if |r| >= 12 {
      HighBit(r[2], r[3]);
      LowBits(r[2], r[3]);
    }
  }

  lemma HighBit(hi: Byte, lo: Byte)
    ensures ((hi * 256) + lo) / 0x8000 % 2 == 0 <==> hi < 128
  {
  }

  lemma LowBits(hi: Byte, lo: Byte)
    ensures ((hi * 256) + lo) % 16 == lo % 16
  {
  }

  lemma HeaderBytes(h: seq<Byte>, rest: seq<Byte>)
    requires |h| == 12
    ensures var r := h + rest; r[2] == h[2] && r[3] == h[3] && r[6] == h[6] && r[7] == h[7]
  {
  }

  lemma HeaderAccepted(r: seq<Byte>, h: seq<Byte>, n: nat)
    requires |r| >= 12 && ResponseHeader(h, n) && n > 0
    requires r[2] == h[2] && r[3] == h[3] && r[6] == h[6] && r[7] == h[7]
    ensures HeaderFailure(r) == Ok(()) && U16(r, 6) == n
  {
    assert U16(r, 2) / 0x8000 == 1;
    assert U16(r, 2) % 16 == h[3] % 16;
  }

  // ---- The query builder ----

  const DOT: Byte := 46

  /** strings.TrimSuffix(domain, "."). */
  function TrimDot(domain: seq<Byte>): seq<Byte> {
    if domain != [] && domain[|domain| - 1] == DOT then domain[..|domain| - 1] else domain
  }

  /** strings.Split(s, "."). */
  function SplitDots(s: seq<Byte>): (ls: seq<Label>)
    ensures ls != []
  {
    if s == [] then [[]]
    else
      var ls := SplitDots(s[1..]);
      if s[0] == DOT then [[]] + ls else [[s[0]] + ls[0]] + ls[1..]
  }

  function JoinDots(ls: seq<Label>): seq<Byte> {
    if ls == [] then [] else if |ls| == 1 then ls[0] else ls[0] + [DOT] + JoinDots(ls[1..])
  }

  /** The labels of a domain, which may end in a dot. */
  function Labels(domain: seq<Byte>): (ls: seq<Label>)
    ensures ls != []
  {
    SplitDots(TrimDot(domain))
  }

  /** A recursive query for the domain's A records with the given identifier. */
  function QueryBytes(domain: seq<Byte>, id: nat): seq<Byte>
    requires id < 0x10000
  {
    U16Bytes(id) + [1, 0, 0, 1, 0, 0, 0, 0, 0, 0] + QuestionBytes(Labels(domain))
  }

  /** A query for the domain; see AsksFor for what it says byte by byte. */
  method BuildDNSQuery(domain: seq<Byte>, id: nat) returns (query: seq<Byte>)
    requires id < 0x10000
    ensures query == QueryBytes(domain, id)
    ensures AsksFor(query, id, Labels(domain))
    ensures Dotted(domain, Labels(domain))
  {
    hide AsksFor, Dotted, Labels;
    query := U16Bytes(id) + [1, 0, 0, 1, 0, 0, 0, 0, 0, 0];
    var parts := Labels(domain);
    var nameBuf: seq<Byte> := [];
    for i := 0 to |parts|
      invariant LabelsBytes(parts) == nameBuf + LabelsBytes(parts[i..])
    {
      assert parts[i..][1..] == parts[i + 1..];
      nameBuf := nameBuf + [|parts[i]| % 256];
      nameBuf := nameBuf + parts[i];
    }
    nameBuf := nameBuf + [0];
    nameBuf := nameBuf + [0, 1, 0, 1];
    query := query + nameBuf;
    QueryRead(domain, id);
    LabelsExactly(domain, Labels(domain));
  }

  /** At offset o stands a name of labels ls that ends before e (RFC 1035 section 3.1). */
  ghost predicate NameAt(r: seq<Byte>, o: nat, ls: seq<Label>, e: nat)
    decreases |ls|
  {
    if ls == [] then o < |r| && r[o] == 0 && e == o + 1
    else
      && o < |r| && r[o] == |ls[0]| % 256 && o + 1 + |ls[0]| <= |r| && r[o + 1..][..|ls[0]|] == ls[0]
      && NameAt(r, o + 1 + |ls[0]|, ls[1..], e)
  }

  /** A query with this identifier, recursion desired, and one question, for the address of the name (RFC 1035
      sections 4.1.1 and 4.1.2); a length of 256 or more wraps. */
  ghost predicate AsksFor(query: seq<Byte>, id: nat, name: seq<Label>) {
    && BigEndianAt(query, 0, id) && BigEndianAt(query, 2, 0x0100) && BigEndianAt(query, 4, 1)
    && BigEndianAt(query, 6, 0) && BigEndianAt(query, 8, 0) && BigEndianAt(query, 10, 0)
    && |query| >= 17
    && NameAt(query, 12, name, |query| - 4)
    && BigEndianAt(query, |query| - 4, 1) && BigEndianAt(query, |query| - 2, 1)
  }

  /** The domain spells these labels, with or without a final dot. */
  ghost predicate Dotted(domain: seq<Byte>, ls: seq<Label>) {
    && ls != [] && (forall i | 0 <= i < |ls| :: 46 !in ls[i])
    && domain == if domain != [] && domain[|domain| - 1] == 46 then JoinDots(ls) + [46] else JoinDots(ls)
  }

  lemma {:induction false} NameWritten(pre: seq<Byte>, ls: seq<Label>, rest: seq<Byte>)
    ensures NameAt(pre + LabelsBytes(ls) + ([0] + rest), |pre|, ls, |pre| + |LabelsBytes(ls)| + 1)
    decreases |ls|
  {
    var r := pre + LabelsBytes(ls) + ([0] + rest);
    if ls != [] {
      var pre' := pre + LabelBytes(ls[0]);
      assert r == pre' + LabelsBytes(ls[1..]) + ([0] + rest);
      assert r[|pre|] == |ls[0]| % 256;
      assert r[|pre| + 1..][..|ls[0]|] == ls[0];
      NameWritten(pre', ls[1..], rest);
    }
  }

  /** The built query read back field by field. */
  lemma QueryRead(domain: seq<Byte>, id: nat)
    requires id < 0x10000
    ensures AsksFor(QueryBytes(domain, id), id, Labels(domain))
  {
    hide Labels, LabelsBytes, NameAt;
    var q, ls := QueryBytes(domain, id), Labels(domain);
    var head: seq<Byte> := U16Bytes(id) + [1, 0, 0, 1, 0, 0, 0, 0, 0, 0];
    var tail: seq<Byte> := [0, 1, 0, 1];
    assert q == head + LabelsBytes(ls) + ([0] + tail);
    NameWritten(head, ls, tail);
    assert q[|q| - 4..] == tail;
    assert q[..12] == head;
  }

  lemma {:induction false} SplitIs(s: seq<Byte>)
    ensures var ls := SplitDots(s); (forall i | 0 <= i < |ls| :: DOT !in ls[i]) && JoinDots(ls) == s
    decreases |s|
  {
    if s != [] {
      SplitIs(s[1..]);
      var ls, rest := SplitDots(s), SplitDots(s[1..]);
      assert [s[0]] + s[1..] == s;
      if s[0] == DOT {
        assert ls[1..] == rest;
      } else {
        assert ls[1..] == rest[1..];
      }
    }
  }

  lemma {:induction false} SplitOnly(ls: seq<Label>)
    requires ls != [] && forall i | 0 <= i < |ls| :: DOT !in ls[i]
    ensures SplitDots(JoinDots(ls)) == ls
    decreases |ls|
  {
    if |ls| == 1 {
      SplitLabel(ls[0]);
    } else {
      SplitOnly(ls[1..]);
      SplitHead(ls[0], JoinDots(ls[1..]));
      assert [ls[0]] + ls[1..] == ls;
    }
  }

  /** The builder's labels are the ones that spell the domain, and no others do. */
  lemma LabelsExactly(domain: seq<Byte>, ls: seq<Label>)
    ensures Dotted(domain, ls) <==> ls == Labels(domain)
  {
    hide JoinDots, SplitDots;
    var s := TrimDot(domain);
    SplitIs(s);
    if domain != [] && domain[|domain| - 1] == DOT {
      assert domain == s + [DOT];
      if Dotted(domain, ls) {
        assert (JoinDots(ls) + [DOT])[..|domain| - 1] == JoinDots(ls);
      }
    }
    if Dotted(domain, ls) {
      SplitOnly(ls);
    }
  }

  lemma {:induction false} SplitLabel(l: Label)
    requires DOT !in l
    ensures SplitDots(l) == [l]
    decreases |l|
  {
    if l != [] {
      SplitLabel(l[1..]);
      assert [l[0]] + l[1..] == l;
    }
  }

  lemma {:induction false} SplitHead(l: Label, s: seq<Byte>)
    requires DOT !in l
    ensures SplitDots(l + [DOT] + s) == [l] + SplitDots(s)
    decreases |l|
  {
    var t := l + [DOT] + s;
    if l == [] {
      assert t[1..] == s;
    } else {
      assert t[1..] == l[1..] + [DOT] + s;
      SplitHead(l[1..], s);
      assert [l[0]] + l[1..] == l;
    }
  }

  ghost predicate PlainLabels(ls: seq<Label>) { forall i | 0 <= i < |ls| :: DOT !in ls[i] && ls[i] != [] }

  /** A name of plain labels does not end in a dot. */
  lemma {:induction false} LastPlain(ls: seq<Label>)
    requires ls != [] && PlainLabels(ls)
    ensures JoinDots(ls) != [] && JoinDots(ls)[|JoinDots(ls)| - 1] != DOT
    decreases |ls|
  {
    if |ls| > 1 {
      LastPlain(ls[1..]);
    }
  }

  /** Splitting a dotted name, with or without the final dot, gives its labels. */
  lemma DottedNameLabels(ls: seq<Label>)
    requires ls != [] && PlainLabels(ls)
    ensures Labels(JoinDots(ls)) == ls
    ensures Labels(JoinDots(ls) + [DOT]) == ls
  {
    SplitOnly(ls);
    LastPlain(ls);
    var s := JoinDots(ls) + [DOT];
    assert s[..|s| - 1] == JoinDots(ls);
  }

  /**
   The builder and the parser together: a response that repeats the question of the query
   built for a name, with or without the final dot, is decoded to its A records' addresses.
   */
  lemma AnswersToBuiltQuery(ls: seq<Label>, finalDot: bool, id: nat, h: seq<Byte>, answers: seq<Answer>,
                            trailer: seq<Byte>, n: nat)
    requires ls != [] && PlainLabels(ls) && id < 0x10000
    requires ValidAnswers(answers) && |answers| <= n && (|answers| < n ==> trailer == [])
    requires n > 0 && ResponseHeader(h, n)
    requires forall l | l in ls :: ValidLabel(l)
    ensures var query := QueryBytes(if finalDot then JoinDots(ls) + [DOT] else JoinDots(ls), id);
            ParseAll(h + query[12..] + AnswersBytes(answers) + trailer) ==
            if ARecords(answers) == [] then Err(NoARecord) else Ok(Dedup(ARecords(answers)))
  {
    hide Labels, JoinDots, ParseAll, QuestionBytes, ARecords;
    DottedNameLabels(ls);
    var domain := if finalDot then JoinDots(ls) + [DOT] else JoinDots(ls);
    assert QueryBytes(domain, id)[12..] == QuestionBytes(ls);
    DecodesResponse(h, ls, answers, trailer, n);
  }

  lemma {:induction false} FirstBadLabel(ls: seq<Label>) returns (k: nat)
    requires exists l | l in ls :: !ValidLabel(l)
    ensures k < |ls| && !ValidLabel(ls[k]) && forall l | l in ls[..k] :: ValidLabel(l)
    decreases |ls|
  {
    if !ValidLabel(ls[0]) {
      k := 0;
    } else {
      var j := FirstBadLabel(ls[1..]);
      k := j + 1;
      assert ls[..k] == [ls[0]] + ls[1..][..j];
    }
  }

  lemma {:induction false} LabelsBytesConcat(a: seq<Label>, b: seq<Label>)
    ensures LabelsBytes(a + b) == LabelsBytes(a) + LabelsBytes(b)
    decreases |a|
  {
    if a == [] {
      assert a + b == b;
    } else {
      assert (a + b)[1..] == a[1..] + b;
      LabelsBytesConcat(a[1..], b);
    }
  }

  /** A label too long for its length byte, which then is that of a short one. */
  ghost predicate WrapsShort(l: Label) { !ValidLabel(l) && 1 <= |l| % 256 <= 63 }

  /**
   The question skip lands behind the built question exactly when every label has 1 to 63
   bytes; an empty label (the root name, or two dots in a row) or a longer one desynchronises
   the parser.  Only labels of more than 256 bytes can wrap, and names have at most 255.
   */
  lemma QuestionSkipExact(pre: seq<Byte>, ls: seq<Label>, rest: seq<Byte>)
    requires forall l | l in ls :: !WrapsShort(l)
    ensures LabelsEnd(pre + QuestionBytes(ls) + rest, |pre|) + 5 == |pre| + |QuestionBytes(ls)|
            <==> forall l | l in ls :: ValidLabel(l)
  {
    if forall l | l in ls :: ValidLabel(l) {
      QuestionSkipped(pre, ls, rest);
    } else {
      var k := FirstBadLabel(ls);
      BadLabelStops(pre, ls[..k], ls[k], ls[k + 1..], rest);
      assert ls == ls[..k] + [ls[k]] + ls[k + 1..];
    }
  }

  lemma BadLabelStops(pre: seq<Byte>, good: seq<Label>, bad: Label, more: seq<Label>, rest: seq<Byte>)
    requires (forall l | l in good :: ValidLabel(l)) && !ValidLabel(bad) && !WrapsShort(bad)
    ensures var q := QuestionBytes(good + [bad] + more);
            LabelsEnd(pre + q + rest, |pre|) + 5 < |pre| + |q|
  {
    hide LabelsEnd, NameEnd, ValidLabel, WrapsShort;
    var head := LabelsBytes(good);
    GoodBadMore(good, bad, more);
    var tail := LabelBytes(bad) + (LabelsBytes(more) + [0, 0, 1, 0, 1] + rest);
    var r := pre + QuestionBytes(good + [bad] + more) + rest;
    hide LabelsBytes;
    assert r == pre + head + tail;
    LabelsSkipped(pre, good, tail);
    assert r[|pre| + |head|] == tail[0] == |bad| % 256;
    LabelsEndStops(r, |pre| + |head|, bad);
  }

  lemma LabelsEndStops(r: seq<Byte>, o: nat, bad: Label)
    requires o < |r| && !ValidLabel(bad) && !WrapsShort(bad) && r[o] == |bad| % 256
    ensures LabelsEnd(r, o) == o
  {
  }

  /** For a label that wraps it depends on the label's own bytes: this one is skipped exactly, by chance. */
  lemma LongLabelMayPass() returns (l: Label)
    ensures WrapsShort(l) && LabelsEnd(QuestionBytes([l]), 0) + 5 == |QuestionBytes([l])|
  {
    l := seq(258, i requires 0 <= i < 258 => if i in {2, 66, 130, 194} then 63 else 0);
    var q := QuestionBytes([l]);
    assert [l][1..] == [];
    assert LabelBytes(l) == [2] + l && LabelsBytes([l]) == [2] + l;
    assert q == [2] + l + [0, 0, 1, 0, 1];
    assert q[0] == 2 && q[3] == l[2] == 63 && q[67] == l[66] == 63 && q[131] == l[130] == 63 && q[195] == l[194] == 63;
    assert q[259] == 0;
    assert LabelsEnd(q, 259) == 259;
    assert LabelsEnd(q, 195) == 259;
    assert LabelsEnd(q, 131) == 259;
    assert LabelsEnd(q, 67) == 259;
    assert LabelsEnd(q, 3) == 259;
  }

  const ONE_ANSWER: Answer := Answer([], Pointer(192, 12), 1, [0, 1, 0, 0, 0, 0], [1, 2, 3, 4])

  lemma OneAnswer()
    ensures ValidAnswers([ONE_ANSWER]) && ARecords([ONE_ANSWER]) == [IPv4(1, 2, 3, 4)]
    ensures AnswersBytes([ONE_ANSWER]) == [192, 12, 0, 1, 0, 1, 0, 0, 0, 0, 0, 4, 1, 2, 3, 4]
  {
    assert [ONE_ANSWER][1..] == [];
  }

  /** A response to the query for the empty name that carries one A record, of which the parser finds none. */
  lemma EmptyNameLost(id: nat)
    requires id < 0x10000
    ensures ValidAnswers([ONE_ANSWER]) && ARecords([ONE_ANSWER]) == [IPv4(1, 2, 3, 4)]
    ensures var h := [0, 0, 128, 0, 0, 1, 0, 1, 0, 0, 0, 0];
            && ResponseHeader(h, 1)
            && ParseAll(h + QueryBytes([], id)[12..] + AnswersBytes([ONE_ANSWER])) == Err(NoARecord)
  {
    hide ParseAll, QueryBytes, AnswersBytes, ARecords;
    OneAnswer();
    EmptyQuestion(id);
    ShiftedAnswer([0, 0, 128, 0, 0, 1, 0, 1, 0, 0, 0, 0] + QueryBytes([], id)[12..] + AnswersBytes([ONE_ANSWER]));
  }

  /** Read one byte early, the answer's name never ends. */
  lemma ShiftedAnswer(r: seq<Byte>)
    requires r == [0, 0, 128, 0, 0, 1, 0, 1, 0, 0, 0, 0] + [0, 0, 0, 1, 0, 1]
                  + [192, 12, 0, 1, 0, 1, 0, 0, 0, 0, 0, 4, 1, 2, 3, 4]
    ensures ParseAll(r) == Err(NoARecord)
  {
    assert |r| == 34 && r[2] == 128 && r[3] == 0 && r[6] == 0 && r[7] == 1;
    assert r[12] == 0 && r[17] == 1 && r[19] == 12 && r[32] == 3;
    assert LabelsEnd(r, 12) == 12;
    assert NameEnd(r, 36) == 36;
    assert NameEnd(r, 32) == 36;
    assert NameEnd(r, 19) == 36;
    assert NameEnd(r, 17) == 36;
  }

  lemma EmptyQuestion(id: nat)
    requires id < 0x10000
    ensures |QueryBytes([], id)| == 18 && QueryBytes([], id)[12..] == [0, 0, 0, 1, 0, 1]
  {
    var root: Label := [];
    assert [root][1..] == [];
    assert LabelsBytes([root]) == [0];
    assert QuestionBytes([root]) == [0, 0, 0, 1, 0, 1];
    assert Labels([]) == [root];
  }

  lemma GoodBadMore(good: seq<Label>, bad: Label, more: seq<Label>)
    ensures LabelsBytes(good + [bad] + more) == LabelsBytes(good) + LabelBytes(bad) + LabelsBytes(more)
  {
    LabelsBytesConcat(good + [bad], more);
    LabelsBytesConcat(good, [bad]);
    assert [bad][1..] == [];
    assert LabelsBytes([bad]) == LabelBytes(bad);
  }
}
