/**
 The protobuf reader of internal/core/wb.go: varints and the scanner for
 length-delimited fields, over arbitrary bytes.
 */
module Protobuf {
  import opened Bytes

  const U64: nat := 0x1_0000_0000_0000_0000
  const I63: nat := 0x8000_0000_0000_0000

  function Pow128(k: nat): (p: nat)
    ensures p > 0
  {
    if k == 0 then 1 else 128 * Pow128(k - 1)
  }

  /** A varint and the offset behind it. */
  datatype Var = Var(value: nat, next: nat)

  /**
   The varint loop after k bytes with accumulator v.  The shifted bits of a byte are disjoint
   from those of v, so the source's "or" is a sum; the shift drops bits beyond 64.
   */
  function VarFrom(d: seq<Byte>, o: nat, k: nat, v: nat): (r: Var)
    ensures o <= r.next
    ensures o <= |d| ==> r.next <= |d|
    ensures o < |d| && k < 10 ==> o < r.next
    decreases 10 - k
  {
    if o >= |d| || k >= 10 then Var(0, o)
    else
      var w := v + d[o] % 128 * Pow128(k) % U64;
      if d[o] < 128 then Var(w, o + 1) else VarFrom(d, o + 1, k + 1, w)
  }

  function VarAt(d: seq<Byte>, o: nat): (r: Var)
    ensures o <= r.next
    ensures o <= |d| ==> r.next <= |d|
    ensures o < |d| ==> o < r.next
  {
    VarFrom(d, o, 0, 0)
  }

  method PbVar(d: seq<Byte>, start: nat) returns (v: nat, o: nat)
    ensures Var(v, o) == VarAt(d, start)
  {
    hide Pow128;
    v, o := 0, start;
    var s, k := 0, 0;
    while o < |d| && s < 64
      invariant s == 7 * k && k <= 10
      invariant VarAt(d, start) == VarFrom(d, o, k, v)
      decreases 64 - s
    {
      var b := d[o];
      o := o + 1;
      v := v + b % 128 * Pow128(k) % U64;
      if b < 128 {
        return;
      }
      s, k := s + 7, k + 1;
    }
    v := 0;
  }

  lemma PowZero()
    ensures Pow128(0) == 1
  {
  }

  // ---- Encoding ----

  function VarBytes(v: nat): (b: seq<Byte>)
    ensures b != []
  {
    if v < 128 then [v] else [128 + v % 128] + VarBytes(v / 128)
  }

  lemma Mul128(w: nat, p: nat)
    requires w >= 128
    ensures w % 128 * p + w / 128 * (128 * p) == w * p
    ensures w % 128 * p <= w * p && w / 128 * (128 * p) <= w * p
  {
    var q, m := w / 128, w % 128;
    assert w == 128 * q + m;
    assert w * p == (128 * q + m) * p == 128 * q * p + m * p;
    assert q * (128 * p) == 128 * q * p;
  }

  /** 128 to the tenth exceeds 64 bits, so a value that fits is read in ten bytes. */
  lemma TenBytesSuffice(k: nat)
    requires Pow128(k) < U64
    ensures k < 10
  {
    Pow128Ten();
    if k >= 10 {
      Pow128Grows(10, k);
    }
  }

  lemma Pow128Ten()
    ensures Pow128(10) == 0x40_0000_0000_0000_0000
  {
    assert Pow128(3) == 0x20_0000;
    assert Pow128(6) == 0x400_0000_0000;
    assert Pow128(9) == 0x8000_0000_0000_0000;
  }

  lemma {:induction false} Pow128Grows(a: nat, b: nat)
    requires a <= b
    ensures Pow128(a) <= Pow128(b)
    decreases b
  {
    if a < b {
      Pow128Grows(a, b - 1);
    }
  }

  lemma {:induction false} VarFromBytes(pre: seq<Byte>, w: nat, rest: seq<Byte>, k: nat, v: nat)
    requires w * Pow128(k) < U64 && k < 10
    ensures VarFrom(pre + VarBytes(w) + rest, |pre|, k, v) == Var(v + w * Pow128(k), |pre| + |VarBytes(w)|)
    decreases w
  {
    if w < 128 {
      LastByte(pre, w, rest, k, v);
    } else {
      hide VarFrom, Pow128, VarBytes;
      SplitProduct(w, k);
      VarBytesMore(pre, w, rest);
      MoreBytes(pre, 128 + w % 128, VarBytes(w / 128) + rest, k, v);
      VarFromBytes(pre + [128 + w % 128], w / 128, rest, k + 1, v + w % 128 * Pow128(k));
    }
  }

  lemma VarBytesMore(pre: seq<Byte>, w: nat, rest: seq<Byte>)
    requires w >= 128
    ensures var b := 128 + w % 128; var more := VarBytes(w / 128);
            && pre + VarBytes(w) + rest == pre + [b] + (more + rest)
            && pre + VarBytes(w) + rest == (pre + [b]) + more + rest
            && |VarBytes(w)| == 1 + |more|
  {
    VarBytesUnfold(w);
    hide VarBytes;
    FirstByteApart(pre, 128 + w % 128, VarBytes(w / 128), rest);
  }

  lemma VarBytesUnfold(w: nat)
    requires w >= 128
    ensures VarBytes(w) == [128 + w % 128] + VarBytes(w / 128)
  {
  }

  lemma FirstByteApart(pre: seq<Byte>, b: Byte, more: seq<Byte>, rest: seq<Byte>)
    ensures pre + ([b] + more) + rest == pre + [b] + (more + rest)
    ensures pre + ([b] + more) + rest == (pre + [b]) + more + rest
  {
  }

  lemma SplitProduct(w: nat, k: nat)
    requires w >= 128 && w * Pow128(k) < U64
    ensures w % 128 * Pow128(k) % U64 == w % 128 * Pow128(k)
    ensures w % 128 * Pow128(k) + w / 128 * Pow128(k + 1) == w * Pow128(k)
    ensures w / 128 * Pow128(k + 1) < U64 && k + 1 < 10
  {
    PowNext(k);
    Mul128(w, Pow128(k));
    hide Pow128;
    SmallProduct(w % 128 * Pow128(k));
    NextFits(w / 128, k + 1);
  }

  lemma SmallProduct(x: nat)
    requires x < U64
    ensures x % U64 == x
  {
  }

  lemma PowNext(k: nat)
    ensures Pow128(k + 1) == 128 * Pow128(k)
  {
  }

  lemma NextFits(q: nat, k: nat)
    requires q > 0 && q * Pow128(k) < U64
    ensures k < 10
  {
    hide Pow128;
    FactorBelow(q, Pow128(k));
    TenBytesSuffice(k);
  }

  lemma FactorBelow(q: nat, p: nat)
    requires q > 0
    ensures p <= q * p
  {
    assert q * p == p + (q - 1) * p;
  }

  lemma LastByte(pre: seq<Byte>, w: nat, rest: seq<Byte>, k: nat, v: nat)
    requires w < 128 && w * Pow128(k) < U64 && k < 10
    ensures VarFrom(pre + VarBytes(w) + rest, |pre|, k, v) == Var(v + w * Pow128(k), |pre| + |VarBytes(w)|)
  {
    hide Pow128;
    assert (pre + VarBytes(w) + rest)[|pre|] == w;
    assert w % 128 == w;
    SmallProduct(w * Pow128(k));
  }

  lemma MoreBytes(pre: seq<Byte>, b: Byte, rest: seq<Byte>, k: nat, v: nat)
    requires b >= 128 && k < 10
    ensures VarFrom(pre + [b] + rest, |pre|, k, v) ==
            VarFrom(pre + [b] + rest, |pre| + 1, k + 1, v + (b - 128) * Pow128(k) % U64)
  {
    hide Pow128;
    assert (pre + [b] + rest)[|pre|] == b;
    assert b % 128 == b - 128;
  }

  /** Every 64-bit value is read back from its varint, and exactly its bytes are consumed. */
  lemma VarintRoundTrip(pre: seq<Byte>, v: nat, rest: seq<Byte>)
    requires v < U64
    ensures VarAt(pre + VarBytes(v) + rest, |pre|) == Var(v, |pre| + |VarBytes(v)|)
  {
    PowZero();
    VarFromBytes(pre, v, rest, 0, 0);
  }

  // ---- Any bytes ----

  /** The first k bytes' lower seven bits, the first byte's lowest. */
  ghost function Groups(d: seq<Byte>, o: nat, k: nat): nat
    requires o + k <= |d|
  {
    if k == 0 then 0 else Groups(d, o, k - 1) + d[o + k - 1] % 128 * Pow128(k - 1)
  }

  /** The first n bytes all announce another one. */
  ghost predicate GoesOn(d: seq<Byte>, o: nat, n: nat) {
    o + n <= |d| && forall i | o <= i < o + n :: d[i] >= 128
  }

  lemma {:induction false} GroupsBelow(d: seq<Byte>, o: nat, k: nat)
    requires o + k <= |d|
    ensures Groups(d, o, k) < Pow128(k)
    decreases k
  {
    if k > 0 {
      GroupsBelow(d, o, k - 1);
      PowNext(k - 1);
      DigitBelow(d[o + k - 1] % 128, Pow128(k - 1));
    }
  }

  /** No bits are lost in nine bytes; of a tenth the lowest bit fits. */
  lemma NextGroup(d: seq<Byte>, o: nat, k: nat)
    requires k < 10 && o + k < |d|
    ensures var w := Groups(d, o, k) + d[o + k] % 128 * Pow128(k) % U64;
            w == Groups(d, o, k + 1) % U64 && (k < 9 ==> w == Groups(d, o, k + 1))
  {
    GroupsBelow(d, o, k);
    GroupsBelow(d, o, k + 1);
    NineBytes();
    hide Pow128;
    var x, g := d[o + k] % 128, Groups(d, o, k);
    if k < 9 {
      Pow128Grows(k + 1, 9);
      SmallProduct(x * Pow128(k));
      SmallProduct(Groups(d, o, k + 1));
    } else {
      TopDigit(x);
      assert g + x * I63 == (g + x % 2 * I63) + x / 2 * U64;
      ModOfSum(g + x % 2 * I63, x / 2);
    }
  }

  lemma ModOfSum(a: nat, q: nat)
    requires a < U64
    ensures (a + q * U64) % U64 == a
  {
  }

  lemma {:induction false} EndsAfter(d: seq<Byte>, o: nat, n: nat, k: nat)
    requires k <= n < 10 && o + n < |d| && GoesOn(d, o, n) && d[o + n] < 128
    ensures VarFrom(d, o + k, k, Groups(d, o, k)) == Var(Groups(d, o, n + 1) % U64, o + n + 1)
    decreases n - k
  {
    hide Pow128, Groups;
    NextGroup(d, o, k);
    if k < n {
      EndsAfter(d, o, n, k + 1);
    }
  }

  lemma {:induction false} NeverEnds(d: seq<Byte>, o: nat, n: nat, k: nat, v: nat)
    requires k <= n && GoesOn(d, o, n) && (n == 10 || (n < 10 && o + n == |d|))
    ensures VarFrom(d, o + k, k, v) == Var(0, o + n)
    decreases n - k
  {
    hide Pow128;
    if k < n {
      NeverEnds(d, o, n, k + 1, v + d[o + k] % 128 * Pow128(k) % U64);
    }
  }

  /** A varint of up to ten bytes has the value of its groups modulo 2^64, minimal or not; cut off or longer it
      counts as 0, and the bytes looked at are consumed. */
  lemma VarExactly(d: seq<Byte>, o: nat, n: nat)
    requires GoesOn(d, o, n) && n <= 10
    ensures n < 10 && o + n < |d| && d[o + n] < 128 ==> VarAt(d, o) == Var(Groups(d, o, n + 1) % U64, o + n + 1)
    ensures n == 10 || o + n == |d| ==> VarAt(d, o) == Var(0, o + n)
  {
    hide VarFrom;
    if n < 10 && o + n < |d| && d[o + n] < 128 {
      EndsAfter(d, o, n, 0);
    }
    if n == 10 || o + n == |d| {
      NeverEnds(d, o, n, 0, 0);
    }
  }

  // ---- Fields ----

  /** The bytes d[start..end]; two slices share their first byte exactly if they start alike. */
  datatype Slice = Slice(start: nat, end: nat)

  function Int64(v: int): int { (v + I63) % U64 - I63 }

  /** The 64-bit sum o + int(l) of the source. */
  function WrappedEnd(o: nat, l: nat): int { Int64(o + Int64(l)) }

  /** The wrap-around cannot smuggle a bad length past the check. */
  lemma EndCheckIsLengthCheck(n: nat, o: nat, l: nat)
    requires o <= n < I63 && l < U64
    ensures WrappedEnd(o, l) > n || WrappedEnd(o, l) < o <==> o + l > n
    ensures o + l <= n ==> WrappedEnd(o, l) == o + l
  {
  }

  datatype FieldAt =
    | Stop
    | Skip(next: nat)
    | Payload(number: nat, slice: Slice)

  /** What the scanners find at offset o: a payload, something to step over, or the end. */
  function Next(d: seq<Byte>, o: nat): (f: FieldAt)
    requires o < |d|
    ensures f.Skip? ==> o < f.next
    ensures f.Payload? ==> o < f.slice.start <= f.slice.end <= |d|
  {
    var t := VarAt(d, o);
    var wire := t.value % 8;
    if wire == 0 then Skip(VarAt(d, t.next).next)
    else if wire == 2 then
      var l := VarAt(d, t.next);
      if l.next + l.value > |d| then Stop else Payload(t.value / 8, Slice(l.next, l.next + l.value))
    else if wire == 1 then Skip(t.next + 8)
    else if wire == 5 then Skip(t.next + 4)
    else Stop
  }

  /** Every length-delimited field from offset o on. */
  function Payloads(d: seq<Byte>, o: nat): (r: seq<(nat, Slice)>)
    ensures forall i | 0 <= i < |r| :: o < r[i].1.start <= r[i].1.end <= |d|
    decreases if o < |d| then |d| - o else 0
  {
    if o >= |d| then []
    else match Next(d, o)
      case Stop => []
      case Skip(next) => Payloads(d, next)
      case Payload(number, slice) => [(number, slice)] + Payloads(d, slice.end)
  }

  function WithNumber(fs: seq<(nat, Slice)>, f: nat): (r: seq<Slice>)
    ensures |r| <= |fs|
  {
    if fs == [] then [] else (if fs[0].0 == f then [fs[0].1] else []) + WithNumber(fs[1..], f)
  }

  function AllSlices(d: seq<Byte>, f: nat): seq<Slice> { WithNumber(Payloads(d, 0), f) }

  /** One step keeps the accumulator below the next power, and below 64 bits. */
  lemma StepFits(x: nat, k: nat, v: nat)
    requires x < 128 && k < 10 && v < Pow128(k) && v < U64
    ensures var w := v + x * Pow128(k) % U64; w < Pow128(k + 1) && w < U64
  {
    hide Pow128;
    var p := Pow128(k);
    PowNext(k);
    NineBytes();
    DigitBelow(x, p);
    ModBelow(x * p);
    if k < 9 {
      Pow128Grows(k + 1, 9);
    } else {
      TopDigit(x);
    }
  }

  lemma DigitBelow(x: nat, p: nat)
    requires x < 128
    ensures x * p <= 127 * p
  {
    assert 127 * p == x * p + (127 - x) * p;
  }

  lemma ModBelow(y: nat)
    ensures y % U64 <= y
  {
  }

  /** Of the tenth byte only the lowest bit fits in 64 bits. */
  lemma TopDigit(x: nat)
    ensures x * I63 % U64 == x % 2 * I63
  {
    assert x * I63 == x / 2 * U64 + x % 2 * I63;
  }

  lemma {:induction false} VarFits(d: seq<Byte>, o: nat, k: nat, v: nat)
    requires v < Pow128(k) && v < U64
    ensures VarFrom(d, o, k, v).value < U64
    decreases 10 - k
  {
    if o < |d| && k < 10 {
      hide Pow128;
      var w := v + d[o] % 128 * Pow128(k) % U64;
      StepFits(d[o] % 128, k, v);
      if d[o] >= 128 {
        VarFits(d, o + 1, k + 1, w);
      }
    }
  }

  lemma NineBytes()
    ensures Pow128(9) == I63
  {
    assert Pow128(3) == 0x20_0000;
    assert Pow128(6) == 0x400_0000_0000;
  }

  method ReadLength(d: seq<Byte>, o: nat) returns (start: nat, end: int, ok: bool)
    requires |d| < I63 && o <= |d|
    ensures var l := VarAt(d, o);
            && start == l.next
            && (ok <==> l.next + l.value <= |d|)
            && (ok ==> end == l.next + l.value)
  {
    hide VarAt;
    var l;
    l, start := PbVar(d, o);
    LengthFits(d, o);
    EndCheckIsLengthCheck(|d|, start, l);
    end := WrappedEnd(start, l);
    ok := !(end > |d| || end < start);
  }

  lemma LengthFits(d: seq<Byte>, o: nat)
    ensures VarAt(d, o).value < U64
  {
    PowZero();
    VarFits(d, o, 0, 0);
  }

  method ReadField(d: seq<Byte>, start: nat) returns (f: FieldAt)
    requires start < |d| < I63
    ensures f == Next(d, start)
  {
    hide VarAt;
    var t, o := PbVar(d, start);
    match t % 8
    case 0 =>
      var _, n := PbVar(d, o);
      return Skip(n);
    case 2 =>
      var s, e, ok := ReadLength(d, o);
      if !ok {
        return Stop;
      }
      return Payload(t / 8, Slice(s, e));
    case 1 => return Skip(o + 8);
    case 5 => return Skip(o + 4);
    case _ => return Stop;
  }

  lemma PayloadsStep(d: seq<Byte>, o: nat)
    requires o < |d|
    ensures Payloads(d, o) ==
            match Next(d, o)
            case Stop => []
            case Skip(next) => Payloads(d, next)
            case Payload(number, slice) => [(number, slice)] + Payloads(d, slice.end)
  {
    hide Next;
  }

  /** All payloads with the given field number, in order. */
  method PbAll(d: seq<Byte>, f: nat) returns (r: seq<Slice>)
    requires |d| < I63
    ensures r == AllSlices(d, f)
  {
    hide Next, Payloads, WithNumber;
    r := [];
    var o: nat := 0;
    while o < |d|
      invariant AllSlices(d, f) == r + WithNumber(Payloads(d, o), f)
      decreases |d| - o
    {
      PayloadsStep(d, o);
      var field := ReadField(d, o);
      match field
      case Stop =>
        WithNumberNone(f);
        return;
      case Skip(next) =>
        o := next;
      case Payload(number, slice) =>
        WithNumberHead((number, slice), Payloads(d, slice.end), f);
        if number == f {
          r := r + [slice];
        }
        o := slice.end;
    }
    NoPayloads(d, o);
    WithNumberNone(f);
  }

  lemma NoPayloads(d: seq<Byte>, o: nat)
    requires o >= |d|
    ensures Payloads(d, o) == []
  {
  }

  lemma WithNumberNone(f: nat)
    ensures WithNumber([], f) == []
  {
  }

  lemma WithNumberHead(x: (nat, Slice), rest: seq<(nat, Slice)>, f: nat)
    ensures WithNumber([x] + rest, f) == (if x.0 == f then [x.1] else []) + WithNumber(rest, f)
  {
    assert ([x] + rest)[1..] == rest;
  }

  // ---- Arbitrary bytes ----

  /** Slices lie in d, one behind the other. */
  ghost predicate InOrder(d: seq<Byte>, o: nat, r: seq<Slice>) {
    && (forall i | 0 <= i < |r| :: o <= r[i].start <= r[i].end <= |d|)
    && (forall i, j | 0 <= i < j < |r| :: r[i].end <= r[j].start && r[i].start < r[j].start)
  }

  lemma {:induction false} PayloadsInOrder(d: seq<Byte>, o: nat, f: nat)
    ensures InOrder(d, o, WithNumber(Payloads(d, o), f))
    decreases if o < |d| then |d| - o else 0
  {
    hide Next, Payloads, WithNumber;
    if o >= |d| {
      NoPayloads(d, o);
      WithNumberNone(f);
    } else {
      PayloadsStep(d, o);
      match Next(d, o)
      case Stop => WithNumberNone(f);
      case Skip(next) => PayloadsInOrder(d, next, f);
      case Payload(number, slice) =>
        PayloadsInOrder(d, slice.end, f);
        NumberedLater(Payloads(d, slice.end), f, slice.end);
        WithNumberHead((number, slice), Payloads(d, slice.end), f);
    }
  }

  lemma {:induction false} NumberedLater(fs: seq<(nat, Slice)>, f: nat, o: nat)
    requires forall i | 0 <= i < |fs| :: o < fs[i].1.start
    ensures var r := WithNumber(fs, f); forall i | 0 <= i < |r| :: o < r[i].start
    decreases |fs|
  {
    hide WithNumber;
    if fs == [] {
      WithNumberNone(f);
    } else {
      NumberedLater(fs[1..], f, o);
      WithNumberHead(fs[0], fs[1..], f);
      assert [fs[0]] + fs[1..] == fs;
    }
  }

  /** On every input the slices returned are in bounds and pairwise disjoint. */
  lemma SlicesDisjoint(d: seq<Byte>, f: nat)
    ensures InOrder(d, 0, AllSlices(d, f))
  {
    PayloadsInOrder(d, 0, f);
  }

  // ---- Encoded messages ----

  datatype Field =
    | Varint(number: nat, value: nat)
    | Fixed64(number: nat, bytes: seq<Byte>)
    | Bytes(number: nat, payload: seq<Byte>)
    | Fixed32(number: nat, bytes: seq<Byte>)

  ghost predicate ValidField(f: Field) {
    f.number < U64 / 8 &&
    match f
    case Varint(_, value) => value < U64
    case Fixed64(_, bytes) => |bytes| == 8
    case Bytes(_, payload) => |payload| < U64
    case Fixed32(_, bytes) => |bytes| == 4
  }

  ghost predicate ValidMessage(msg: seq<Field>) { forall f | f in msg :: ValidField(f) }

  function WireType(f: Field): nat {
    match f
    case Varint(_, _) => 0
    case Fixed64(_, _) => 1
    case Bytes(_, _) => 2
    case Fixed32(_, _) => 5
  }

  function TagBytes(f: Field): seq<Byte> { VarBytes(f.number * 8 + WireType(f)) }

  function BodyBytes(f: Field): seq<Byte> {
    match f
    case Varint(_, value) => VarBytes(value)
    case Fixed64(_, bytes) => bytes
    case Bytes(_, payload) => VarBytes(|payload|) + payload
    case Fixed32(_, bytes) => bytes
  }

  function Encode(msg: seq<Field>): seq<Byte> {
    if msg == [] then [] else TagBytes(msg[0]) + BodyBytes(msg[0]) + Encode(msg[1..])
  }

  /** The length-delimited fields of a message, in order: number and contents. */
  function Contents(msg: seq<Field>): seq<(nat, seq<Byte>)> {
    if msg == [] then []
    else (if msg[0].Bytes? then [(msg[0].number, msg[0].payload)] else []) + Contents(msg[1..])
  }

  function Cut(d: seq<Byte>, fs: seq<(nat, Slice)>): (r: seq<(nat, seq<Byte>)>)
    requires forall i | 0 <= i < |fs| :: fs[i].1.start <= fs[i].1.end <= |d|
    ensures |r| == |fs|
    ensures forall i | 0 <= i < |fs| :: r[i] == (fs[i].0, d[fs[i].1.start..fs[i].1.end])
  {
    if fs == [] then [] else [(fs[0].0, d[fs[0].1.start..fs[0].1.end])] + Cut(d, fs[1..])
  }

  lemma NextField(pre: seq<Byte>, f: Field, rest: seq<Byte>)
    requires ValidField(f)
    ensures var d := pre + TagBytes(f) + BodyBytes(f) + rest;
            var body := |pre| + |TagBytes(f)|; var end := body + |BodyBytes(f)|;
            && |pre| < |d|
            && Next(d, |pre|) ==
               if f.Bytes? then Payload(f.number, Slice(end - |f.payload|, end)) else Skip(end)
  {
    hide VarAt, VarBytes;
    var tag := f.number * 8 + WireType(f);
    var body := BodyBytes(f);
    var d := pre + TagBytes(f) + body + rest;
    assert d == pre + VarBytes(tag) + (body + rest);
    VarintRoundTrip(pre, tag, body + rest);
    var pre' := pre + TagBytes(f);
    match f
    case Varint(_, value) =>
      VarintRoundTrip(pre', value, rest);
    case Bytes(_, payload) =>
      assert d == pre' + VarBytes(|payload|) + (payload + rest);
      VarintRoundTrip(pre', |payload|, payload + rest);
    case Fixed64(_, _) =>
    case Fixed32(_, _) =>
  }

  /** Scanning an encoded message with nothing more to find behind it yields its length-delimited fields, in order. */
  lemma {:induction false} PayloadsOfEncoded(pre: seq<Byte>, msg: seq<Field>, rest: seq<Byte>)
    requires ValidMessage(msg) && Payloads(pre + Encode(msg) + rest, |pre| + |Encode(msg)|) == []
    ensures var d := pre + Encode(msg) + rest; Cut(d, Payloads(d, |pre|)) == Contents(msg)
    decreases |msg|
  {
    hide Next, TagBytes, BodyBytes, Encode, Payloads, Contents, Cut, ValidField;
    var d := pre + Encode(msg) + rest;
    if msg == [] {
      NothingEncoded();
    } else {
      var f, later := msg[0], msg[1..];
      assert ValidField(f);
      EncodeHead(pre, msg, rest);
      NextField(pre, f, Encode(later) + rest);
      PayloadsStep(d, |pre|);
      PayloadsOfEncoded(pre + TagBytes(f) + BodyBytes(f), later, rest);
      if f.Bytes? {
        PayloadAtEnd(pre + TagBytes(f), f, Encode(later) + rest);
        var end := |pre + TagBytes(f) + BodyBytes(f)|;
        CutHead(d, (f.number, Slice(end - |f.payload|, end)), Payloads(d, end));
      }
    }
  }

  lemma MessageScanned(msg: seq<Field>)
    requires ValidMessage(msg)
    ensures var d := Encode(msg); Cut(d, Payloads(d, 0)) == Contents(msg)
  {
    hide Encode, Next, ValidField, Contents, Cut;
    var d := Encode(msg);
    assert [] + d + [] == d;
    NoPayloads(d, |d|);
    PayloadsOfEncoded([], msg, []);
  }

  /** What ends a scan early: a tag of another wire type, or a length that goes beyond the data. */
  ghost predicate EndsScan(tag: nat, rest: seq<Byte>, length: nat) {
    && tag < U64
    && (tag % 8 in {3, 4, 6, 7}
        || (tag % 8 == 2 && length < U64 && VarBytes(length) <= rest && |rest| - |VarBytes(length)| < length))
  }

  /** A scan that ends early keeps what it found before. */
  lemma ScanEndsEarly(msg: seq<Field>, tag: nat, rest: seq<Byte>, length: nat)
    requires ValidMessage(msg) && EndsScan(tag, rest, length)
    ensures var d := Encode(msg) + VarBytes(tag) + rest; Cut(d, Payloads(d, 0)) == Contents(msg)
  {
    hide Encode, VarAt, VarBytes;
    var m := Encode(msg);
    var d := m + VarBytes(tag) + rest;
    VarintRoundTrip(m, tag, rest);
    if tag % 8 == 2 {
      var more := rest[|VarBytes(length)|..];
      assert d == (m + VarBytes(tag)) + VarBytes(length) + more;
      VarintRoundTrip(m + VarBytes(tag), length, more);
    }
    assert Next(d, |m|).Stop?;
    PayloadsStep(d, |m|);
    assert d == [] + m + (VarBytes(tag) + rest);
    PayloadsOfEncoded([], msg, VarBytes(tag) + rest);
  }

  lemma NothingEncoded()
    ensures Encode([]) == [] && Contents([]) == []
    ensures forall d :: Cut(d, []) == []
  {
  }

  lemma EncodeHead(pre: seq<Byte>, msg: seq<Field>, rest: seq<Byte>)
    requires msg != []
    ensures var f, later := msg[0], msg[1..];
            && pre + Encode(msg) + rest == pre + TagBytes(f) + BodyBytes(f) + (Encode(later) + rest)
            && pre + Encode(msg) + rest == (pre + TagBytes(f) + BodyBytes(f)) + Encode(later) + rest
            && |Encode(msg)| == |TagBytes(f)| + |BodyBytes(f)| + |Encode(later)|
            && Contents(msg) == (if f.Bytes? then [(f.number, f.payload)] else []) + Contents(later)
  {
    hide TagBytes, BodyBytes;
  }

  lemma CutHead(d: seq<Byte>, x: (nat, Slice), rest: seq<(nat, Slice)>)
    requires x.1.start <= x.1.end <= |d|
    requires forall i | 0 <= i < |rest| :: rest[i].1.start <= rest[i].1.end <= |d|
    ensures Cut(d, [x] + rest) == [(x.0, d[x.1.start..x.1.end])] + Cut(d, rest)
  {
    assert ([x] + rest)[1..] == rest;
  }

  lemma PayloadAtEnd(pre: seq<Byte>, f: Field, rest: seq<Byte>)
    requires f.Bytes?
    ensures var end := |pre| + |BodyBytes(f)|;
            (pre + BodyBytes(f) + rest)[end - |f.payload|..end] == f.payload
  {
    var d := pre + BodyBytes(f) + rest;
    assert d == (pre + VarBytes(|f.payload|)) + f.payload + rest;
  }

  function Numbered(fs: seq<(nat, seq<Byte>)>, f: nat): seq<seq<Byte>> {
    if fs == [] then [] else (if fs[0].0 == f then [fs[0].1] else []) + Numbered(fs[1..], f)
  }

  function Texts(d: seq<Byte>, r: seq<Slice>): (ts: seq<seq<Byte>>)
    requires forall i | 0 <= i < |r| :: r[i].start <= r[i].end <= |d|
    ensures |ts| == |r|
    ensures forall i | 0 <= i < |r| :: ts[i] == d[r[i].start..r[i].end]
  {
    if r == [] then [] else [d[r[0].start..r[0].end]] + Texts(d, r[1..])
  }

  lemma {:induction false} CutNumbered(d: seq<Byte>, fs: seq<(nat, Slice)>, f: nat)
    requires forall i | 0 <= i < |fs| :: fs[i].1.start <= fs[i].1.end <= |d|
    ensures var r := WithNumber(fs, f);
            && (forall i | 0 <= i < |r| :: r[i].start <= r[i].end <= |d|)
            && Texts(d, r) == Numbered(Cut(d, fs), f)
    decreases |fs|
  {
    if fs != [] {
      CutNumbered(d, fs[1..], f);
      assert Cut(d, fs)[1..] == Cut(d, fs[1..]);
    }
  }

  /** For every message and field number: exactly the payloads of that field, in order. */
  lemma MessageRoundTrip(msg: seq<Field>, f: nat)
    requires ValidMessage(msg)
    ensures var d := Encode(msg); var r := AllSlices(d, f);
            && (forall i | 0 <= i < |r| :: r[i].start <= r[i].end <= |d|)
            && Texts(d, r) == Numbered(Contents(msg), f)
  {
    var d := Encode(msg);
    MessageScanned(msg);
    CutNumbered(d, Payloads(d, 0), f);
  }
}
