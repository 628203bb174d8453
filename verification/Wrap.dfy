/**
 The SRTP-shaped packet wrap of internal/core/wrap.go (and its copy in internal/wrap):
 an RTP header (RFC 3550 section 5.1), an explicit nonce and an AEAD ciphertext.
 The cipher is a parameter: only the defining equation of an AEAD is used.
 */
module Wrap {
  import opened Wrappers
  import opened Bytes

  type Text = seq<Byte>

  /** A keyed AEAD: seal(nonce, plaintext, data) and open(nonce, ciphertext, data). */
  datatype Aead = Aead(seal: (Text, Text, Text) -> Text, open: (Text, Text, Text) -> Option<Text>)

  /** Open inverts Seal, accepts nothing else, and the tag has 16 bytes (RFC 8439 section 2.8). */
  ghost predicate Lawful(a: Aead) {
    && (forall n, p, d :: |a.seal(n, p, d)| == |p| + TAG)
    && (forall n, p, c, d :: a.open(n, c, d) == Some(p) <==> c == a.seal(n, p, d))
  }

  const KEY_LEN := 32
  const TAG := 16
  const HEADER := 24
  const OVERHEAD := 40
  const TS_STEP := 960
  const U16: nat := 0x1_0000
  const U32: nat := 0x1_0000_0000
  const U64: nat := 0x1_0000_0000_0000_0000

  // ---- Big-endian numbers ----

  function Pow256(n: nat): nat { if n == 0 then 1 else 256 * Pow256(n - 1) }

  function BE(v: nat, n: nat): (b: Text)
    ensures |b| == n
  {
    if n == 0 then [] else BE(v / 256, n - 1) + [v % 256]
  }

  function FromBE(b: Text): nat {
    if b == [] then 0 else FromBE(b[..|b| - 1]) * 256 + b[|b| - 1]
  }

  lemma {:induction false} BigEndianRoundTrip(v: nat, n: nat)
    requires v < Pow256(n)
    ensures FromBE(BE(v, n)) == v
    decreases n
  {
    if n > 0 {
      BigEndianRoundTrip(v / 256, n - 1);
      assert BE(v, n)[..n - 1] == BE(v / 256, n - 1);
    }
  }

  /** The first byte counts most. */
  lemma {:induction false} MostSignificantFirst(b: Text)
    requires b != []
    ensures FromBE(b) == b[0] * Pow256(|b| - 1) + FromBE(b[1..])
    decreases |b|
  {
    var n := |b| - 1;
    if n == 0 {
      assert b[..0] == [] && b[1..] == [];
    } else {
      MostSignificantFirst(b[..n]);
      assert b[..n][1..] == b[1..][..n - 1];
      TimesPower(b[0], n, FromBE(b[1..n]), b[n]);
    }
  }

  lemma TimesPower(x: nat, n: nat, y: nat, z: nat)
    requires n > 0
    ensures (x * Pow256(n - 1) + y) * 256 + z == x * Pow256(n) + (y * 256 + z)
  {
    assert Pow256(n) == 256 * Pow256(n - 1);
    assert x * Pow256(n - 1) * 256 == x * (256 * Pow256(n - 1));
  }

  lemma Pow256Values()
    ensures Pow256(2) == U16 && Pow256(4) == U32 && Pow256(8) == U64
  {
    assert Pow256(4) == U32;
    assert Pow256(6) == 0x1_0000_0000_0000;
  }

  // ---- The packet ----

  /** RTP header: version 2, payload type 111, sequence number, timestamp, source. */
  function RtpHeader(seq16: nat, ts: nat, ssrc: Text): Text {
    [0x80, 0x6F] + BE(seq16, 2) + BE(ts, 4) + ssrc
  }

  function Nonce(session: Text, ctr: nat): Text { session + BE(ctr, 8) }

  function Packet(a: Aead, ssrc: Text, session: Text, seq16: nat, ts: nat, ctr: nat, payload: Text): Text {
    var aad := RtpHeader(seq16, ts, ssrc) + Nonce(session, ctr);
    aad + a.seal(Nonce(session, ctr), payload, aad)
  }

  function Unwrapped(a: Aead, wire: Text): Option<Text> {
    if |wire| < OVERHEAD then None else a.open(wire[12..HEADER], wire[HEADER..], wire[..HEADER])
  }

  function WithTopBit(b: Byte): Byte { if b < 0x80 then b + 0x80 else b }

  function WithoutTopBit(b: Byte): Byte { b % 0x80 }

  /** Copies src over dst from index at on. */
  method Put(dst: array<Byte>, at: nat, src: Text)
    requires at + |src| <= dst.Length
    modifies dst
    ensures dst[..] == old(dst[..at]) + src + old(dst[at + |src|..])
  {
    for i := 0 to |src|
      invariant dst[..at] == old(dst[..at])
      invariant dst[at..at + i] == src[..i]
      invariant dst[at + i..] == old(dst[at + i..])
    {
      dst[at + i] := src[i];
    }
    assert dst[..] == dst[..at] + dst[at..at + |src|] + dst[at + |src|..];
  }

  /** The same but for the top bit of the first byte. */
  ghost predicate RandomBut(id: Text, rnd: Text) {
    |id| == |rnd| == 4 && id[0] % 0x80 == rnd[0] % 0x80 && id[1..] == rnd[1..]
  }

  class WrapConn {
    const aead: Aead
    const sessionID: Text
    const ssrc: Text
    var counter: nat
    var seqNo: nat
    var timestamp: nat

    ghost predicate Valid()
      reads this
    {
      && Lawful(aead) && |sessionID| == 4 && |ssrc| == 4
      && counter < U64 && seqNo < U32 && timestamp < U32
    }

    /** The direction bit: set on a server's connection, clear on a client's. */
    ghost predicate Direction(isServer: bool) {
      |sessionID| == 4 && |ssrc| == 4 && (sessionID[0] >= 0x80 <==> isServer) && (ssrc[0] >= 0x80 <==> isServer)
    }

    /** From 16 and 8 random bytes; only the direction bits are not random. */
    constructor (aead: Aead, isServer: bool, rnd: Text, cb: Text)
      requires Lawful(aead) && |rnd| == 16 && |cb| == 8
      ensures Valid() && Direction(isServer) && this.aead == aead
      ensures seqNo == FromBE(rnd[8..10]) && timestamp == FromBE(rnd[10..14]) && counter == FromBE(cb)
      ensures RandomBut(sessionID, rnd[0..4]) && RandomBut(ssrc, rnd[4..8])
    {
      this.aead := aead;
      var top := if isServer then WithTopBit(rnd[0]) else WithoutTopBit(rnd[0]);
      sessionID := [top] + rnd[1..4];
      ssrc := [if isServer then WithTopBit(rnd[4]) else WithoutTopBit(rnd[4])] + rnd[5..8];
      seqNo := FromBE(rnd[8..10]);
      timestamp := FromBE(rnd[10..14]);
      counter := FromBE(cb);
      FromBEBound(rnd[8..10]);
      FromBEBound(rnd[10..14]);
      FromBEBound(cb);
      Pow256Values();
    }

    /**
     Writes the packet into dst.  A dst that is too small is refused before any counter
     moves; otherwise the three counters advance, each modulo its width.
     */
    method WrapInto(dst: array<Byte>, payload: array<Byte>) returns (n: Option<nat>)
      requires Valid()
      modifies this, dst
      ensures Valid()
      ensures n == if dst.Length < OVERHEAD + payload.Length then None else Some(OVERHEAD + payload.Length)
      ensures n.None? ==> unchanged(this) && dst[..] == old(dst[..])
      ensures n.Some? ==>
                && counter == (old(counter) + 1) % U64
                && seqNo == (old(seqNo) + 1) % U32
                && timestamp == (old(timestamp) + TS_STEP) % U32
                && dst[..n.value] ==
                   Packet(aead, ssrc, sessionID, old(seqNo) % U16, old(timestamp), old(counter), payload[..])
                && dst[n.value..] == old(dst[n.value..])
    {
      var wireLen := OVERHEAD + payload.Length;
      if dst.Length < wireLen {
        return None;
      }
      var text := payload[..];
      var s := seqNo % U16;
      seqNo := (seqNo + 1) % U32;
      var ts := timestamp;
      timestamp := (timestamp + TS_STEP) % U32;
      var ctr := counter;
      counter := (counter + 1) % U64;
      FillPacket(aead, dst, RtpHeader(s, ts, ssrc), Nonce(sessionID, ctr), text);
      return Some(wireLen);
    }

    /**
     Opens wire where it lies: the plaintext takes the place of the ciphertext, and goes to dst
     when it fits.  What is left of a ciphertext that does not open is not stated.
     */
    method UnwrapPacket(wire: array<Byte>, dst: array<Byte>) returns (n: Option<nat>)
      requires Valid() && wire != dst
      modifies wire, dst
      ensures var plain := Unwrapped(aead, old(wire[..]));
              && (n.Some? <==> plain.Some? && |plain.value| <= dst.Length)
              && (n.Some? ==>
                    n.value <= dst.Length && Some(dst[..n.value]) == plain && dst[n.value..] == old(dst[n.value..]))
              && (n.None? ==> dst[..] == old(dst[..]))
              && (wire.Length < OVERHEAD ==> wire[..] == old(wire[..]))
              && (wire.Length >= OVERHEAD ==> wire[..HEADER] == old(wire[..HEADER]))
              && (plain.Some? ==>
                    |plain.value| + OVERHEAD == wire.Length && wire[HEADER..wire.Length - TAG] == plain.value)
    {
      if wire.Length < OVERHEAD {
        return None;
      }
      var w := wire[..];
      var plain := aead.open(w[12..HEADER], w[HEADER..], w[..HEADER]);
      if plain.None? {
        return None;
      }
      OpenedLength(aead, w);
      Put(wire, HEADER, plain.value);
      assert wire[HEADER..HEADER + |plain.value|] == plain.value && wire[..HEADER] == w[..HEADER];
      if |plain.value| > dst.Length {
        return None;
      }
      Put(dst, 0, plain.value);
      assert dst[..|plain.value|] == plain.value;
      assert dst[|plain.value|..] == old(dst[|plain.value|..]);
      return Some(|plain.value|);
    }
  }

  /** A plaintext is 40 bytes shorter than its packet. */
  lemma OpenedLength(a: Aead, wire: Text)
    requires Lawful(a) && Unwrapped(a, wire).Some?
    ensures |Unwrapped(a, wire).value| + OVERHEAD == |wire|
  {
    var plain := Unwrapped(a, wire).value;
    assert wire[HEADER..] == a.seal(wire[12..HEADER], plain, wire[..HEADER]);
  }

  /** Header, nonce and payload are laid out in dst, and the payload is sealed where it lies. */
  method FillPacket(a: Aead, dst: array<Byte>, header: Text, nonce: Text, text: Text)
    requires Lawful(a) && |header| == 12 && |nonce| == 12 && dst.Length >= OVERHEAD + |text|
    modifies dst
    ensures dst[..OVERHEAD + |text|] == header + nonce + a.seal(nonce, text, header + nonce)
    ensures dst[OVERHEAD + |text|..] == old(dst[OVERHEAD + |text|..])
  {
    Put(dst, 0, header);
    Put(dst, 12, nonce);
    PutTwice(old(dst[..]), header, nonce);
    assert dst[..] == header + nonce + old(dst[..])[HEADER..];
    Put(dst, HEADER, text);
    assert dst[..] == header + nonce + text + old(dst[..])[HEADER + |text|..];
    var sealed := a.seal(nonce, text, dst[..HEADER]);
    assert dst[..HEADER] == header + nonce;
    Sealed(old(dst[..]), header + nonce, text, sealed);
    Put(dst, HEADER, sealed);
  }

  lemma PutTwice(was: Text, header: Text, nonce: Text)
    requires |was| >= HEADER && |header| == 12 && |nonce| == 12
    ensures var d := header + was[12..]; d[..12] + nonce + d[HEADER..] == header + nonce + was[HEADER..]
  {
  }

  lemma Sealed(was: Text, head: Text, text: Text, sealed: Text)
    requires |head| == HEADER && |sealed| == |text| + TAG && |was| >= HEADER + |sealed|
    ensures var d := head + text + was[HEADER + |text|..]; var e := d[..HEADER] + sealed + d[HEADER + |sealed|..];
            e[..HEADER + |sealed|] == head + sealed && e[HEADER + |sealed|..] == was[HEADER + |sealed|..]
  {
  }

  lemma {:induction false} FromBEBound(b: Text)
    ensures FromBE(b) < Pow256(|b|)
    decreases |b|
  {
    if b != [] {
      FromBEBound(b[..|b| - 1]);
    }
  }

  /** newWrapConn: refuses keys that are not 32 bytes; the keyed cipher is what the key yields. */
  method NewWrapConn(key: Text, aead: Aead, isServer: bool, rnd: Text, cb: Text) returns (w: WrapConn?)
    requires Lawful(aead) && |rnd| == 16 && |cb| == 8
    ensures w == null <==> |key| != 32
    ensures w != null ==> fresh(w) && w.Valid() && w.Direction(isServer) && w.aead == aead
    ensures w != null ==>
              && w.seqNo == FromBE(rnd[8..10]) && w.timestamp == FromBE(rnd[10..14]) && w.counter == FromBE(cb)
              && RandomBut(w.sessionID, rnd[0..4]) && RandomBut(w.ssrc, rnd[4..8])
  {
    if |key| != KEY_LEN {
      return null;
    }
    w := new WrapConn(aead, isServer, rnd, cb);
  }

  // ---- The packet connection ----

  /** Sends b, wrapped when a wrapper is set: what goes out on the relay. */
  method WriteTo(wc: WrapConn?, b: array<Byte>) returns (wire: Text)
    requires wc != null ==> wc.Valid()
    modifies wc
    ensures wc == null ==> wire == b[..]
    ensures wc != null ==> wc.Valid()
    ensures wc != null ==>
              wire ==
              Packet(wc.aead, wc.ssrc, wc.sessionID, old(wc.seqNo) % U16, old(wc.timestamp), old(wc.counter), b[..])
  {
    if wc == null {
      return b[..];
    }
    var out := new Byte[OVERHEAD + b.Length];
    var n := wc.WrapInto(out, b);
    wire := out[..n.value];
  }

  /** Receives a datagram into b: the relay cuts it to the buffer, the wrapper opens it. */
  method ReadFrom(wc: WrapConn?, datagram: Text, b: array<Byte>) returns (n: Option<nat>)
    requires wc != null ==> wc.Valid()
    modifies b
    ensures wc == null ==>
              n == Some(if |datagram| < b.Length then |datagram| else b.Length) && b[..n.value] == datagram[..n.value]
    ensures wc != null ==>
              var cut := if |datagram| <= OVERHEAD + b.Length then datagram else datagram[..OVERHEAD + b.Length];
              && (n.Some? <==> Unwrapped(wc.aead, cut).Some? && |Unwrapped(wc.aead, cut).value| <= b.Length)
              && (n.Some? ==> n.value <= b.Length && Some(b[..n.value]) == Unwrapped(wc.aead, cut))
  {
    if wc == null {
      var m := if |datagram| < b.Length then |datagram| else b.Length;
      Put(b, 0, datagram[..m]);
      assert b[..m] == datagram[..m];
      return Some(m);
    }
    var m := if |datagram| <= OVERHEAD + b.Length then |datagram| else OVERHEAD + b.Length;
    var buf := new Byte[m](i requires 0 <= i < m => datagram[i]);
    assert buf[..] == datagram[..m];
    assert m == |datagram| ==> datagram[..m] == datagram;
    n := wc.UnwrapPacket(buf, b);
  }

  /** What one end writes the other end with the same key reads, if its buffer holds the payload. */
  method Transfer(sender: WrapConn?, receiver: WrapConn?, payload: array<Byte>, b: array<Byte>) returns (n: Option<nat>)
    requires sender != null <==> receiver != null
    requires sender != null ==> sender.Valid() && receiver.Valid() && sender.aead == receiver.aead
    requires payload != b && payload.Length <= b.Length
    modifies sender, b
    ensures n == Some(payload.Length) && b[..payload.Length] == payload[..]
  {
    hide Packet, Unwrapped;
    var wire := WriteTo(sender, payload);
    if sender != null {
      WrapRoundTrip(sender.aead, sender.ssrc, sender.sessionID, old(sender.seqNo) % U16, old(sender.timestamp),
                    old(sender.counter), payload[..]);
    }
    n := ReadFrom(receiver, wire, b);
  }

  // ---- Round trip ----

  lemma PacketLayout(a: Aead, ssrc: Text, session: Text, seq16: nat, ts: nat, ctr: nat, payload: Text)
    requires Lawful(a) && |ssrc| == 4 && |session| == 4
    ensures var w := Packet(a, ssrc, session, seq16, ts, ctr, payload);
            && |w| == |payload| + 40
            && w[..2] == [0x80, 0x6F] && w[2..4] == BE(seq16, 2) && w[4..8] == BE(ts, 4) && w[8..12] == ssrc
            && w[12..16] == session && w[16..24] == BE(ctr, 8)
            && w[24..] == a.seal(w[12..24], payload, w[..24])
  {
    var w := Packet(a, ssrc, session, seq16, ts, ctr, payload);
    assert w[12..24] == Nonce(session, ctr);
    assert w[..24] == RtpHeader(seq16, ts, ssrc) + Nonce(session, ctr);
  }

  /**
   A packet read back field by field (RFC 3550 section 5.1): version 2 without padding, extension or CSRC, no
   marker and payload type 111, then sequence number, timestamp and source; the nonce is the session and the counter.
   */
  lemma PacketRead(a: Aead, ssrc: Text, session: Text, seq16: nat, ts: nat, ctr: nat, payload: Text)
    requires Lawful(a) && |ssrc| == 4 && |session| == 4 && seq16 < U16 && ts < U32 && ctr < U64
    ensures var w := Packet(a, ssrc, session, seq16, ts, ctr, payload);
            && |w| == |payload| + 40
            && w[0] / 0x40 == 2 && w[0] % 0x40 == 0 && w[1] == 111
            && FromBE(w[2..4]) == seq16 && FromBE(w[4..8]) == ts && w[8..12] == ssrc
            && w[12..16] == session && FromBE(w[16..24]) == ctr
            && a.open(w[12..24], w[24..], w[..24]) == Some(payload)
  {
    hide Packet, BE, Pow256, FromBE;
    PacketLayout(a, ssrc, session, seq16, ts, ctr, payload);
    var w := Packet(a, ssrc, session, seq16, ts, ctr, payload);
    assert w[0] == w[..2][0] && w[1] == w[..2][1];
    Pow256Values();
    BigEndianRoundTrip(seq16, 2);
    BigEndianRoundTrip(ts, 4);
    BigEndianRoundTrip(ctr, 8);
  }

  /** Any connection with the same key recovers the payload, and the wire is 40 bytes longer. */
  lemma WrapRoundTrip(a: Aead, ssrc: Text, session: Text, seq16: nat, ts: nat, ctr: nat, payload: Text)
    requires Lawful(a) && |ssrc| == 4 && |session| == 4
    ensures var w := Packet(a, ssrc, session, seq16, ts, ctr, payload);
            |w| == |payload| + 40 && Unwrapped(a, w) == Some(payload)
  {
    hide Packet, RtpHeader, Nonce;
    PacketLayout(a, ssrc, session, seq16, ts, ctr, payload);
  }

  /** Under one header and nonce, no other bytes open to the same payload. */
  lemma AcceptedWireIsUnique(a: Aead, v: Text, w: Text)
    requires Lawful(a) && Unwrapped(a, v).Some? && Unwrapped(a, v) == Unwrapped(a, w)
    requires v[..HEADER] == w[..HEADER]
    ensures v == w
  {
    assert v[12..HEADER] == v[..HEADER][12..] && w[12..HEADER] == w[..HEADER][12..];
    assert v == v[..HEADER] + v[HEADER..] && w == w[..HEADER] + w[HEADER..];
  }

  /** The two directions never use a common nonce. */
  lemma DirectionsDisjoint(client: Text, server: Text, c1: nat, c2: nat)
    requires |client| == 4 && |server| == 4 && client[0] < 0x80 && server[0] >= 0x80
    ensures Nonce(client, c1) != Nonce(server, c2)
  {
    assert Nonce(client, c1)[0] == client[0] && Nonce(server, c2)[0] == server[0];
  }

  lemma NonceInjective(session: Text, c1: nat, c2: nat)
    requires c1 < U64 && c2 < U64
    ensures Nonce(session, c1) == Nonce(session, c2) <==> c1 == c2
  {
    Pow256Values();
    hide BE, Pow256;
    BigEndianRoundTrip(c1, 8);
    BigEndianRoundTrip(c2, 8);
    assert Nonce(session, c1)[|session|..] == BE(c1, 8);
    assert Nonce(session, c2)[|session|..] == BE(c2, 8);
  }

  // ---- Header arithmetic ----

  /** The k-th wire sequence number counts modulo 2^16, also across the 32-bit wrap. */
  lemma SequenceNumbers(s0: nat, k: nat)
    ensures (s0 + k) % U32 % U16 == (s0 + k) % U16
  {
  }

  const PERIOD: nat := 0x400_0000

  /** Timestamps repeat exactly every 2^26 packets: 960 is 64 times an odd number. */
  lemma TimestampPeriod(t: nat, i: nat, j: nat)
    requires i <= j
    ensures (t + TS_STEP * i) % U32 == (t + TS_STEP * j) % U32 <==> (j - i) % PERIOD == 0
  {
    CongruentExactly(t + TS_STEP * i, t + TS_STEP * j);
    assert t + TS_STEP * j - (t + TS_STEP * i) == TS_STEP * (j - i);
    MultiplesOfStep(j - i);
  }

  lemma MultiplesOfStep(d: nat)
    ensures TS_STEP * d % U32 == 0 <==> d % PERIOD == 0
  {
    if TS_STEP * d % U32 == 0 {
      var m := TS_STEP * d / U32;
      assert 15 * d == m * PERIOD;
      InverseOf15(d, m);
    }
    if d % PERIOD == 0 {
      var m := d / PERIOD;
      assert TS_STEP * d == 15 * m * U32;
    }
  }

  /** 49213167 inverts 15 modulo 2^26. */
  lemma InverseOf15(d: nat, m: nat)
    requires 15 * d == m * PERIOD
    ensures d % PERIOD == 0
  {
    assert 15 * 49213167 == 1 + 11 * PERIOD;
    assert d == (49213167 * m - 11 * d) * PERIOD;
  }

  lemma CongruentExactly(x: nat, y: nat)
    requires x <= y
    ensures x % U32 == y % U32 <==> (y - x) % U32 == 0
  {
  }
}
