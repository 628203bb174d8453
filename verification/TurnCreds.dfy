/**
 The credential walk of internal/core/wb.go: find the first block with a TURN or STUN
 URL in a signalling message and return the credentials of all its sibling blocks.
 */
module TurnCreds {
  import opened Bytes
  import opened Protobuf
  import opened OrderedSets
  import opened Separated

  type Text = seq<Byte>

  datatype Cred = Cred(url: Text, user: Text, password: Text)

  const TURN: Text := [116, 117, 114, 110]
  const STUN: Text := [115, 116, 117, 110]

  predicate IsTurnUrl(u: Text) { TURN <= u || STUN <= u }

  ghost predicate StartsWith(u: Text, prefix: string) {
    |prefix| <= |u| && forall i | 0 <= i < |prefix| :: u[i] == prefix[i] as int
  }

  /** The URL schemes turn, turns, stun and stuns, and whatever else starts like them. */
  lemma TurnUrlExactly(u: Text)
    ensures IsTurnUrl(u) <==> StartsWith(u, "turn") || StartsWith(u, "stun")
  {
    if |u| >= 4 {
      assert u[..4] == [u[0], u[1], u[2], u[3]];
    }
  }

  /** The payloads of field f, as byte strings. */
  function Fields(d: Text, f: nat): (r: seq<Text>)
    ensures |r| == |AllSlices(d, f)|
  {
    SlicesDisjoint(d, f);
    Texts(d, AllSlices(d, f))
  }

  function FirstText(d: Text, f: nat): Text {
    var r := Fields(d, f); if r == [] then [] else r[0]
  }

  function WithLogin(urls: seq<Text>, user: Text, password: Text): (r: seq<Cred>)
    ensures |r| == |urls|
    ensures forall i | 0 <= i < |urls| :: r[i] == Cred(urls[i], user, password)
  {
    seq(|urls|, i requires 0 <= i < |urls| => Cred(urls[i], user, password))
  }

  /** A block's URLs, each with the block's own username and password. */
  function BlockCreds(block: Text): seq<Cred> {
    WithLogin(Fields(block, 1), FirstText(block, 2), FirstText(block, 3))
  }

  predicate Hit(block: Text) { exists u | u in Fields(block, 1) :: IsTurnUrl(u) }

  /** Index of the first block with a TURN or STUN URL, |blocks| if there is none. */
  function FirstHit(blocks: seq<Text>): (i: nat)
    ensures i <= |blocks|
  {
    if blocks == [] || Hit(blocks[0]) then 0 else 1 + FirstHit(blocks[1..])
  }

  lemma {:induction false} FirstHitIs(blocks: seq<Text>, i: nat)
    requires i <= |blocks|
    ensures FirstHit(blocks) == i <==> (forall j | 0 <= j < i :: !Hit(blocks[j])) && (i < |blocks| ==> Hit(blocks[i]))
    decreases |blocks|
  {
    hide Hit;
    if blocks != [] && i > 0 {
      FirstHitIs(blocks[1..], i - 1);
      assert forall j | 1 <= j < |blocks| :: blocks[1..][j - 1] == blocks[j];
    }
  }

  /** The credentials of all the blocks, in order. */
  function AllCreds(blocks: seq<Text>): seq<Cred> {
    if blocks == [] then [] else AllCreds(blocks[..|blocks| - 1]) + BlockCreds(blocks[|blocks| - 1])
  }

  datatype Found = Found(creds: seq<Cred>) | Nothing

  /** The hit block's credentials first, then those of the others in order. */
  function FromBlocks(blocks: seq<Text>): Found {
    var i := FirstHit(blocks);
    if i == |blocks| then Nothing else Found(BlockCreds(blocks[i]) + AllCreds(blocks[..i] + blocks[i + 1..]))
  }

  function FromInner(inner: Text): Found {
    var five := FromBlocks(Fields(inner, 5)); if five.Found? then five else FromBlocks(Fields(inner, 9))
  }

  /** The walk over the outer message from offset o. */
  function Ice(d: Text, o: nat): seq<Cred>
    decreases if o < |d| then |d| - o else 0
  {
    if o >= |d| then []
    else match Next(d, o)
      case Stop => []
      case Skip(next) => Ice(d, next)
      case Payload(_, s) => var r := FromInner(d[s.start..s.end]); if r.Found? then r.creds else Ice(d, s.end)
  }

  // ---- The walk as the source runs it ----

  method ReadTexts(d: Text, f: nat) returns (slices: seq<Slice>, texts: seq<Text>)
    requires |d| < I63
    ensures slices == AllSlices(d, f) && texts == Fields(d, f) && InOrder(d, 0, slices)
    ensures forall i | 0 <= i < |slices| :: texts[i] == d[slices[i].start..slices[i].end]
  {
    hide AllSlices;
    slices := PbAll(d, f);
    SlicesDisjoint(d, f);
    texts := Texts(d, slices);
  }

  method BlockHit(urls: seq<Text>) returns (hit: bool)
    ensures hit <==> exists u | u in urls :: IsTurnUrl(u)
  {
    hit := false;
    for i := 0 to |urls|
      invariant !hit && forall u | u in urls[..i] :: !IsTurnUrl(u)
    {
      if IsTurnUrl(urls[i]) {
        return true;
      }
    }
  }

  method ReadLogin(block: Text) returns (user: Text, password: Text)
    requires |block| < I63
    ensures user == FirstText(block, 2) && password == FirstText(block, 3)
  {
    var _, users := ReadTexts(block, 2);
    var _, passwords := ReadTexts(block, 3);
    user := if users == [] then [] else users[0];
    password := if passwords == [] then [] else passwords[0];
  }

  /**
   The sibling loop.  The source skips the hit block by comparing the addresses of first
   bytes; as the blocks are disjoint slices that is the case for the hit block alone.
   */
  method SiblingCreds(inner: Text, slices: seq<Slice>, hit: nat) returns (res: seq<Cred>)
    requires |inner| < I63 && InOrder(inner, 0, slices) && hit < |slices|
    requires slices[hit].start < slices[hit].end
    ensures var blocks := Texts(inner, slices); res == AllCreds(blocks[..hit] + blocks[hit + 1..])
  {
    hide Fields, FirstText, Texts, Without, AllCreds;
    SliceAt(inner, slices, hit, hit);
    ghost var blocks := Texts(inner, slices);
    res := [];
    NothingWithout(blocks, hit);
    for j := 0 to |slices|
      invariant res == AllCreds(Without(blocks, hit, j))
    {
      WithoutNext(blocks, hit, j);
      SliceAt(inner, slices, hit, j);
      var block := inner[slices[j].start..slices[j].end];
      if |block| > 0 && slices[j].start == slices[hit].start {
        continue;
      }
      var user, password := ReadLogin(block);
      var _, urls := ReadTexts(block, 1);
      AllCredsSnoc(Without(blocks, hit, j), block);
      res := res + WithLogin(urls, user, password);
    }
    AllWithout(blocks, hit);
  }

  /** Slice j of the data, and whether it is the hit slice. */
  lemma SliceAt(inner: Text, slices: seq<Slice>, hit: nat, j: nat)
    requires InOrder(inner, 0, slices) && hit < |slices| && j < |slices|
    requires slices[hit].start < slices[hit].end
    ensures slices[j].start <= slices[j].end <= |inner|
    ensures Texts(inner, slices)[j] == inner[slices[j].start..slices[j].end]
    ensures slices[j].start < slices[j].end && slices[j].start == slices[hit].start <==> j == hit
  {
  }

  lemma NothingWithout(blocks: seq<Text>, hit: nat)
    ensures AllCreds(Without(blocks, hit, 0)) == []
  {
  }

  lemma AllWithout(blocks: seq<Text>, hit: nat)
    requires hit < |blocks|
    ensures Without(blocks, hit, |blocks|) == blocks[..hit] + blocks[hit + 1..]
  {
  }

  /** The first n blocks but the one at index hit. */
  ghost function Without(blocks: seq<Text>, hit: nat, n: nat): seq<Text>
    requires n <= |blocks|
  {
    if n <= hit then blocks[..n] else blocks[..hit] + blocks[hit + 1..n]
  }

  lemma WithoutNext(blocks: seq<Text>, hit: nat, n: nat)
    requires n < |blocks|
    ensures Without(blocks, hit, n + 1) ==
            if n == hit then Without(blocks, hit, n) else Without(blocks, hit, n) + [blocks[n]]
  {
  }

  lemma AllCredsSnoc(blocks: seq<Text>, b: Text)
    ensures AllCreds(blocks + [b]) == AllCreds(blocks) + BlockCreds(b)
  {
    assert (blocks + [b])[..|blocks|] == blocks;
  }

  lemma EmptyIsNoHit()
    ensures !Hit([])
  {
    NoPayloads([], 0);
    WithNumberNone(1);
  }

  method ScanBlocks(inner: Text, f: nat) returns (r: Found)
    requires |inner| < I63
    ensures r == FromBlocks(Fields(inner, f))
  {
    hide Fields, FirstText, AllCreds;
    var slices, blocks := ReadTexts(inner, f);
    FieldsAre(inner, f);
    for i := 0 to |slices|
      invariant forall j | 0 <= j < i :: !Hit(blocks[j])
    {
      var _, urls := ReadTexts(blocks[i], 1);
      var hit := BlockHit(urls);
      if !hit {
        continue;
      }
      EmptyIsNoHit();
      FirstHitIs(blocks, i);
      var user, password := ReadLogin(blocks[i]);
      var siblings := SiblingCreds(inner, slices, i);
      return Found(WithLogin(urls, user, password) + siblings);
    }
    FirstHitIs(blocks, |blocks|);
    return Nothing;
  }

  lemma FieldsAre(d: Text, f: nat)
    ensures InOrder(d, 0, AllSlices(d, f)) && Fields(d, f) == Texts(d, AllSlices(d, f))
  {
    SlicesDisjoint(d, f);
  }

  lemma IceStep(d: Text, o: nat)
    requires o < |d|
    ensures Ice(d, o) ==
            match Next(d, o)
            case Stop => []
            case Skip(next) => Ice(d, next)
            case Payload(_, s) => var r := FromInner(d[s.start..s.end]); if r.Found? then r.creds else Ice(d, s.end)
  {
    hide Next, FromInner;
  }

  method PbICE(d: Text) returns (res: seq<Cred>)
    requires |d| < I63
    ensures res == Ice(d, 0)
  {
    hide Next, FromBlocks, Fields, Ice;
    var o: nat := 0;
    while o < |d|
      invariant Ice(d, 0) == Ice(d, o)
      decreases |d| - o
    {
      IceStep(d, o);
      var field := ReadField(d, o);
      match field
      case Stop => return [];
      case Skip(next) => o := next;
      case Payload(_, s) =>
        var inner := d[s.start..s.end];
        var r := ScanBlocks(inner, 5);
        if r.Nothing? {
          r := ScanBlocks(inner, 9);
        }
        if r.Found? {
          return r.creds;
        }
        o := s.end;
    }
    IceEnd(d, o);
    return [];
  }

  lemma IceEnd(d: Text, o: nat)
    requires o >= |d|
    ensures Ice(d, o) == []
  {
  }

  // ---- Conservation ----

  lemma {:induction false} AllCredsConcat(a: seq<Text>, b: seq<Text>)
    ensures AllCreds(a + b) == AllCreds(a) + AllCreds(b)
    decreases |b|
  {
    hide BlockCreds;
    if b == [] {
      assert a + b == a;
    } else {
      var n := |b| - 1;
      assert (a + b)[..|a| + n] == a + b[..n];
      AllCredsConcat(a, b[..n]);
    }
  }

  /**
   Nothing is lost or duplicated: when a hit is found, the result is a rearrangement of the
   credentials of all blocks of that field - each URL of each block once, with its own
   username and password - with the hit block in front and the rest in their order.
   */
  lemma CredentialsConserved(blocks: seq<Text>)
    requires FirstHit(blocks) < |blocks|
    ensures var i := FirstHit(blocks); var r := FromBlocks(blocks).creds;
            && multiset(r) == multiset(AllCreds(blocks))
            && BlockCreds(blocks[i]) <= r
            && r[|BlockCreds(blocks[i])|..] == AllCreds(blocks[..i]) + AllCreds(blocks[i + 1..])
  {
    hide BlockCreds, AllCreds, FirstHit;
    var i := FirstHit(blocks);
    var front, hit, back := blocks[..i], blocks[i], blocks[i + 1..];
    assert blocks == front + [hit] + back;
    AllCredsConcat(front + [hit], back);
    AllCredsSnoc(front, hit);
    AllCredsConcat(front, back);
  }

  // ---- Encoded messages ----

  ghost function FirstFound(contents: seq<(nat, Text)>): seq<Cred> {
    if contents == [] then []
    else
      var r := FromInner(contents[0].1);
      if r.Found? then r.creds else FirstFound(contents[1..])
  }

  lemma {:induction false} IceOfPayloads(d: Text, o: nat)
    ensures Ice(d, o) == FirstFound(Cut(d, Payloads(d, o)))
    decreases if o < |d| then |d| - o else 0
  {
    hide Next, FromInner, Ice, Payloads, Cut;
    if o >= |d| {
      NoPayloads(d, o);
      IceEnd(d, o);
    } else {
      IceStep(d, o);
      PayloadsStep(d, o);
      match Next(d, o)
      case Stop =>
      case Skip(next) => IceOfPayloads(d, next);
      case Payload(number, s) =>
        IceOfPayloads(d, s.end);
        CutHead(d, (number, s), Payloads(d, s.end));
        FirstFoundHead((number, d[s.start..s.end]), Cut(d, Payloads(d, s.end)));
    }
  }

  lemma FirstFoundHead(x: (nat, Text), rest: seq<(nat, Text)>)
    ensures FirstFound([x] + rest) == (var r := FromInner(x.1); if r.Found? then r.creds else FirstFound(rest))
  {
    assert ([x] + rest)[1..] == rest;
  }

  /** On an encoded message the walk sees the message's own fields, on an encoded inner message its own blocks. */
  lemma IceOfEncoded(msg: seq<Field>)
    requires ValidMessage(msg)
    ensures Ice(Encode(msg), 0) == FirstFound(Contents(msg))
  {
    hide Encode, Ice, FirstFound, Contents, Cut, Payloads, ValidField;
    var d := Encode(msg);
    IceOfPayloads(d, 0);
    MessageScanned(msg);
  }

  lemma BlocksOfEncoded(inner: seq<Field>, f: nat)
    requires ValidMessage(inner)
    ensures Fields(Encode(inner), f) == Numbered(Contents(inner), f)
  {
    MessageRoundTrip(inner, f);
  }

  // ---- Deduplication ----

  const BAR: Byte := 124

  function Key(c: Cred): Text { c.url + [BAR] + c.user }

  function Keys(cs: seq<Cred>): (r: seq<Text>)
    ensures |r| == |cs|
    ensures forall i | 0 <= i < |cs| :: r[i] == Key(cs[i])
  {
    seq(|cs|, i requires 0 <= i < |cs| => Key(cs[i]))
  }

  /** The first credential of every key, in order. */
  function DedupByKey(cs: seq<Cred>): seq<Cred>
    decreases |cs|
  {
    if cs == [] then []
    else
      var n := |cs| - 1;
      DedupByKey(cs[..n]) + if Key(cs[n]) in Keys(cs[..n]) then [] else [cs[n]]
  }

  method WbDedup(cs: seq<Cred>) returns (r: seq<Cred>)
    ensures r == DedupByKey(cs)
  {
    hide Key;
    r := [];
    var seen: set<Text> := {};
    for i := 0 to |cs|
      invariant r == DedupByKey(cs[..i])
      invariant seen == set k | k in Keys(cs[..i])
    {
      assert cs[..i + 1][..i] == cs[..i];
      assert Keys(cs[..i + 1]) == Keys(cs[..i]) + [Key(cs[i])];
      if Key(cs[i]) !in seen {
        seen := seen + {Key(cs[i])};
        r := r + [cs[i]];
      }
    }
    assert cs[..|cs|] == cs;
  }

  lemma {:induction false} OneCredPerKey(cs: seq<Cred>)
    ensures Keys(DedupByKey(cs)) == Dedup(Keys(cs))
    decreases |cs|
  {
    hide Key;
    if cs != [] {
      var n := |cs| - 1;
      OneCredPerKey(cs[..n]);
      assert Keys(cs)[..n] == Keys(cs[..n]);
      DedupMembers(Keys(cs[..n]));
    }
  }

  /** Unless a URL goes on with a bar where the other ends, keys are equal exactly when URL and username are. */
  lemma KeyExact(a: Cred, b: Cred)
    requires !Ambiguous(BAR, a.url, b.url)
    ensures Key(a) == Key(b) <==> a.url == b.url && a.user == b.user
  {
    KeyDetermines(BAR, a.url, a.user, b.url, b.user);
  }

  /** Two URLs can meet in a key of different credentials exactly in that case. */
  lemma KeysCollideExactly(u: Text, v: Text)
    ensures (exists a: Cred, b: Cred :: a.url == u && b.url == v && (u != v || a.user != b.user) && Key(a) == Key(b))
       <==> Ambiguous(BAR, u, v)
  {
    hide Key;
    if Ambiguous(BAR, u, v) {
      var x, y := AmbiguousCollide(BAR, u, v);
      KeyIsJoined(Cred(u, x, []));
      KeyIsJoined(Cred(v, y, []));
      assert Key(Cred(u, x, [])) == Key(Cred(v, y, []));
    } else {
      forall a: Cred, b: Cred | a.url == u && b.url == v && Key(a) == Key(b)
        ensures u == v && a.user == b.user
      {
        KeyExact(a, b);
      }
    }
  }

  lemma KeyIsJoined(c: Cred)
    ensures Key(c) == Joined(c.url, BAR, c.user)
  {
  }

  ghost predicate HasLogin(cs: seq<Cred>, url: Text, user: Text) {
    exists i | 0 <= i < |cs| :: cs[i].url == url && cs[i].user == user
  }

  lemma {:induction false} KeyKept(cs: seq<Cred>, i: nat)
    requires i < |cs|
    ensures exists j | 0 <= j < |DedupByKey(cs)| :: Key(DedupByKey(cs)[j]) == Key(cs[i]) && DedupByKey(cs)[j] in cs
    decreases |cs|
  {
    hide Key;
    var n := |cs| - 1;
    var rest := DedupByKey(cs[..n]);
    if i < n {
      KeyKept(cs[..n], i);
      var j :| 0 <= j < |rest| && Key(rest[j]) == Key(cs[i]) && rest[j] in cs[..n];
      assert DedupByKey(cs)[j] == rest[j];
    } else if Key(cs[n]) in Keys(cs[..n]) {
      var m: nat :| m < n && Keys(cs[..n])[m] == Key(cs[n]);
      KeyKept(cs[..n], m);
      var j :| 0 <= j < |rest| && Key(rest[j]) == Key(cs[m]) && rest[j] in cs[..n];
      assert DedupByKey(cs)[j] == rest[j];
    } else {
      assert DedupByKey(cs)[|rest|] == cs[n];
    }
  }

  /** Nothing before this credential has its key. */
  ghost predicate FirstOfKey(cs: seq<Cred>, i: nat) {
    i < |cs| && forall k | 0 <= k < i :: Key(cs[k]) != Key(cs[i])
  }

  lemma LastOfKey(cs: seq<Cred>)
    requires cs != []
    ensures Key(cs[|cs| - 1]) in Keys(cs[..|cs| - 1]) <==> !FirstOfKey(cs, |cs| - 1)
  {
    hide Key;
    var n := |cs| - 1;
    if m: nat :| m < n && Key(cs[m]) == Key(cs[n]) {
      assert Keys(cs[..n])[m] == Key(cs[n]);
    }
  }

  lemma FirstOfKeyBefore(cs: seq<Cred>, n: nat)
    requires n <= |cs|
    ensures forall i: nat | i < n :: FirstOfKey(cs, i) <==> FirstOfKey(cs[..n], i)
  {
    hide Key;
  }

  /** Exactly the credentials stay that nothing with their key goes before. */
  lemma {:induction false} FirstStays(cs: seq<Cred>, c: Cred)
    ensures c in DedupByKey(cs) <==> exists i: nat :: FirstOfKey(cs, i) && cs[i] == c
    decreases |cs|
  {
    hide Key, FirstOfKey, Keys;
    if cs == [] {
      NoneFirst();
    } else {
      var n := |cs| - 1;
      FirstStays(cs[..n], c);
      FirstOfKeyBefore(cs, n);
      FirstOfKeyWithin(cs);
      FirstOfKeyWithin(cs[..n]);
      LastOfKey(cs);
      if c in DedupByKey(cs) {
        if c in DedupByKey(cs[..n]) {
          var i: nat :| FirstOfKey(cs[..n], i) && cs[..n][i] == c;
          assert FirstOfKey(cs, i) && cs[i] == c;
        } else {
          assert FirstOfKey(cs, n) && cs[n] == c;
        }
      }
      if i: nat :| FirstOfKey(cs, i) && cs[i] == c {
        assert i < n ==> FirstOfKey(cs[..n], i) && cs[..n][i] == c;
      }
    }
  }

  lemma FirstOfKeyWithin(cs: seq<Cred>)
    ensures forall i: nat | FirstOfKey(cs, i) :: i < |cs|
  {
  }

  lemma NoneFirst()
    ensures forall i: nat :: !FirstOfKey([], i)
  {
  }

  /** Where no two URLs are ambiguous, no URL loses a username. */
  lemma NoLoginLost(cs: seq<Cred>, i: nat)
    requires i < |cs| && forall c, d | c in cs && d in cs :: !Ambiguous(BAR, c.url, d.url)
    ensures HasLogin(DedupByKey(cs), cs[i].url, cs[i].user)
  {
    hide Key, DedupByKey;
    KeyKept(cs, i);
    var r := DedupByKey(cs);
    var j :| 0 <= j < |r| && Key(r[j]) == Key(cs[i]) && r[j] in cs;
    KeyExact(r[j], cs[i]);
  }

  /** At any ambiguous pair some list loses one: the second credential is dropped. */
  lemma LoginLost(u: Text, v: Text) returns (cs: seq<Cred>)
    requires Ambiguous(BAR, u, v)
    ensures |cs| == 2 && cs[0].url == u && cs[1].url == v && DedupByKey(cs) == [cs[0]]
            && !HasLogin(DedupByKey(cs), v, cs[1].user)
  {
    hide Key;
    var x, y := AmbiguousCollide(BAR, u, v);
    var a, b := Cred(u, x, []), Cred(v, y, []);
    KeyIsJoined(a);
    KeyIsJoined(b);
    cs := [a, b];
    SecondDropped(a, b);
  }

  lemma SecondDropped(a: Cred, b: Cred)
    requires Key(a) == Key(b)
    ensures DedupByKey([a, b]) == [a]
  {
    hide Key;
    assert [a][..0] == [] && DedupByKey([]) == [] && DedupByKey([a]) == [a];
    assert [a, b][..1] == [a];
    assert Keys([a])[0] == Key(b) && Key(b) in Keys([a]);
  }

  /** Two different credentials that share a key, of which the second is dropped. */
  lemma KeyCollision() returns (a: Cred, b: Cred)
    ensures a == Cred([116, BAR], [117], []) && b == Cred([116], [BAR, 117], [])
    ensures a.url != b.url && a.user != b.user && Key(a) == Key(b) && DedupByKey([a, b]) == [a]
  {
    a, b := Cred([116, BAR], [117], []), Cred([116], [BAR, 117], []);
    assert Key(a) == [116, BAR, BAR, 117] == Key(b);
    assert |a.url| != |b.url| && |a.user| != |b.user|;
    SecondDropped(a, b);
  }
}
