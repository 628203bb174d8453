/**
 The credential walk of internal/core/wb.go from end to end: a join response that is encoded
 on all three levels, and the credentials read from it.
 */
module TurnMessages {
  import opened Bytes
  import opened Protobuf
  import opened TurnCreds

  /** A block: URLs in fields 1, usernames in fields 2, passwords in fields 3; of the last two the first counts. */
  datatype Server = Server(urls: seq<Text>, users: seq<Text>, passwords: seq<Text>)

  /** An inner message: its blocks in fields 5 and 9. */
  datatype Join = Join(number: nat, fives: seq<Server>, nines: seq<Server>)

  function TextFields(f: nat, texts: seq<Text>): (fs: seq<Field>)
    ensures |fs| == |texts| && forall i | 0 <= i < |fs| :: fs[i] == Field.Bytes(f, texts[i])
  {
    if texts == [] then [] else [Field.Bytes(f, texts[0])] + TextFields(f, texts[1..])
  }

  function BlockFields(s: Server): seq<Field> {
    TextFields(1, s.urls) + TextFields(2, s.users) + TextFields(3, s.passwords)
  }

  function Blocks(servers: seq<Server>): (r: seq<Text>)
    ensures |r| == |servers| && forall i | 0 <= i < |r| :: r[i] == Encode(BlockFields(servers[i]))
  {
    if servers == [] then [] else [Encode(BlockFields(servers[0]))] + Blocks(servers[1..])
  }

  function JoinFields(j: Join): seq<Field> { TextFields(5, Blocks(j.fives)) + TextFields(9, Blocks(j.nines)) }

  function OuterFields(joins: seq<Join>): seq<Field> {
    if joins == [] then [] else [Field.Bytes(joins[0].number, Encode(JoinFields(joins[0])))] + OuterFields(joins[1..])
  }

  // ---- What the credentials should be ----

  function First(texts: seq<Text>): Text { if texts == [] then [] else texts[0] }

  function LoginOf(s: Server): seq<Cred> { WithLogin(s.urls, First(s.users), First(s.passwords)) }

  function Logins(servers: seq<Server>): seq<Cred> {
    if servers == [] then [] else Logins(servers[..|servers| - 1]) + LoginOf(servers[|servers| - 1])
  }

  ghost predicate HasTurn(s: Server) {
    exists i | 0 <= i < |s.urls| :: StartsWith(s.urls[i], "turn") || StartsWith(s.urls[i], "stun")
  }

  ghost function FirstTurn(servers: seq<Server>): (i: nat)
    ensures i <= |servers|
  {
    if servers == [] || HasTurn(servers[0]) then 0 else 1 + FirstTurn(servers[1..])
  }

  /** The first server with a TURN or STUN URL, then the others in order. */
  ghost function TurnFirst(servers: seq<Server>): Found {
    var i := FirstTurn(servers);
    if i == |servers| then Nothing else Found(LoginOf(servers[i]) + Logins(servers[..i] + servers[i + 1..]))
  }

  ghost function OfJoin(j: Join): Found {
    var five := TurnFirst(j.fives); if five.Found? then five else TurnFirst(j.nines)
  }

  ghost function OfJoins(joins: seq<Join>): seq<Cred> {
    if joins == [] then []
    else
      var r := OfJoin(joins[0]);
      if r.Found? then r.creds else OfJoins(joins[1..])
  }

  /** Sizes and field numbers that the encoding can hold. */
  ghost predicate Encodable(joins: seq<Join>) {
    && ValidMessage(OuterFields(joins))
    && forall j | j in joins ::
         ValidMessage(JoinFields(j)) && forall s | s in j.fives + j.nines :: ValidMessage(BlockFields(s))
  }

  // ---- Fields of a built message ----

  lemma ContentsCons(x: Field, rest: seq<Field>)
    ensures Contents([x] + rest) == (if x.Bytes? then [(x.number, x.payload)] else []) + Contents(rest)
  {
    assert ([x] + rest)[1..] == rest;
  }

  lemma NumberedCons(x: (nat, Text), rest: seq<(nat, Text)>, f: nat)
    ensures Numbered([x] + rest, f) == (if x.0 == f then [x.1] else []) + Numbered(rest, f)
  {
    assert ([x] + rest)[1..] == rest;
  }

  lemma Regroup<T>(a: seq<T>, b: seq<T>, c: seq<T>)
    ensures a + (b + c) == a + b + c
  {
  }

  lemma HeadAndRest<T>(a: seq<T>, b: seq<T>)
    requires a != []
    ensures a == [a[0]] + a[1..] && a + b == [a[0]] + (a[1..] + b)
  {
  }

  lemma {:induction false} ContentsConcat(a: seq<Field>, b: seq<Field>)
    ensures Contents(a + b) == Contents(a) + Contents(b)
    decreases |a|
  {
    if a == [] {
      assert a + b == b;
    } else {
      hide Contents;
      HeadAndRest(a, b);
      ContentsCons(a[0], a[1..]);
      ContentsCons(a[0], a[1..] + b);
      ContentsConcat(a[1..], b);
      Regroup(if a[0].Bytes? then [(a[0].number, a[0].payload)] else [], Contents(a[1..]), Contents(b));
    }
  }

  lemma {:induction false} NumberedConcat(a: seq<(nat, Text)>, b: seq<(nat, Text)>, f: nat)
    ensures Numbered(a + b, f) == Numbered(a, f) + Numbered(b, f)
    decreases |a|
  {
    if a == [] {
      assert a + b == b;
    } else {
      hide Numbered;
      HeadAndRest(a, b);
      NumberedCons(a[0], a[1..], f);
      NumberedCons(a[0], a[1..] + b, f);
      NumberedConcat(a[1..], b, f);
      Regroup(if a[0].0 == f then [a[0].1] else [], Numbered(a[1..], f), Numbered(b, f));
    }
  }

  lemma {:induction false} TextsNumbered(f: nat, texts: seq<Text>, g: nat)
    ensures Numbered(Contents(TextFields(f, texts)), g) == if f == g then texts else []
    decreases |texts|
  {
    if texts != [] {
      TextsNumbered(f, texts[1..], g);
      assert TextFields(f, texts)[1..] == TextFields(f, texts[1..]);
      HeadNumbered(Field.Bytes(f, texts[0]), TextFields(f, texts[1..]), g);
    }
  }

  lemma HeadNumbered(x: Field, rest: seq<Field>, g: nat)
    requires x.Bytes?
    ensures Numbered(Contents([x] + rest), g) ==
            (if x.number == g then [x.payload] else []) + Numbered(Contents(rest), g)
  {
    assert ([x] + rest)[1..] == rest;
    var c := Contents([x] + rest);
    assert c == [(x.number, x.payload)] + Contents(rest);
    assert c[1..] == Contents(rest);
  }

  lemma NumberedParts(a: seq<Field>, b: seq<Field>, f: nat)
    ensures Numbered(Contents(a + b), f) == Numbered(Contents(a), f) + Numbered(Contents(b), f)
  {
    ContentsConcat(a, b);
    NumberedConcat(Contents(a), Contents(b), f);
  }

  /** A block is read back as its server. */
  lemma BlockRead(s: Server)
    requires ValidMessage(BlockFields(s))
    ensures BlockCreds(Encode(BlockFields(s))) == LoginOf(s) && (Hit(Encode(BlockFields(s))) <==> HasTurn(s))
  {
    hide Encode, Contents, Numbered, Fields, TextFields, ValidMessage;
    var msg := BlockFields(s);
    var front := TextFields(1, s.urls) + TextFields(2, s.users);
    forall f | f in {1, 2, 3}
      ensures Fields(Encode(msg), f) == if f == 1 then s.urls else if f == 2 then s.users else s.passwords
    {
      BlocksOfEncoded(msg, f);
      NumberedParts(front, TextFields(3, s.passwords), f);
      NumberedParts(TextFields(1, s.urls), TextFields(2, s.users), f);
      TextsNumbered(1, s.urls, f);
      TextsNumbered(2, s.users, f);
      TextsNumbered(3, s.passwords, f);
    }
    assert Fields(Encode(msg), 1) == s.urls;
    assert Fields(Encode(msg), 2) == s.users && Fields(Encode(msg), 3) == s.passwords;
    TurnServer(s);
  }

  lemma TurnServer(s: Server)
    ensures HasTurn(s) <==> exists u | u in s.urls :: IsTurnUrl(u)
  {
    hide IsTurnUrl, StartsWith;
    forall i | 0 <= i < |s.urls|
      ensures IsTurnUrl(s.urls[i]) <==> StartsWith(s.urls[i], "turn") || StartsWith(s.urls[i], "stun")
    {
      TurnUrlExactly(s.urls[i]);
    }
  }

  lemma {:induction false} FirstTurnHit(servers: seq<Server>)
    requires forall s | s in servers :: ValidMessage(BlockFields(s))
    ensures FirstHit(Blocks(servers)) == FirstTurn(servers)
    decreases |servers|
  {
    hide ValidMessage, BlockFields, Hit, HasTurn, Encode;
    if servers != [] {
      BlockRead(servers[0]);
      FirstTurnHit(servers[1..]);
      assert Blocks(servers)[1..] == Blocks(servers[1..]);
    }
  }

  lemma {:induction false} AllLogins(servers: seq<Server>)
    requires forall s | s in servers :: ValidMessage(BlockFields(s))
    ensures AllCreds(Blocks(servers)) == Logins(servers)
    decreases |servers|
  {
    hide ValidMessage, BlockFields, BlockCreds, LoginOf, Encode;
    if servers != [] {
      var n := |servers| - 1;
      BlockRead(servers[n]);
      AllLogins(servers[..n]);
      assert Blocks(servers)[..n] == Blocks(servers[..n]);
    }
  }

  lemma BlocksRead(servers: seq<Server>)
    requires forall s | s in servers :: ValidMessage(BlockFields(s))
    ensures FromBlocks(Blocks(servers)) == TurnFirst(servers)
  {
    hide ValidMessage, BlockFields, BlockCreds, LoginOf, AllCreds, Logins, FirstHit, FirstTurn, Encode, Blocks;
    FirstTurnHit(servers);
    var i := FirstTurn(servers);
    if i < |servers| {
      BlockRead(servers[i]);
      AllLogins(servers[..i] + servers[i + 1..]);
      BlocksWithout(servers, i);
    }
  }

  lemma BlocksWithout(servers: seq<Server>, i: nat)
    requires i < |servers|
    ensures Blocks(servers)[..i] + Blocks(servers)[i + 1..] == Blocks(servers[..i] + servers[i + 1..])
  {
    hide Blocks, Encode, BlockFields;
    var all, rest := Blocks(servers), servers[..i] + servers[i + 1..];
    forall k | 0 <= k < |rest|
      ensures (all[..i] + all[i + 1..])[k] == Blocks(rest)[k]
    {
      assert k < i ==> rest[k] == servers[k] && (all[..i] + all[i + 1..])[k] == all[k];
      assert k >= i ==> rest[k] == servers[k + 1] && (all[..i] + all[i + 1..])[k] == all[k + 1];
    }
  }

  lemma JoinRead(j: Join)
    requires ValidMessage(JoinFields(j)) && forall s | s in j.fives + j.nines :: ValidMessage(BlockFields(s))
    ensures FromInner(Encode(JoinFields(j))) == OfJoin(j)
  {
    hide ValidMessage, BlockFields, FromBlocks, TurnFirst, Encode, Fields, TextFields, Numbered, Contents, Blocks;
    forall f | f in {5, 9}
      ensures Fields(Encode(JoinFields(j)), f) == if f == 5 then Blocks(j.fives) else Blocks(j.nines)
    {
      BlocksOfEncoded(JoinFields(j), f);
      NumberedParts(TextFields(5, Blocks(j.fives)), TextFields(9, Blocks(j.nines)), f);
      TextsNumbered(5, Blocks(j.fives), f);
      TextsNumbered(9, Blocks(j.nines), f);
    }
    forall s | s in j.fives || s in j.nines
      ensures ValidMessage(BlockFields(s))
    {
      assert s in j.fives + j.nines;
    }
    BlocksRead(j.fives);
    BlocksRead(j.nines);
    assert Fields(Encode(JoinFields(j)), 5) == Blocks(j.fives) && Fields(Encode(JoinFields(j)), 9) == Blocks(j.nines);
  }

  lemma {:induction false} JoinsRead(joins: seq<Join>)
    requires forall j | j in joins ::
               ValidMessage(JoinFields(j)) && forall s | s in j.fives + j.nines :: ValidMessage(BlockFields(s))
    ensures FirstFound(Contents(OuterFields(joins))) == OfJoins(joins)
    decreases |joins|
  {
    hide ValidMessage, JoinFields, BlockFields, FromInner, OfJoin, Encode, FirstFound;
    if joins == [] {
      NothingFound();
    } else {
      var x, rest := Field.Bytes(joins[0].number, Encode(JoinFields(joins[0]))), OuterFields(joins[1..]);
      JoinRead(joins[0]);
      JoinsRead(joins[1..]);
      assert ([x] + rest)[1..] == rest;
      FirstFoundHead((x.number, x.payload), Contents(rest));
    }
  }

  lemma NothingFound()
    ensures FirstFound([]) == []
  {
  }

  /** From bytes to credentials: the walk over an encoded response returns what its servers say. */
  lemma ResponseRead(joins: seq<Join>)
    requires Encodable(joins)
    ensures Ice(Encode(OuterFields(joins)), 0) == OfJoins(joins)
  {
    hide ValidMessage, JoinFields, BlockFields, OuterFields, Encode, FirstFound, Ice, OfJoins;
    IceOfEncoded(OuterFields(joins));
    JoinsRead(joins);
  }
}
