/**
 Extraction over the bodies of all inline scripts of a page: the first body that yields a seed
 decides, and nothing is found exactly when none does.
 */
module PowBodies {
  import opened Wrappers
  import opened JsToken
  import opened JsNumber
  import opened PowExtract
  import opened PowText
  import opened PowWrapped

  /** What one body yields. */
  ghost function SeedOf(body: string, floats: FloatReader): Option<Seed> { ExtractTokens(Lex(body, 0, []), floats) }

  lemma {:induction false} FirstBodyDecides(bodies: seq<string>, i: nat, floats: FloatReader)
    requires i < |bodies| && SeedOf(bodies[i], floats).Some?
    requires forall j | 0 <= j < i :: SeedOf(bodies[j], floats) == None
    ensures Extract(bodies, floats) == SeedOf(bodies[i], floats)
    decreases i
  {
    hide ExtractTokens, Lex;
    if i > 0 {
      assert SeedOf(bodies[0], floats) == None;
      forall j | 0 <= j < i - 1
        ensures SeedOf(bodies[1..][j], floats) == None
      {
        assert bodies[1..][j] == bodies[j + 1];
      }
      FirstBodyDecides(bodies[1..], i - 1, floats);
    }
  }

  lemma {:induction false} NothingExactly(bodies: seq<string>, floats: FloatReader)
    ensures Extract(bodies, floats) == None <==> forall i | 0 <= i < |bodies| :: SeedOf(bodies[i], floats) == None
    decreases |bodies|
  {
    hide ExtractTokens, Lex;
    if bodies != [] {
      NothingExactly(bodies[1..], floats);
      assert forall i | 1 <= i < |bodies| :: bodies[i] == bodies[1..][i - 1];
      if SeedOf(bodies[0], floats) == None && Extract(bodies[1..], floats) == None {
        forall i | 0 <= i < |bodies|
          ensures SeedOf(bodies[i], floats) == None
        {
          assert i > 0 ==> SeedOf(bodies[1..][i - 1], floats) == None;
        }
      }
      if forall i | 0 <= i < |bodies| :: SeedOf(bodies[i], floats) == None {
        forall i | 0 <= i < |bodies[1..]|
          ensures SeedOf(bodies[1..][i], floats) == None
        {
          assert SeedOf(bodies[i + 1], floats) == None;
        }
      }
    }
  }

  /** A page yields what its first fruitful body yields by itself. */
  lemma PageOfBodies(bodies: seq<string>, i: nat, floats: FloatReader)
    requires i < |bodies| && Extract([bodies[i]], floats).Some?
    requires forall j | 0 <= j < i :: Extract([bodies[j]], floats) == None
    ensures Extract(bodies, floats) == Extract([bodies[i]], floats)
  {
    hide Extract, SeedOf;
    forall j | 0 <= j <= i
      ensures Extract([bodies[j]], floats) == SeedOf(bodies[j], floats)
    {
      AloneIsItself(bodies[j], floats);
    }
    FirstBodyDecides(bodies, i, floats);
  }

  lemma AloneIsItself(body: string, floats: FloatReader)
    ensures Extract([body], floats) == SeedOf(body, floats)
  {
    hide Extract;
    ExtractOne(body, floats);
  }

  /** An empty script, then one with the call: the seed of the second is found. */
  lemma SecondBody(floats: FloatReader)
    ensures var r := Extract(["", PlainScript(GOOD_SEED)], floats);
            r.Some? && r.value.powInput == GOOD_SEED && r.value.difficulty == 3
  {
    hide Extract, PlainScript, IsSeed;
    GoodSeedIsSeed();
    PlainScriptExtracted(GOOD_SEED, floats);
    EmptyBody(floats);
    PageOfBodies(["", PlainScript(GOOD_SEED)], 1, floats);
  }

  lemma EmptyBody(floats: FloatReader)
    ensures Extract([""], floats) == None
  {
    AloneIsItself("", floats);
    assert Lex("", 0, []) == [];
    assert FirstFrom([], 0, true, floats) == None && FirstFrom([], 0, false, floats) == None;
  }
}
