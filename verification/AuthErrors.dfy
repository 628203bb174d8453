/**
 The auth-error burst counter of a credentials cache (internal/core/credentials.go),
 as one thread drives it.
 */
module AuthErrors {
  import opened Wrappers

  const MAX_CACHE_ERRORS := 3
  const ERROR_WINDOW := 10

  class StreamCredentialsCache<Creds> {
    var creds: Option<Creds>
    var errorCount: int
    var lastErrorTime: int

    constructor ()
      ensures creds == None && errorCount == 0 && lastErrorTime == 0
    {
      creds, errorCount, lastErrorTime := None, 0, 0;
    }

    /** The fields record the error times in history (oldest first). */
    ghost predicate Records(history: seq<int>)
      reads this
    {
      && errorCount == (if history == [] then 0 else ChainPosition(history) % MAX_CACHE_ERRORS)
      && lastErrorTime == (if errorCount == 0 then 0 else history[|history| - 1])
    }

    method Invalidate()
      modifies this
      ensures creds == None && errorCount == 0 && lastErrorTime == 0
    {
      creds := None;
      errorCount := 0;
      lastErrorTime := 0;
    }

    /**
     An error at time now.  True, with the credentials dropped, exactly when it is the
     third, sixth, ... of a chain of errors each at most 10 s after the one before.
     */
    method HandleAuthError(now: int, ghost history: seq<int>) returns (invalidated: bool)
      requires Records(history)
      modifies this
      ensures Records(history + [now])
      ensures 0 <= errorCount <= 2
      ensures invalidated <==> ChainPosition(history + [now]) % 3 == 0
      ensures creds == if invalidated then None else old(creds)
    {
      hide ChainPosition;
      ChainExtends(history, now);
      if now - lastErrorTime > ERROR_WINDOW {
        errorCount := 0;
      }
      errorCount := errorCount + 1;
      lastErrorTime := now;
      if errorCount >= MAX_CACHE_ERRORS {
        Invalidate();
        return true;
      }
      return false;
    }
  }

  /** How many errors the chain that ends with the last one has: gaps of at most 10 s. */
  ghost function ChainPosition(history: seq<int>): (n: nat)
    requires history != []
    ensures 1 <= n <= |history|
  {
    var k := |history| - 1;
    if k > 0 && history[k] - history[k - 1] <= ERROR_WINDOW then ChainPosition(history[..k]) + 1 else 1
  }

  lemma ChainExtends(history: seq<int>, now: int)
    ensures ChainPosition(history + [now]) ==
            if history != [] && now - history[|history| - 1] <= 10 then ChainPosition(history) + 1 else 1
  {
    assert (history + [now])[..|history|] == history;
  }
}
