/** The completion-key pool: configured keys with the absent ones removed,
    a cursor that moves to the next key when a call is rate limited, and the
    retry loop around one completion request. */
module KeyRotation {
  import opened JsValues

  datatype KeyPool = KeyPool(keys: seq<string>, cursor: nat) {

    /** The cursor designates a key, or is 0 for an empty pool. */
    predicate Valid() {
      cursor < |keys| || (keys == [] && cursor == 0)
    }

    /** The key the next client is built with. */
    function Current(): string
      requires Valid() && keys != []
    {
      keys[cursor]
    }

    /** `currentIndex = (currentIndex + 1) % apiKeys.length`. */
    function Advance(): (p: KeyPool)
      requires Valid() && keys != []
      ensures p.Valid() && p.keys == keys
      ensures p.cursor == (cursor + 1) % |keys|
    {
      KeyPool(keys, (cursor + 1) % |keys|)
    }
  }

  /** The configured keys that are truthy, in configuration order. */
  function PresentKeys(slots: seq<Option<string>>): (keys: seq<string>)
    ensures |keys| <= |slots|
    ensures forall k :: k in keys <==> Some(k) in slots && k != ""
    ensures |keys| == |slots| <==> forall i :: 0 <= i < |slots| ==> Truthy(slots[i])
  {
    if slots == [] then []
    else
      var rest := PresentKeys(slots[1..]);
      assert forall x :: x in slots <==> x == slots[0] || x in slots[1..];
      if Truthy(slots[0]) then [slots[0].value] + rest
      else
        assert |rest| <= |slots[1..]| < |slots|;
        rest
  }

  /** Removing absent keys keeps the configuration order: the pool built from
      two blocks of slots is the first block's keys followed by the second's. */
  lemma {:induction false} PresentKeysConcat(a: seq<Option<string>>, b: seq<Option<string>>)
    ensures PresentKeys(a + b) == PresentKeys(a) + PresentKeys(b)
  {
    if a == [] {
      assert a + b == b;
    } else {
      assert (a + b)[0] == a[0] && (a + b)[1..] == a[1..] + b;
      PresentKeysConcat(a[1..], b);
    }
  }

  /** The constructor: the truthy keys, cursor at the first one. */
  function NewPool(slots: seq<Option<string>>): (p: KeyPool)
    ensures p.Valid() && p.cursor == 0
    ensures forall k :: k in p.keys ==> k != ""
    ensures p.keys == [] <==> forall i :: 0 <= i < |slots| ==> !Truthy(slots[i])
  {
    var keys := PresentKeys(slots);
    if keys == [] then
      KeyPool(keys, 0)
    else
      assert keys[0] in keys;
      KeyPool(keys, 0)
  }

  /** The pool after `n` rate-limited calls. */
  function AdvanceTimes(p: KeyPool, n: nat): (q: KeyPool)
    requires p.Valid() && p.keys != []
    ensures q.Valid() && q.keys == p.keys
  {
    if n == 0 then p else AdvanceTimes(p, n - 1).Advance()
  }

  /** After `n` rate-limited calls starting at key `i` the cursor is at
      `(i + n) mod |keys|`. */
  lemma {:induction false} AdvanceTimesCursor(p: KeyPool, n: nat)
    requires p.Valid() && p.keys != []
    ensures AdvanceTimes(p, n).cursor == (p.cursor + n) % |p.keys|
  {
    if n > 0 {
      var before := AdvanceTimes(p, n - 1);
      var c := p.cursor + (n - 1);
      AdvanceTimesCursor(p, n - 1);
      assert before.cursor == c % |p.keys|;
      ModSuccessor(c, |p.keys|);
      assert AdvanceTimes(p, n).cursor == (before.cursor + 1) % |p.keys|;
    }
  }

  /** One full round of rate-limited calls brings the cursor back. */
  lemma FullRoundReturns(p: KeyPool)
    requires p.Valid() && p.keys != []
    ensures AdvanceTimes(p, |p.keys|) == p
  {
    var q := AdvanceTimes(p, |p.keys|);
    AdvanceTimesCursor(p, |p.keys|);
    ModAddModulus(p.cursor, |p.keys|);
    assert q.cursor == p.cursor && q.keys == p.keys;
  }

  lemma ModSuccessor(a: nat, n: nat)
    requires n > 0
    ensures (a % n + 1) % n == (a + 1) % n
  {
    var q, r := a / n, a % n;
    assert a == q * n + r;
    if r + 1 < n {
      ModUnique(a + 1, n, q, r + 1);
      ModUnique(r + 1, n, 0, r + 1);
    } else {
      assert a + 1 == (q + 1) * n;
      ModUnique(a + 1, n, q + 1, 0);
      ModUnique(r + 1, n, 1, 0);
    }
  }

  /** The remainder is the unique `r < n` with `x == q * n + r`. */
  lemma ModUnique(x: nat, n: nat, q: nat, r: nat)
    requires n > 0 && r < n && x == q * n + r
    ensures x % n == r
  {
    var q', r' := x / n, x % n;
    assert x == q' * n + r';
    if q' < q {
      MulMonotone(q' + 1, q, n);
      assert false;
    } else if q < q' {
      MulMonotone(q + 1, q', n);
      assert false;
    }
  }

  lemma {:induction false} MulMonotone(a: nat, b: nat, n: nat)
    requires a <= b
    ensures a * n <= b * n
  {
    if n > 0 {
      MulMonotone(a, b, n - 1);
      assert a * n == a * (n - 1) + a && b * n == b * (n - 1) + b;
    }
  }

  /** Adding the modulus does not change the remainder. */
  lemma ModAddModulus(a: nat, n: nat)
    requires n > 0 && a < n
    ensures (a + n) % n == a
  {
    ModUnique(a + n, n, 1, a);
  }

  /** What one completion call does with the key it was given. */
  datatype CallOutcome =
    | Completed(content: Option<string>)
    | RateLimited(message: string)
    | Failed(message: string)

  /** Why `createCompletion` throws. */
  datatype CompletionError =
    | Rethrown(message: string)
    | Exhausted(message: string)

  /** The message of the error thrown after the last attempt; without any
      attempt `lastError?.message` interpolates as "undefined". */
  function ExhaustedMessage(last: Option<string>): (m: string)
    ensures "All API keys exhausted. Last error: " <= m
    ensures last.Some? ==> m[|"All API keys exhausted. Last error: "|..] == last.value
    ensures last.None? ==> m[|"All API keys exhausted. Last error: "|..] == "undefined"
  {
    "All API keys exhausted. Last error: " + (match last case Some(msg) => msg case None => "undefined")
  }

  /** The keys of the first `n` attempts: each attempt uses the current key
      and a rate-limited one moves the cursor on. */
  function Rotation(pool: KeyPool, n: nat): (used: seq<string>)
    requires pool.Valid() && pool.keys != []
    ensures |used| == n
  {
    if n == 0 then [] else Rotation(pool, n - 1) + [AdvanceTimes(pool, n - 1).Current()]
  }

  /** The keys of successive attempts are the keys from the cursor onwards,
      wrapping round the end. */
  lemma {:induction false} RotationOrder(pool: KeyPool, n: nat)
    requires pool.Valid() && pool.keys != []
    ensures forall j :: 0 <= j < n ==> Rotation(pool, n)[j] == pool.keys[(pool.cursor + j) % |pool.keys|]
  {
    if n > 0 {
      RotationOrder(pool, n - 1);
      AdvanceTimesCursor(pool, n - 1);
    }
  }

  /** `createCompletion`: at most one attempt per key, starting with the
      current one. A rate-limited attempt moves the cursor on and retries; a
      success returns; any other error is rethrown at once with the cursor
      left where it was. `call(j)` is what attempt `j` returns. */
  method CreateCompletion(pool: KeyPool, call: nat -> CallOutcome)
    returns (next: KeyPool, used: seq<string>, result: Result<Option<string>, CompletionError>)
    requires pool.Valid()
    ensures next.keys == pool.keys && next.Valid()
    ensures |used| <= |pool.keys|
    ensures forall j :: 0 <= j < |used| ==> used[j] == pool.keys[(pool.cursor + j) % |pool.keys|]
    ensures forall j :: 0 <= j < |used| - 1 ==> call(j).RateLimited?
    ensures result.Success? ==>
      |used| > 0 && call(|used| - 1) == Completed(result.value)
      && next.cursor == (pool.cursor + |used| - 1) % |pool.keys|
    ensures result.Failure? && result.error.Rethrown? ==>
      |used| > 0 && call(|used| - 1) == Failed(result.error.message)
      && next.cursor == (pool.cursor + |used| - 1) % |pool.keys|
    ensures result.Failure? && result.error.Exhausted? ==>
      |used| == |pool.keys| && next.cursor == pool.cursor
      && (forall j :: 0 <= j < |pool.keys| ==> call(j).RateLimited?)
      && result.error.message == ExhaustedMessage(
           if pool.keys == [] then None else Some(call(|pool.keys| - 1).message))
  {
    next := pool;
    if pool.keys == [] {
      // No key to try: the loop does not run and `lastError` is undefined.
      used := [];
      result := Failure(Exhausted(ExhaustedMessage(None)));
      return;
    }
    var lastError: Option<string> := None;
    var attempt := 0;
    while attempt < |pool.keys|
      invariant 0 <= attempt <= |pool.keys|
      invariant next == AdvanceTimes(pool, attempt)
      invariant forall j :: 0 <= j < attempt ==> call(j).RateLimited?
      invariant attempt == 0 ==> lastError == None
      invariant attempt > 0 ==> lastError == Some(call(attempt - 1).message)
    {
      var outcome := call(attempt);
      if !outcome.RateLimited? {
        used := Rotation(pool, attempt + 1);
        result := if outcome.Completed? then Success(outcome.content) else Failure(Rethrown(outcome.message));
        RotationOrder(pool, attempt + 1);
        AdvanceTimesCursor(pool, attempt);
        return;
      }
      lastError := Some(outcome.message);
      next := next.Advance();
      attempt := attempt + 1;
    }
    used := Rotation(pool, attempt);
    RotationOrder(pool, attempt);
    FullRoundReturns(pool);
    result := Failure(Exhausted(ExhaustedMessage(lastError)));
  }
}
