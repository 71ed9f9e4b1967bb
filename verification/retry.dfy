/** The retry policy wrapped around every remote call of the client:
    which errors are retried, how long to wait between attempts, and
    what a call that goes through the policy finally yields. */
module Retry {

  datatype Option<+T> = None | Some(value: T)

  /** The kind of a raised Python exception, as far as the classifier looks at it. */
  datatype ExceptionKind = ClientError | OtherError(name: string)

  /** A raised exception. `message` is None when the exception has no
      `message` attribute at all. */
  datatype Exception = Exception(kind: ExceptionKind, message: Option<string>)

  /** What one remote call yields: a value, or an exception it raised. */
  datatype Outcome<+T> = Returned(value: T) | Raised(error: Exception)

  /** The error code whose presence in a message marks throttling. */
  const THROTTLING_CODE := "ProvisionedThroughputExceededException"

  /** `pat` occurs in `s` at position `i`. */
  predicate OccursAt(s: string, pat: string, i: nat)
  {
    i <= |s| && pat <= s[i..]
  }

  /** Python's `pat in s` on strings: a substring search. */
  function Contains(s: string, pat: string): (r: bool)
    ensures r <==> exists i: nat :: OccursAt(s, pat, i)
    decreases |s|
  {
    if pat <= s then
      assert OccursAt(s, pat, 0);
      true
    else if |s| == 0 then
      assert forall i: nat :: OccursAt(s, pat, i) ==> i == 0;
      false
    else
      var rest := Contains(s[1..], pat);
      assert forall i: nat :: OccursAt(s[1..], pat, i) <==> OccursAt(s, pat, i + 1) by {
        forall i: nat ensures OccursAt(s[1..], pat, i) <==> OccursAt(s, pat, i + 1) {
          if i <= |s[1..]| { assert s[1..][i..] == s[i + 1..]; }
        }
      }
      assert forall i: nat :: OccursAt(s, pat, i) ==> i > 0;
      if rest then
        var i: nat :| OccursAt(s[1..], pat, i);
        assert OccursAt(s, pat, i + 1);
        true
      else
        assert forall i: nat :: OccursAt(s, pat, i) ==> OccursAt(s[1..], pat, i - 1);
        false
  }

  /** The classifier handed to the retry decorator: retry exactly the
      client errors whose message names the throttling code. */
  function RetryIfThrottled(e: Exception): (r: bool)
    ensures r <==> e.kind == ClientError && e.message.Some?
                   && exists i: nat :: OccursAt(e.message.value, THROTTLING_CODE, i)
  {
    if e.message.Some? then
      if e.kind.ClientError? && Contains(e.message.value, THROTTLING_CODE) then true else false
    else
      false
  }

  lemma {:induction false} OnlyClientErrorsRetried(e: Exception)
    requires e.kind != ClientError || e.message.None?
    ensures !RetryIfThrottled(e)
  {
  }

  lemma {:induction false} ThrottlingMessageRetried(prefix: string, suffix: string)
    ensures RetryIfThrottled(Exception(ClientError, Some(prefix + THROTTLING_CODE + suffix)))
  {
    var m := prefix + THROTTLING_CODE + suffix;
    assert m[|prefix|..] == THROTTLING_CODE + suffix;
    assert OccursAt(m, THROTTLING_CODE, |prefix|);
  }

  /** Base and cap of the exponential wait, in milliseconds. */
  const WAIT_MULTIPLIER := 100
  const WAIT_MAX := 500

  function Pow2(n: nat): (r: nat)
    ensures r >= 1
  {
    if n == 0 then 1 else 2 * Pow2(n - 1)
  }

  lemma {:induction false} Pow2Monotone(m: nat, n: nat)
    requires m <= n
    ensures Pow2(m) <= Pow2(n)
  {
    if m < n { Pow2Monotone(m, n - 1); }
  }

  /** Milliseconds slept after failed attempt number `attempt`
      (attempts are numbered from 1): 100 * 2^attempt, capped at 500. */
  function Delay(attempt: nat): (ms: nat)
    ensures WAIT_MULTIPLIER <= ms <= WAIT_MAX
  {
    var wait := WAIT_MULTIPLIER * Pow2(attempt);
    if wait > WAIT_MAX then WAIT_MAX else wait
  }

  lemma {:induction false} DelayMonotone(m: nat, n: nat)
    requires m <= n
    ensures Delay(m) <= Delay(n)
  {
    Pow2Monotone(m, n);
  }

  /** From the third failed attempt on the wait stays at the cap. */
  lemma {:induction false} DelayCapped(attempt: nat)
    requires attempt >= 3
    ensures Delay(attempt) == WAIT_MAX
  {
    Pow2Monotone(3, attempt);
    assert Pow2(3) == 8;
  }

  lemma DelaySchedule()
    ensures Delay(1) == 200 && Delay(2) == 400 && Delay(3) == 500
  {
    assert Pow2(3) == 8;
  }

  /** The outcome retried by the policy: a throttling exception. */
  predicate Throttled<T>(o: Outcome<T>)
  {
    o.Raised? && RetryIfThrottled(o.error)
  }

  /** Index of the first attempt the policy does not retry, or |attempts|
      when every scripted attempt was throttled. */
  function Settled<T>(attempts: seq<Outcome<T>>): (k: nat)
    ensures k <= |attempts|
    ensures forall i :: 0 <= i < k ==> Throttled(attempts[i])
    ensures k < |attempts| ==> !Throttled(attempts[k])
  {
    if attempts == [] || !Throttled(attempts[0]) then 0
    else 1 + Settled(attempts[1..])
  }

  /** The waits of attempts 1..n, in order. */
  function Waits(n: nat): (w: seq<nat>)
    ensures |w| == n
    ensures forall i :: 0 <= i < n ==> w[i] == Delay(i + 1)
  {
    if n == 0 then [] else Waits(n - 1) + [Delay(n)]
  }

  function Sum(s: seq<nat>): nat
  {
    if s == [] then 0 else Sum(s[..|s| - 1]) + s[|s| - 1]
  }

  /** Retrying throttled attempts never costs more than the cap per attempt. */
  lemma {:induction false} WaitsTotalBound(n: nat)
    ensures Sum(Waits(n)) <= WAIT_MAX * n
  {
    if n > 0 {
      WaitsTotalBound(n - 1);
      assert Waits(n)[..n - 1] == Waits(n - 1);
    }
  }

  /** One remote call under the policy, the remote side given as the
      script of what each successive attempt yields. Throttled attempts
      are retried after the exponential wait; the first other outcome,
      a value or an exception, is passed on unchanged. `r` is None when
      the script ends while the store still throttles (the policy itself
      has no attempt limit). */
  method CallWithRetry<T>(attempts: seq<Outcome<T>>) returns (r: Option<Outcome<T>>, waits: seq<nat>)
    ensures |waits| == Settled(attempts)
    ensures forall i :: 0 <= i < |waits| ==> waits[i] == Delay(i + 1)
    ensures forall i :: 0 <= i < |waits| ==> Throttled(attempts[i])
    ensures |waits| < |attempts| ==> r == Some(attempts[|waits|])
    ensures |waits| == |attempts| ==> r == None
  {
    var attempt := 0;
    waits := [];
    while attempt < |attempts|
      invariant attempt <= |attempts|
      invariant |waits| == attempt
      invariant forall i :: 0 <= i < attempt ==> Throttled(attempts[i])
      invariant forall i :: 0 <= i < attempt ==> waits[i] == Delay(i + 1)
    {
      var outcome := attempts[attempt];
      if !(outcome.Raised? && RetryIfThrottled(outcome.error)) {
        SettledIsFirst(attempts, attempt);
        return Some(outcome), waits;
      }
      waits := waits + [Delay(attempt + 1)];
      attempt := attempt + 1;
    }
    SettledIsFirst(attempts, attempt);
    r := None;
  }

  lemma {:induction false} SettledIsFirst<T>(attempts: seq<Outcome<T>>, k: nat)
    requires k <= |attempts|
    requires forall i :: 0 <= i < k ==> Throttled(attempts[i])
    requires k < |attempts| ==> !Throttled(attempts[k])
    ensures Settled(attempts) == k
  {
  }

  /** An error that is not throttling surfaces on the first attempt, with no wait. */
  lemma {:induction false} FatalErrorNotRetried<T>(attempts: seq<Outcome<T>>)
    requires |attempts| > 0 && attempts[0].Raised? && !RetryIfThrottled(attempts[0].error)
    ensures Settled(attempts) == 0
  {
  }

  /** Throttled k times, then answered: the answer comes back after k waits
      whose total is at most k times the cap. */
  lemma {:induction false} EventualSuccess<T>(attempts: seq<Outcome<T>>, k: nat, v: T)
    requires k < |attempts| && attempts[k] == Returned(v)
    requires forall i :: 0 <= i < k ==> Throttled(attempts[i])
    ensures Settled(attempts) == k
    ensures Sum(Waits(k)) <= WAIT_MAX * k
  {
    SettledIsFirst(attempts, k);
    WaitsTotalBound(k);
  }
}
