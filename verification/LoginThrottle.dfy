/** Throttling of failed logins: internal/auth/service.go. Times are in nanoseconds. */
module LoginThrottle {
  import opened Base

  const SECOND: int := 1_000_000_000

  function Pow2(n: nat): nat { if n == 0 then 1 else 2 * Pow2(n - 1) }

  function Min(a: int, b: int): int { if a < b then a else b }

  /** How long the n-th failure blocks. */
  function Delay(n: nat): int requires n >= 3 { Pow2(Min(n - 3, 8)) * SECOND }

  lemma {:induction false} PowersGrow(a: nat, b: nat)
    requires a <= b
    ensures 1 <= Pow2(a) <= Pow2(b)
    decreases b
  {
    if a < b { PowersGrow(a, b - 1); }
    if a == b && b > 0 { PowersGrow(a - 1, b - 1); }
  }

  lemma NoBlockIsLonger(n: nat)
    requires n >= 3
    ensures SECOND <= Delay(n) <= 256 * SECOND
  {
    PowersGrow(Min(n - 3, 8), 8);
    assert Pow2(8) == 256;
  }

  /** Every failure after the third came no sooner than the block of the one before it allowed. */
  ghost predicate Spaced(times: seq<int>) {
    forall i {:trigger times[i]} :: 3 <= i < |times| ==> times[i] >= times[i - 1] + Delay(i)
  }

  /** Least number of seconds from the third failure to the n-th. */
  function LeastWait(n: nat): int requires n >= 3 {
    if n <= 12 then Pow2(n - 3) - 1 else 511 + 256 * (n - 12)
  }

  lemma WaitGrows(n: nat)
    requires n >= 3
    ensures LeastWait(n + 1) * SECOND == LeastWait(n) * SECOND + Delay(n)
  {}

  lemma {:induction false} FailuresAreSlow(times: seq<int>, n: nat)
    requires Spaced(times) && 3 <= n <= |times|
    ensures times[n - 1] - times[2] >= LeastWait(n) * SECOND
  {
    if n == 3 {
      assert Pow2(0) == 1;
    } else {
      FailuresAreSlow(times, n - 1);
      WaitGrows(n - 1);
    }
  }

  /** The bound is reached: failing as soon as each block ends gives exactly the least wait. */
  function Earliest(n: nat): (times: seq<int>)
    ensures |times| == n && forall i :: 0 <= i < n ==> times[i] == if i < 3 then 0 else LeastWait(i + 1) * SECOND
  {
    if n == 0 then [] else Earliest(n - 1) + [if n <= 3 then 0 else LeastWait(n) * SECOND]
  }

  lemma EarliestIsSpaced(n: nat)
    ensures Spaced(Earliest(n))
  {
    var times := Earliest(n);
    forall i {:trigger times[i]} | 3 <= i < n ensures times[i] == times[i - 1] + Delay(i) {
      WaitGrows(i);
      if i == 3 { assert Pow2(0) == 1; }
    }
  }

  datatype Attempt = Attempt(failures: nat, first: int, blockedUntil: Option<int>)

  datatype Outcome = RateLimited | Rejected | Accepted | Aborted

  /** An attempt; `undisturbed` when the database does not fail in it. */
  datatype Request = Request(key: string, now: int, verified: bool, undisturbed: bool)

  function Until(times: seq<int>): Option<int> {
    if |times| >= 3 then Some(times[|times| - 1] + Delay(|times|)) else None
  }

  function TimesOf(failedAt: map<string, seq<int>>, key: string): seq<int> {
    if key in failedAt then failedAt[key] else []
  }

  /** The row of a key tells the failures since its last success, which are spaced. */
  ghost predicate Accurate(rows: map<string, Attempt>, failedAt: map<string, seq<int>>, key: string) {
    var times := TimesOf(failedAt, key);
    && Spaced(times)
    && (key in rows <==> times != [])
    && (key in rows ==> rows[key] == Attempt(|times|, times[0], Until(times)))
  }

  lemma SpacedGrows(times: seq<int>, now: int)
    requires Spaced(times) && (Until(times).Some? ==> now >= Until(times).value)
    ensures Spaced(times + [now])
  {
    var more := times + [now];
    forall i {:trigger more[i]} | 3 <= i < |more| ensures more[i] >= more[i - 1] + Delay(i) {
      if i < |times| { assert times[i] >= times[i - 1] + Delay(i); }
    }
  }

  /** What an attempt meets, when the failures of its key since the last success are `times`. */
  function Verdict(times: seq<int>, request: Request): Outcome {
    if Until(times).Some? && Until(times).value > request.now then RateLimited
    else if request.verified then Accepted
    else Rejected
  }

  /** The failures of a key after one attempt. */
  function TimesAfter(times: seq<int>, key: string, request: Request, r: Outcome): seq<int> {
    if request.key != key then times
    else if r == Rejected then times + [request.now]
    else if r == Accepted then []
    else times
  }

  /** The failures of a key since its last success, among the first n attempts. */
  function Failures(requests: seq<Request>, outcomes: seq<Outcome>, key: string, n: nat): seq<int>
    requires n <= |requests| && n <= |outcomes|
  {
    if n == 0 then [] else TimesAfter(Failures(requests, outcomes, key, n - 1), key, requests[n - 1], outcomes[n - 1])
  }

  lemma {:induction false} FailuresIgnoreMore(requests: seq<Request>, outcomes: seq<Outcome>, r: Outcome, key: string,
      n: nat)
    requires n <= |requests| && n <= |outcomes|
    ensures Failures(requests, outcomes + [r], key, n) == Failures(requests, outcomes, key, n)
  {
    if n > 0 { FailuresIgnoreMore(requests, outcomes, r, key, n - 1); }
  }

  /** The k-th attempt got the answer that the attempts before it call for, or was rolled back. */
  ghost predicate Answered(requests: seq<Request>, outcomes: seq<Outcome>, k: nat) {
    k < |requests| && k < |outcomes| && ((outcomes[k] == Aborted && !requests[k].undisturbed)
        || outcomes[k] == Verdict(Failures(requests, outcomes, requests[k].key, k), requests[k]))
  }

  /** The n-th failure of the key since its last success kept its distance from the third. */
  predicate Slow(times: seq<int>, n: nat) {
    3 <= n <= |times| ==> times[n - 1] - times[2] >= LeastWait(n) * SECOND
  }

  /** After k attempts the failures of every key are as far apart as the blocks demand. */
  ghost predicate SpacedAfter(requests: seq<Request>, outcomes: seq<Outcome>, k: nat)
    requires k <= |requests| && k <= |outcomes| {
    forall key :: Spaced(Failures(requests, outcomes, key, k))
  }

  /** After k attempts the failures of every key have kept the least waits. */
  ghost predicate SlowAfter(requests: seq<Request>, outcomes: seq<Outcome>, k: nat)
    requires k <= |requests| && k <= |outcomes| {
    forall key, n: nat :: Slow(Failures(requests, outcomes, key, k), n)
  }

  lemma SpacedIsSlow(requests: seq<Request>, outcomes: seq<Outcome>, k: nat)
    requires k <= |requests| && k <= |outcomes| && SpacedAfter(requests, outcomes, k)
    ensures SlowAfter(requests, outcomes, k)
  {
    hide Failures;
    forall key, n: nat ensures Slow(Failures(requests, outcomes, key, k), n) {
      var times := Failures(requests, outcomes, key, k);
      if 3 <= n <= |times| { FailuresAreSlow(times, n); }
    }
  }

  /** One more answer does not touch what was answered before. */
  lemma OneMoreAnswer(requests: seq<Request>, past: seq<Outcome>, r: Outcome, k: nat)
    requires k <= |past| <= |requests|
    ensures SpacedAfter(requests, past, k) ==> SpacedAfter(requests, past + [r], k)
    ensures Answered(requests, past, k) ==> Answered(requests, past + [r], k)
  {
    hide Failures, Verdict, Spaced;
    forall key ensures Failures(requests, past + [r], key, k) == Failures(requests, past, key, k) {
      FailuresIgnoreMore(requests, past, r, key, k);
    }
  }

  class Throttle {
    var rows: map<string, Attempt>
    /** For each key the times of the failures recorded since its last success. */
    ghost var failedAt: map<string, seq<int>>

    ghost predicate Valid() reads this { forall key :: Accurate(rows, failedAt, key) }

    constructor ()
      ensures Valid() && failedAt == map[]
    {
      rows, failedAt := map[], map[];
    }

    method LoginBlocked(key: string, now: int) returns (blocked: bool)
      requires Valid()
      ensures blocked <==> var until := Until(TimesOf(failedAt, key)); until.Some? && until.value > now
    {
      assert Accurate(rows, failedAt, key);
      if key !in rows { return false; }
      var until := rows[key].blockedUntil;
      blocked := until.Some? && until.value > now;
    }

    method RecordLoginFailure(key: string, now: int)
      requires Valid() && var until := Until(TimesOf(failedAt, key)); until.Some? ==> now >= until.value
      modifies this
      ensures Valid() && failedAt == old(failedAt)[key := TimesOf(old(failedAt), key) + [now]]
    {
      hide Delay, Spaced;
      assert Accurate(rows, failedAt, key);
      var failures, first := 0, now;
      if key in rows { failures, first := rows[key].failures, rows[key].first; }
      failures := failures + 1;
      var blocked: Option<int> := None;
      if failures >= 3 { blocked := Some(now + Delay(failures)); }
      SpacedGrows(TimesOf(failedAt, key), now);
      rows := rows[key := Attempt(failures, first, blocked)];
      failedAt := failedAt[key := TimesOf(failedAt, key) + [now]];
      forall k ensures Accurate(rows, failedAt, k) { assert Accurate(old(rows), old(failedAt), k); }
    }

    method ClearFailures(key: string)
      requires Valid()
      modifies this
      ensures Valid() && failedAt == old(failedAt) - {key}
    {
      rows := rows - {key};
      failedAt := failedAt - {key};
      forall k ensures Accurate(rows, failedAt, k) { assert Accurate(old(rows), old(failedAt), k); }
    }

    /** One password attempt of Login or Reauthenticate; a database error rolls it back. */
    method Check(request: Request) returns (r: Outcome)
      requires Valid()
      modifies this
      ensures Valid()
      ensures r == Verdict(TimesOf(old(failedAt), request.key), request) || (r == Aborted && !request.undisturbed)
      ensures forall key :: TimesOf(failedAt, key) == TimesAfter(TimesOf(old(failedAt), key), key, request, r)
      ensures r == RateLimited || r == Aborted ==> failedAt == old(failedAt) && rows == old(rows)
    {
      hide Accurate;
      var failed := *;
      if failed && !request.undisturbed { return Aborted; }
      var blocked := LoginBlocked(request.key, request.now);
      if blocked { return RateLimited; }
      if !request.verified {
        RecordLoginFailure(request.key, request.now);
        return Rejected;
      }
      ClearFailures(request.key);
      r := Accepted;
    }

    /** Over any run every attempt gets its answer, and at every moment the failures of every key since its last success
        have kept the least waits. */
    method Run(requests: seq<Request>) returns (outcomes: seq<Outcome>)
      requires Valid() && failedAt == map[]
      modifies this
      ensures Valid() && |outcomes| == |requests|
      ensures forall k :: 0 <= k < |requests| ==> Answered(requests, outcomes, k)
      ensures forall key :: TimesOf(failedAt, key) == Failures(requests, outcomes, key, |requests|)
      ensures forall k :: 0 <= k <= |requests| ==> SlowAfter(requests, outcomes, k)
    {
      hide Accurate, Verdict, TimesAfter, Spaced, SlowAfter, Answered;
      outcomes := [];
      TimesAreNone(failedAt, requests);
      for i := 0 to |requests|
        invariant Valid() && |outcomes| == i
        invariant forall k :: 0 <= k < i ==> Answered(requests, outcomes, k)
        invariant forall key :: TimesOf(failedAt, key) == Failures(requests, outcomes, key, i)
        invariant forall k :: 0 <= k <= i ==> SpacedAfter(requests, outcomes, k)
      {
        var r := Check(requests[i]);
        ghost var past := outcomes;
        outcomes := outcomes + [r];
        forall k | 0 <= k <= i ensures SpacedAfter(requests, outcomes, k) { OneMoreAnswer(requests, past, r, k); }
        forall k | 0 <= k < i ensures Answered(requests, outcomes, k) { OneMoreAnswer(requests, past, r, k); }
        forall key ensures Failures(requests, outcomes, key, i) == Failures(requests, past, key, i) {
          FailuresIgnoreMore(requests, past, r, key, i);
        }
        assert Answered(requests, outcomes, i) by { Answer(requests, outcomes, i); }
        ghost var next := i + 1;
        forall key ensures Spaced(Failures(requests, outcomes, key, next)) { TimesAreSpaced(rows, failedAt, key); }
      }
      forall k | 0 <= k <= |requests| ensures SlowAfter(requests, outcomes, k) { SpacedIsSlow(requests, outcomes, k); }
    }
  }

  lemma Answer(requests: seq<Request>, outcomes: seq<Outcome>, k: nat)
    requires k < |requests| && k < |outcomes|
    requires (outcomes[k] == Aborted && !requests[k].undisturbed)
      || outcomes[k] == Verdict(Failures(requests, outcomes, requests[k].key, k), requests[k])
    ensures Answered(requests, outcomes, k)
  {}

  lemma TimesAreNone(failedAt: map<string, seq<int>>, requests: seq<Request>)
    requires failedAt == map[]
    ensures forall key :: TimesOf(failedAt, key) == Failures(requests, [], key, 0)
    ensures SpacedAfter(requests, [], 0)
  {}

  lemma TimesAreSpaced(rows: map<string, Attempt>, failedAt: map<string, seq<int>>, key: string)
    requires Accurate(rows, failedAt, key)
    ensures Spaced(TimesOf(failedAt, key))
  {}
}
