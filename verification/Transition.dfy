/**
 The hysteresis between the ranked proposal and the active path: a proposal must
 stay the same for a hold time, and switches must be a cooldown apart, unless the
 active path has failed hard or there is none.
 */
module Transition {
  import opened Base

  const SECOND: nat := 1_000_000_000   // clock readings are in nanoseconds

  datatype Policy = Policy(failureHoldSeconds: nat, recoveryStableSeconds: nat, switchCooldownSeconds: nat)

  /** The singleton row access_selection_runtime; a NULL column is `None`. */
  datatype Runtime = Runtime(pendingKey: Option<string>, pendingSince: Option<int>, lastSwitchAt: Option<int>,
      observedBoot: Option<string>)

  datatype Input = Input(current: string, proposed: string, healthy: bool, hardFailure: bool)

  datatype Reason =
    | HardFailureReactivate | CurrentPathRemainsBest | NoActivePath | HardFailureFastPath
    | Started(recovery: bool) | Waiting(recovery: bool) | SwitchCooldown | Satisfied(recovery: bool)

  datatype Decision = Invalid | Decision(allow: bool, track: bool, clear: bool, reason: Reason)

  function Wait(input: Input, policy: Policy): nat {
    (if input.healthy then policy.recoveryStableSeconds else policy.failureHoldSeconds) * SECOND
  }

  function Evaluate(input: Input, policy: Policy, runtime: Runtime, now: int): Decision {
    if input.proposed == "" then Invalid
    else if input.proposed == input.current && input.hardFailure then Decision(true, false, true, HardFailureReactivate)
    else if input.proposed == input.current then
      Decision(false, false, runtime.pendingKey.Some?, CurrentPathRemainsBest)
    else if input.current == "" then Decision(true, false, true, NoActivePath)
    else if input.hardFailure then Decision(true, false, true, HardFailureFastPath)
    else if runtime.pendingKey != Some(input.proposed) || runtime.pendingSince.None? then
      Decision(false, true, false, Started(input.healthy))
    else if runtime.pendingSince.value > now then Invalid
    else if now - runtime.pendingSince.value < Wait(input, policy) then
      Decision(false, false, false, Waiting(input.healthy))
    else if runtime.lastSwitchAt.Some? && runtime.lastSwitchAt.value > now then Invalid
    else if runtime.lastSwitchAt.Some? && now - runtime.lastSwitchAt.value < policy.switchCooldownSeconds * SECOND then
      Decision(false, false, false, SwitchCooldown)
    else Decision(true, false, true, Satisfied(input.healthy))
  }

  /** Pending key and pending time are both set or both unset. */
  predicate Paired(r: Runtime) {
    r.pendingKey.Some? <==> r.pendingSince.Some?
  }

  /** From the moment both waits are over the switch is allowed; before, it is not. */
  lemma AllowedExactlyWhenDue(input: Input, policy: Policy, runtime: Runtime, now: int)
    requires input.proposed != "" && input.current != "" && input.proposed != input.current && !input.hardFailure
    requires Paired(runtime) && (runtime.pendingSince.Some? ==> runtime.pendingSince.value <= now)
    requires (runtime.lastSwitchAt.Some? ==> runtime.lastSwitchAt.value <= now)
    ensures var d := Evaluate(input, policy, runtime, now);
      d.Decision? && (d.allow <==>
        && runtime.pendingKey == Some(input.proposed)
        && now >= runtime.pendingSince.value + Wait(input, policy)
        && (runtime.lastSwitchAt.Some? ==> now >= runtime.lastSwitchAt.value + policy.switchCooldownSeconds * SECOND))
  {
  }

  // ----- runs -----

  /** One evaluation: its inputs, the clock when it read, tracked or marked, and whether activation worked. */
  datatype Event =
    | Evaluation(input: Input, now: int, wroteAt: int, activated: bool)
    | Replacement(now: int)                    // a policy transition activated another path
    | Boot(id: string, now: int)

  /** What an evaluation did. */
  datatype Entry = Entry(input: Input, now: int, decision: Decision, trackedAt: Option<int>, switchedAt: Option<int>)

  function Began(e: Event): int { e.now }

  function Ended(e: Event): int { if e.Evaluation? then e.wroteAt else e.now }

  /** The clock never goes back, and the ranker proposes only real keys. */
  predicate Monotone(events: seq<Event>) {
    && (forall i :: 0 <= i < |events| && events[i].Evaluation? ==>
         events[i].now <= events[i].wroteAt && events[i].input.proposed != "" && |events[i].input.proposed| <= 512)
    && (forall i :: 0 < i < |events| ==> Ended(events[i - 1]) <= Began(events[i]))
  }

  /** What one evaluation decides and does. */
  function Judge(policy: Policy, r: Runtime, e: Event): Entry requires e.Evaluation? {
    var d := Evaluate(e.input, policy, r, e.now);
    Entry(e.input, e.now, d,
          if d.Decision? && d.track then Some(e.wroteAt) else None,
          if d.Decision? && d.allow && e.activated && !(e.input.proposed == e.input.current && e.input.healthy) then
            Some(e.wroteAt) else None)
  }

  function Tracked(r: Runtime, key: string, now: int): Runtime {
    r.(pendingKey := Some(key), pendingSince := if r.pendingKey == Some(key) then r.pendingSince else Some(now))
  }

  function Cleared(r: Runtime): Runtime { r.(pendingKey := None, pendingSince := None) }

  function Switched(r: Runtime, now: int): Runtime { Cleared(r).(lastSwitchAt := Some(now)) }

  function Booted(r: Runtime, id: string): Runtime {
    if r.observedBoot == Some(id) then r else Cleared(r).(observedBoot := Some(id))
  }

  /** The row after one event. */
  function After(policy: Policy, r: Runtime, e: Event): Runtime {
    match e
    case Evaluation(input, _, wroteAt, _) =>
      var j := Judge(policy, r, e);
      if j.switchedAt.Some? then Switched(r, wroteAt)
      else if j.trackedAt.Some? then Tracked(r, input.proposed, wroteAt)
      else if j.decision.Decision? && j.decision.clear then Cleared(r)
      else r
    case Replacement(now) => Switched(r, now)
    case Boot(id, _) => Booted(r, id)
  }

  const EMPTY: Runtime := Runtime(None, None, None, None)

  /** The rows of a run from an empty row: one before every event and one at the end. */
  ghost predicate Chained(policy: Policy, events: seq<Event>, rows: seq<Runtime>) {
    |rows| == |events| + 1 && rows[0] == EMPTY && forall k :: 0 <= k < |events| ==> Linked(policy, events, rows, k)
  }

  ghost predicate Linked(policy: Policy, events: seq<Event>, rows: seq<Runtime>, k: nat) {
    k < |events| && k + 1 < |rows| && rows[k + 1] == After(policy, rows[k], events[k])
  }

  /** The entries of the first n events, one for each evaluation. */
  ghost function Entries(policy: Policy, events: seq<Event>, rows: seq<Runtime>, n: nat): seq<Entry>
    requires n <= |events| && n <= |rows|
  {
    if n == 0 then []
    else Entries(policy, events, rows, n - 1) + if events[n - 1].Evaluation? then
      [Judge(policy, rows[n - 1], events[n - 1])] else []
  }

  /** When the switches that had to wait happened. */
  function WaitedSwitches(history: seq<Entry>): (times: seq<int>)
  {
    if history == [] then []
    else
      var e, before := history[|history| - 1], WaitedSwitches(history[..|history| - 1]);
      if e.switchedAt.Some? && e.decision.Decision? && e.decision.reason.Satisfied? then before + [e.now] else before
  }

  predicate Spaced(times: seq<int>, gap: int) {
    forall i :: 0 < i < |times| ==> times[i] - times[i - 1] >= gap
  }

  lemma {:induction false} SpacedSpan(times: seq<int>, gap: nat)
    requires Spaced(times, gap) && |times| > 0
    ensures times[|times| - 1] - times[0] >= (|times| - 1) * gap
  {
    if |times| > 1 {
      SpacedSpan(times[..|times| - 1], gap);
      assert (|times| - 1) * gap == (|times| - 2) * gap + gap;
    }
  }

  /** `key` was tracked at `since` and has been proposed by every evaluation from then on. */
  predicate HeldSince(history: seq<Entry>, key: string, since: int) {
    exists j :: 0 <= j < |history| && history[j].trackedAt == Some(since) && AllPropose(history, j, key)
  }

  predicate AllPropose(history: seq<Entry>, from: nat, key: string) {
    forall m :: from <= m < |history| ==> history[m].input.proposed == key
  }

  /** Entry `n` decided on a key that had been held for the wait that applied to it. */
  ghost predicate EarnedAt(history: seq<Entry>, n: nat, policy: Policy) requires n < |history| {
    var upTo := history[..n + 1];
    exists since :: HeldSince(upTo, history[n].input.proposed, since)
      && since + Wait(history[n].input, policy) <= history[n].now
  }

  /** Every switch that had to wait was earned. */
  ghost predicate Earned(history: seq<Entry>, policy: Policy) {
    forall n :: 0 <= n < |history| && history[n].decision.Decision? && history[n].decision.reason.Satisfied? ==>
      EarnedAt(history, n, policy)
  }

  class Selection {
    const policy: Policy
    var runtime: Runtime

    constructor (policy: Policy)
      ensures this.policy == policy && runtime == EMPTY
    {
      this.policy := policy;
      runtime := EMPTY;
    }

    /** Keeps the time of a key that is already pending. */
    method TrackPendingCandidate(key: string, now: int) returns (ok: bool)
      modifies this
      ensures ok <==> 0 < |key| <= 512
      ensures runtime == if ok then Tracked(old(runtime), key, now) else old(runtime)
    {
      if key == "" || |key| > 512 {
        return false;
      }
      runtime := runtime.(pendingSince := if runtime.pendingKey == Some(key) then runtime.pendingSince
        else Some(now), pendingKey := Some(key));
      ok := true;
    }

    method ClearPendingCandidate()
      modifies this
      ensures runtime == Cleared(old(runtime))
    {
      runtime := runtime.(pendingKey := None, pendingSince := None);
    }

    method MarkSwitched(now: int)
      modifies this
      ensures runtime == Switched(old(runtime), now)
    {
      runtime := runtime.(pendingKey := None, pendingSince := None, lastSwitchAt := Some(now));
    }

    /** The part of ReconcileBoot that concerns the selection row. */
    method ReconcileBoot(id: string)
      modifies this
      ensures runtime == Booted(old(runtime), id)
    {
      if runtime.observedBoot == Some(id) {
        return;
      }
      runtime := runtime.(observedBoot := Some(id), pendingKey := None, pendingSince := None);
    }

    /** One pass of the reconciler that acts on the flags of the decision. */
    method Pass(input: Input, now: int, wroteAt: int, activated: bool) returns (e: Entry)
      requires input.proposed != "" && |input.proposed| <= 512
      modifies this
      ensures e == Judge(policy, old(runtime), Evaluation(input, now, wroteAt, activated))
      ensures runtime == After(policy, old(runtime), Evaluation(input, now, wroteAt, activated))
    {
      var decision := Evaluate(input, policy, runtime, now);
      e := Entry(input, now, decision, None, None);
      if decision.Invalid? {
        return;
      }
      if decision.track {
        var _ := TrackPendingCandidate(input.proposed, wroteAt);
        e := e.(trackedAt := Some(wroteAt));
        return;
      }
      if decision.clear {
        ClearPendingCandidate();
      }
      if (input.proposed == input.current && input.healthy) || !decision.allow || !activated {
        return;
      }
      MarkSwitched(wroteAt);
      e := e.(switchedAt := Some(wroteAt));
    }

    /** Any run under a monotone clock: the rows follow the events, the history holds the decision of every evaluation;
        waited switches are a cooldown apart, each was earned by holding the same proposal, and the row never has one
        half of a pending candidate. */
    method Run(events: seq<Event>) returns (history: seq<Entry>, ghost rows: seq<Runtime>)
      requires Monotone(events) && runtime == EMPTY
      modifies this
      ensures Chained(policy, events, rows) && rows[|events|] == runtime
      ensures history == Entries(policy, events, rows, |events|)
      ensures forall k :: 0 <= k < |rows| ==> Paired(rows[k])
      ensures Spaced(WaitedSwitches(history), policy.switchCooldownSeconds * SECOND)
      ensures Earned(history, policy)
      ensures forall n :: 0 <= n < |history| ==> history[n].decision.Decision?
    {
      hide Evaluate, Earned, WaitedSwitches;
      history, rows := [], [runtime];
      ghost var clock := if events == [] then 0 else Began(events[0]);
      assert Settled([], EMPTY, policy, clock) by { EmptySettles(policy, clock); }
      var n := 0;
      while n < |events|
        invariant 0 <= n <= |events| && |rows| == n + 1 && rows[0] == EMPTY && rows[n] == runtime
        invariant forall k :: 0 <= k < n ==> Linked(policy, events, rows, k)
        invariant history == Entries(policy, events, rows, n)
        invariant forall k :: 0 <= k < |rows| ==> Paired(rows[k])
        invariant n < |events| ==> clock <= Began(events[n])
        invariant Settled(history, runtime, policy, clock)
        invariant forall m :: 0 <= m < |history| ==> history[m].decision.Decision?
      {
        match events[n] {
          case Evaluation(input, now, wroteAt, activated) =>
            ghost var before := runtime;
            var e := Pass(input, now, wroteAt, activated);
            PassSettles(history, before, policy, clock, e, runtime, wroteAt, events[n]);
            history := history + [e];
          case Replacement(now) => MarkSwitched(now);
          case Boot(id, now) => ReconcileBoot(id);
        }
        clock := Ended(events[n]);
        ghost var past := rows;
        rows := rows + [runtime];
        EntriesIgnoreMore(policy, events, past, runtime, n);
        forall k | 0 <= k < n ensures Linked(policy, events, rows, k) { assert Linked(policy, events, past, k); }
        n := n + 1;
      }
    }
  }

  lemma {:induction false} EntriesIgnoreMore(policy: Policy, events: seq<Event>, rows: seq<Runtime>, r: Runtime, n: nat)
    requires n <= |events| && n <= |rows|
    ensures Entries(policy, events, rows + [r], n) == Entries(policy, events, rows, n)
  {
    hide Judge;
    if n > 0 { EntriesIgnoreMore(policy, events, rows, r, n - 1); }
  }

  lemma EmptySettles(policy: Policy, clock: int)
    ensures Settled([], EMPTY, policy, clock)
  {}

  /** The invariant of a run; `clock` is the last time anything happened. */
  ghost predicate Settled(history: seq<Entry>, r: Runtime, policy: Policy, clock: int) {
    && Paired(r)
    && (r.lastSwitchAt.Some? ==> r.lastSwitchAt.value <= clock)
    && (r.pendingSince.Some? ==>
         r.pendingSince.value <= clock && HeldSince(history, r.pendingKey.value, r.pendingSince.value))
    && Spaced(WaitedSwitches(history), policy.switchCooldownSeconds * SECOND)
    && (WaitedSwitches(history) != [] ==>
         r.lastSwitchAt.Some? && WaitedSwitches(history)[|WaitedSwitches(history)| - 1] <= r.lastSwitchAt.value)
    && Earned(history, policy)
  }

  lemma PassSettles(history: seq<Entry>, before: Runtime, policy: Policy, clock: int, e: Entry, after: Runtime,
      wroteAt: int, event: Event)
    requires Settled(history, before, policy, clock) && event.Evaluation? && clock <= event.now <= event.wroteAt
    requires event.input.proposed != ""
    requires e == Judge(policy, before, event) && after == After(policy, before, event) && wroteAt == event.wroteAt
    ensures e.decision.Decision? && Settled(history + [e], after, policy, wroteAt)
  {
    var longer := history + [e];
    assert longer[..|history|] == history;
    if before.pendingSince.Some? && before.pendingKey.value == e.input.proposed {
      HoldContinues(history, e, before.pendingKey.value, before.pendingSince.value);
    }
    if after.pendingSince.Some? && e.trackedAt.Some? {
      assert AllPropose(longer, |history|, e.input.proposed);
    }
    forall n | 0 <= n < |longer| && longer[n].decision.Decision? && longer[n].decision.reason.Satisfied?
      ensures EarnedAt(longer, n, policy)
    {
      if n < |history| {
        assert EarnedAt(history, n, policy);
        assert longer[..n + 1] == history[..n + 1];
      } else {
        assert longer[..n + 1] == longer;
      }
    }
  }

  lemma HoldContinues(history: seq<Entry>, e: Entry, key: string, since: int)
    requires HeldSince(history, key, since) && e.input.proposed == key
    ensures HeldSince(history + [e], key, since)
  {
    var j :| 0 <= j < |history| && history[j].trackedAt == Some(since) && AllPropose(history, j, key);
    var longer := history + [e];
    assert longer[j].trackedAt == Some(since) && AllPropose(longer, j, key);
  }

  /** k waited switches span at least k - 1 cooldowns. */
  lemma SwitchesAreSlow(history: seq<Entry>, policy: Policy)
    requires Spaced(WaitedSwitches(history), policy.switchCooldownSeconds * SECOND) && WaitedSwitches(history) != []
    ensures var times := WaitedSwitches(history);
      times[|times| - 1] - times[0] >= (|times| - 1) * (policy.switchCooldownSeconds * SECOND)
  {
    SpacedSpan(WaitedSwitches(history), policy.switchCooldownSeconds * SECOND);
  }

  // ----- when a switch is allowed, in terms of the run -----

  /** An evaluation between two live candidates, neither of which has failed hard. */
  predicate Soft(e: Event) {
    e.Evaluation? && e.input.proposed != "" && e.input.current != "" && e.input.proposed != e.input.current
      && !e.input.hardFailure
  }

  /** The event leaves a pending `key` alone: a soft evaluation that proposes it again without being allowed, or the
      boot that was already observed. */
  predicate Steady(policy: Policy, r: Runtime, e: Event, key: string) {
    match e
    case Evaluation(input, _, _, _) => Soft(e) && input.proposed == key
      && !(Judge(policy, r, e).decision.Decision? && Judge(policy, r, e).decision.allow)
    case Replacement(_) => false
    case Boot(id, _) => r.observedBoot == Some(id)
  }

  /** Event j began to track the key, and nothing from then to event k has broken it. */
  ghost predicate PendingFrom(policy: Policy, events: seq<Event>, rows: seq<Runtime>, j: nat, k: nat, key: string) {
    && j < k <= |events| && k < |rows| && events[j].Evaluation? && events[j].input.proposed == key
    && Judge(policy, rows[j], events[j]).trackedAt.Some?
    && forall m :: j < m < k ==> Steady(policy, rows[m], events[m], key)
  }

  lemma {:induction false} PairedAlways(policy: Policy, events: seq<Event>, rows: seq<Runtime>, k: nat)
    requires Chained(policy, events, rows) && k <= |events|
    ensures Paired(rows[k])
  {
    if k > 0 {
      PairedAlways(policy, events, rows, k - 1);
      assert Linked(policy, events, rows, k - 1);
    }
  }

  /** What is recorded lies in the past. */
  lemma {:induction false} RowsAreBehind(policy: Policy, events: seq<Event>, rows: seq<Runtime>, k: nat)
    requires Chained(policy, events, rows) && Monotone(events) && 0 < k <= |events|
    ensures rows[k].pendingSince.Some? ==> rows[k].pendingSince.value <= Ended(events[k - 1])
    ensures rows[k].lastSwitchAt.Some? ==> rows[k].lastSwitchAt.value <= Ended(events[k - 1])
  {
    assert Linked(policy, events, rows, k - 1);
    if k > 1 {
      RowsAreBehind(policy, events, rows, k - 1);
      assert Ended(events[k - 2]) <= Began(events[k - 1]) <= Ended(events[k - 1]);
    }
  }

  /** An unbroken key is what the row holds, with the time it was tracked. */
  lemma {:induction false} PendingIsRecorded(policy: Policy, events: seq<Event>, rows: seq<Runtime>, j: nat, k: nat,
      key: string)
    requires Chained(policy, events, rows) && PendingFrom(policy, events, rows, j, k, key)
    ensures rows[k].pendingKey == Some(key) && rows[k].pendingSince == Some(events[j].wroteAt)
    decreases k
  {
    assert Linked(policy, events, rows, k - 1);
    if k == j + 1 {
      PairedAlways(policy, events, rows, j);
    } else {
      PendingIsRecorded(policy, events, rows, j, k - 1, key);
      assert Steady(policy, rows[k - 1], events[k - 1], key);
    }
  }

  /** And what the row holds is a key that is unbroken. */
  lemma {:induction false} RecordedIsPending(policy: Policy, events: seq<Event>, rows: seq<Runtime>, k: nat)
    returns (j: nat)
    requires Chained(policy, events, rows) && Monotone(events) && k <= |events| && rows[k].pendingKey.Some?
    ensures PendingFrom(policy, events, rows, j, k, rows[k].pendingKey.value)
    ensures rows[k].pendingSince == Some(events[j].wroteAt)
  {
    assert Linked(policy, events, rows, k - 1);
    PairedAlways(policy, events, rows, k - 1);
    var r, e := rows[k - 1], events[k - 1];
    if e.Evaluation? && Judge(policy, r, e).trackedAt.Some? {
      j := k - 1;
    } else {
      assert rows[k].pendingKey == r.pendingKey && rows[k].pendingSince == r.pendingSince;
      assert Steady(policy, r, e, r.pendingKey.value);
      j := RecordedIsPending(policy, events, rows, k - 1);
    }
  }

  /** In every run a soft evaluation allows the switch exactly when its proposal has been pending, unbroken, for the
      wait that applies, and the last switch is a cooldown ago. */
  lemma AllowedExactlyWhenHeld(policy: Policy, events: seq<Event>, rows: seq<Runtime>, k: nat)
    requires Chained(policy, events, rows) && Monotone(events) && k < |events| && Soft(events[k])
    ensures var e := events[k];
      var d := Judge(policy, rows[k], e).decision;
      d.Decision? && (d.allow <==> HeldLongEnough(policy, events, rows, k) && CooldownOver(policy, rows[k], e.now))
  {
    hide Linked, Monotone, Steady;
    var e, r := events[k], rows[k];
    PairedAlways(policy, events, rows, k);
    if k > 0 { RowsAreBehind(policy, events, rows, k); ClockGoesOn(events, k); }
    AllowedExactlyWhenDue(e.input, policy, r, e.now);
    if HeldLongEnough(policy, events, rows, k) {
      var j :| 0 <= j < k && PendingFrom(policy, events, rows, j, k, e.input.proposed)
        && events[j].wroteAt + Wait(e.input, policy) <= e.now;
      PendingIsRecorded(policy, events, rows, j, k, e.input.proposed);
    }
    if r.pendingKey == Some(e.input.proposed) && e.now >= r.pendingSince.value + Wait(e.input, policy) {
      var j := RecordedIsPending(policy, events, rows, k);
      assert PendingFrom(policy, events, rows, j, k, e.input.proposed);
    }
  }

  lemma ClockGoesOn(events: seq<Event>, k: nat)
    requires Monotone(events) && 0 < k < |events|
    ensures Ended(events[k - 1]) <= Began(events[k])
  {}

  ghost predicate HeldLongEnough(policy: Policy, events: seq<Event>, rows: seq<Runtime>, k: nat)
    requires k < |events| && events[k].Evaluation?
  {
    exists j :: 0 <= j < k && PendingFrom(policy, events, rows, j, k, events[k].input.proposed) && events[j].Evaluation?
      && events[j].wroteAt + Wait(events[k].input, policy) <= events[k].now
  }

  predicate CooldownOver(policy: Policy, r: Runtime, now: int) {
    r.lastSwitchAt.Some? ==> now >= r.lastSwitchAt.value + policy.switchCooldownSeconds * SECOND
  }
}
