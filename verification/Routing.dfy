/** Synchronizing policy routing with the plan, behind a closed gate:
    internal/dataplane/routing.go with internal/routing/render.go. */
module Routing {
  import opened Base
  import opened RoutingKeys

  // ----- what the ip tool does to the owned rules and base routes -----

  function RemoveRule(rules: seq<Rule>, priority: u32): seq<Rule> {
    if rules == [] then []
    else if rules[0].priority == priority then rules[1..]
    else [rules[0]] + RemoveRule(rules[1..], priority)
  }

  predicate SamePlace(a: Route, b: Route) {
    a.table == b.table && NormalizeDestination(a.dst) == NormalizeDestination(b.dst)
  }

  function RemoveRoute(routes: seq<Route>, r: Route): seq<Route> {
    if routes == [] then []
    else if SamePlace(routes[0], r) then routes[1..]
    else [routes[0]] + RemoveRoute(routes[1..], r)
  }

  /** A new route takes the place of one with its table and destination. */
  function ReplaceRoute(routes: seq<Route>, r: Route): seq<Route> {
    if routes == [] then [r]
    else if SamePlace(routes[0], r) then [r] + routes[1..]
    else [routes[0]] + ReplaceRoute(routes[1..], r)
  }

  lemma {:induction false} RemoveKeepsPlain(routes: seq<Route>, r: Route)
    requires AllPlain(routes)
    ensures AllPlain(RemoveRoute(routes, r))
  {
    hide Plain;
    if routes != [] && !SamePlace(routes[0], r) { RemoveKeepsPlain(routes[1..], r); }
  }

  lemma {:induction false} ReplaceKeepsPlain(routes: seq<Route>, r: Route)
    requires AllPlain(routes) && Plain(r)
    ensures AllPlain(ReplaceRoute(routes, r))
  {
    hide Plain;
    if routes != [] && !SamePlace(routes[0], r) { ReplaceKeepsPlain(routes[1..], r); }
  }

  lemma {:induction false} ReplaceAppends(routes: seq<Route>, r: Route)
    requires forall i :: 0 <= i < |routes| ==> !SamePlace(routes[i], r)
    ensures ReplaceRoute(routes, r) == routes + [r]
  {
    if routes != [] { ReplaceAppends(routes[1..], r); }
  }

  lemma {:induction false} RemoveMisses(rules: seq<Rule>, priority: u32)
    requires forall i :: 0 <= i < |rules| ==> rules[i].priority != priority
    ensures RemoveRule(rules, priority) == rules
  {
    if rules != [] { RemoveMisses(rules[1..], priority); }
  }

  /** The plan gives every rule a priority and every route a place of its own, outside the reserved tables. */
  predicate Orderly(plan: Plan) {
    && (forall i, j :: 0 <= i < j < |plan.rules| ==> plan.rules[i].priority != plan.rules[j].priority)
    && (forall i, j :: 0 <= i < j < |plan.routes| ==> !SamePlace(plan.routes[i], plan.routes[j]))
    && Renderable(plan)
  }

  predicate Renderable(plan: Plan) { forall i :: 0 <= i < |plan.routes| ==> plan.routes[i].table >= 256 }

  /** The gate was closed, or a call left the kernel with these tables. */
  datatype Event = Blocked | Changed(rules: seq<Rule>, routes: seq<Route>)

  /** The tables after everything that is logged. */
  ghost function Tables(log: seq<Event>, first: (seq<Rule>, seq<Route>)): (seq<Rule>, seq<Route>) {
    if log == [] then first
    else match log[|log| - 1]
      case Changed(rules, routes) => (rules, routes)
      case Blocked => Tables(log[..|log| - 1], first)
  }

  lemma TablesGrow(log: seq<Event>, e: Event, first: (seq<Rule>, seq<Route>))
    ensures Tables(log + [e], first) == if e.Changed? then (e.rules, e.routes) else Tables(log, first)
  {
    assert (log + [e])[..|log|] == log;
  }

  ghost predicate BlockedBefore(log: seq<Event>, start: int, i: int) {
    exists j :: 0 <= start <= j < i <= |log| && log[j] == Blocked
  }

  /** Since `start`, nothing was changed before the gate had been closed. */
  ghost predicate Guarded(log: seq<Event>, start: nat) {
    forall i :: start <= i < |log| && log[i].Changed? ==> BlockedBefore(log, start, i)
  }

  lemma GuardedGrows(log: seq<Event>, start: nat, e: Event)
    requires start <= |log| && Guarded(log, start) && (e.Changed? ==> BlockedBefore(log, start, |log|))
    ensures Guarded(log + [e], start)
    ensures BlockedBefore(log, start, |log|) || e == Blocked ==> BlockedBefore(log + [e], start, |log| + 1)
  {
    var more := log + [e];
    if BlockedBefore(log, start, |log|) {
      var j :| start <= j < |log| && log[j] == Blocked;
      assert more[j] == Blocked;
    }
    assert e == Blocked ==> more[|log|] == Blocked;
    forall i | start <= i < |more| && more[i].Changed? ensures BlockedBefore(more, start, i) {
      if i < |log| {
        var j :| start <= j < i && log[j] == Blocked;
        assert more[j] == Blocked;
      } else {
        var j :| start <= j < |log| && log[j] == Blocked;
        assert more[j] == Blocked;
      }
    }
  }

  class Backend {
    var rules: seq<Rule>
    var routes: seq<Route>
    var gateOpen: bool
    const steady: bool          // no tool fails, and neither does the gate
    ghost const first: (seq<Rule>, seq<Route>)
    ghost var log: seq<Event>

    constructor (rules: seq<Rule>, routes: seq<Route>, gateOpen: bool, steady: bool)
      ensures this.rules == rules && this.routes == routes && this.gateOpen == gateOpen && this.steady == steady
      ensures log == [] && Recorded()
    {
      this.rules, this.routes, this.gateOpen, this.steady := rules, routes, gateOpen, steady;
      log, first := [], (rules, routes);
    }

    /** Every change of the kernel is in the log. */
    ghost predicate Recorded()
      reads this
    {
      Tables(log, first) == (rules, routes)
    }

    /** Reading through the sysctl and ip tools, which may fail. */
    method Exec() returns (ok: bool)
      ensures steady ==> ok
    {
      ok := *;
      if steady { ok := true; }
    }

    method BlockPath() returns (ok: bool)
      modifies `rules, `routes, `gateOpen, `log
      ensures rules == old(rules) && routes == old(routes) && (old(Recorded()) ==> Recorded())
      ensures gateOpen ==> old(gateOpen)
      ensures ok ==> !gateOpen && log == old(log) + [Blocked]
      ensures !ok ==> log == old(log)
      ensures steady ==> ok
    {
      TablesGrow(log, Blocked, first);
      ok := *;
      if steady { ok := true; }
      var took := *;
      if ok || took { gateOpen := false; }
      if ok { log := log + [Blocked]; }
    }

    /** The state in which a mutation is made: the gate is closed, and was closed by this call. */
    ghost predicate Shut(start: nat)
      reads this
    {
      !gateOpen && Recorded() && start <= |log| && Guarded(log, start) && BlockedBefore(log, start, |log|)
    }

    /** One mutating call of the ip tool. A failed call may still have taken effect. */
    method Mutate(nextRules: seq<Rule>, nextRoutes: seq<Route>, ghost start: nat) returns (ok: bool)
      requires Shut(start)
      modifies `rules, `routes, `gateOpen, `log
      ensures old(log) <= log && Shut(start)
      ensures (rules == nextRules && routes == nextRoutes) || (!ok && rules == old(rules) && routes == old(routes))
      ensures steady ==> ok
    {
      ok := *;
      if steady { ok := true; }
      var took := *;
      if ok || took { rules, routes := nextRules, nextRoutes; }
      GuardedGrows(log, start, Changed(rules, routes));
      TablesGrow(log, Changed(rules, routes), first);
      log := log + [Changed(rules, routes)];
    }

    /** One deletion. Exit code 2 of the tool counts as success, whether the entry was gone already or the kernel
        refused; `clean` says that the deletion took effect. */
    method Delete(nextRules: seq<Rule>, nextRoutes: seq<Route>, ghost start: nat) returns (ok: bool, ghost clean: bool)
      requires Shut(start)
      modifies `rules, `routes, `gateOpen, `log
      ensures old(log) <= log && Shut(start)
      ensures (rules == nextRules && routes == nextRoutes) || (rules == old(rules) && routes == old(routes))
      ensures ok && clean ==> rules == nextRules && routes == nextRoutes
      ensures steady ==> ok && clean
    {
      var exitCode2 := *;
      ok := Mutate(nextRules, nextRoutes, start);
      clean := ok;
      if !ok && exitCode2 { ok := true; }
    }

    method RemoveOwnedBase(seenRules: seq<Rule>, seenRoutes: seq<Route>, ghost start: nat)
      returns (ok: bool, ghost clean: bool)
      requires Shut(start) && seenRules == rules && seenRoutes == routes
      modifies `rules, `routes, `gateOpen, `log
      ensures old(log) <= log && Shut(start)
      ensures old(AllPlain(routes)) ==> AllPlain(routes)
      ensures ok && clean ==> rules == [] && routes == []
      ensures steady ==> ok && clean
    {
      hide AllPlain, Guarded, BlockedBefore;
      ghost var effective;
      clean := true;
      for i := 0 to |seenRules|
        invariant old(log) <= log && Shut(start) && routes == seenRoutes && (clean ==> rules == seenRules[i..])
        invariant steady ==> clean
      {
        assert clean ==> RemoveRule(rules, seenRules[i].priority) == seenRules[i + 1..];
        ok, effective := Delete(RemoveRule(rules, seenRules[i].priority), routes, start);
        clean := clean && effective;
        if !ok { return; }
      }
      for i := 0 to |seenRoutes|
        invariant old(log) <= log && Shut(start) && (clean ==> rules == [] && routes == seenRoutes[i..])
        invariant steady ==> clean
        invariant old(AllPlain(routes)) ==> AllPlain(routes)
      {
        assert clean ==> RemoveRoute(routes, seenRoutes[i]) == seenRoutes[i + 1..];
        if AllPlain(routes) { RemoveKeepsPlain(routes, seenRoutes[i]); }
        ok, effective := Delete(rules, RemoveRoute(routes, seenRoutes[i]), start);
        clean := clean && effective;
        if !ok { return; }
      }
      ok := true;
    }

    method InstallRoutes(plan: Plan, ghost start: nat) returns (ok: bool)
      requires Shut(start)
      modifies `rules, `routes, `gateOpen, `log
      ensures old(log) <= log && Shut(start) && (old(AllPlain(routes)) && AllPlain(plan.routes) ==> AllPlain(routes))
      ensures rules == old(rules)
      ensures ok && Orderly(plan) && old(routes) == [] ==> routes == plan.routes
      ensures steady ==> ok
    {
      hide Plain, Guarded, BlockedBefore;
      for i := 0 to |plan.routes|
        invariant old(log) <= log && Shut(start) && rules == old(rules)
        invariant (old(AllPlain(routes)) && AllPlain(plan.routes) ==> AllPlain(routes))
        invariant Orderly(plan) && old(routes) == [] ==> routes == plan.routes[..i]
      {
        var r := plan.routes[i];
        if AllPlain(routes) && AllPlain(plan.routes) { ReplaceKeepsPlain(routes, r); }
        if Orderly(plan) && old(routes) == [] { ReplaceAppends(routes, r); }
        ok := Mutate(rules, ReplaceRoute(routes, r), start);
        if !ok { return; }
      }
      ok := true;
    }

    method InstallRules(plan: Plan, ghost start: nat) returns (ok: bool)
      requires Shut(start)
      modifies `rules, `routes, `gateOpen, `log
      ensures old(log) <= log && Shut(start) && routes == old(routes)
      ensures ok && Orderly(plan) && old(rules) == [] ==> rules == plan.rules
      ensures steady ==> ok
    {
      hide Guarded, BlockedBefore;
      for i := 0 to |plan.rules|
        invariant old(log) <= log && Shut(start) && routes == old(routes)
        invariant Orderly(plan) && old(rules) == [] ==> rules == plan.rules[..i]
      {
        var r := plan.rules[i];
        ghost var effective;
        if Orderly(plan) && old(rules) == [] { RemoveMisses(rules, r.priority); }
        ok, effective := Delete(RemoveRule(rules, r.priority), routes, start);
        if !ok { return; }
        ok := Mutate(rules + [r], routes, start);
        if !ok { return; }
      }
      ok := true;
    }

    method Replace(plan: Plan, seenRules: seq<Rule>, seenRoutes: seq<Route>, ghost start: nat)
      returns (ok: bool, ghost calm: bool)
      requires Shut(start) && seenRules == rules && seenRoutes == routes
      modifies `rules, `routes, `gateOpen, `log
      ensures old(log) <= log && Shut(start)
      ensures old(AllPlain(routes)) && AllPlain(plan.routes) ==> AllPlain(routes)
      ensures ok && calm && Orderly(plan) ==> rules == plan.rules && routes == plan.routes
      ensures calm && Renderable(plan) ==> ok
      ensures steady ==> calm
    {
      hide AllPlain, Guarded, BlockedBefore;
      calm := false;
      ghost var clean;
      ok, clean := RemoveOwnedBase(seenRules, seenRoutes, start);
      if !ok { return; }
      if !Renderable(plan) { return false, true; }
      ok := InstallRoutes(plan, start);
      if !ok { return; }
      ok := InstallRules(plan, start);
      calm := ok && clean;
    }

    /** The plan is what desiredPlan computed, None where it failed. */
    method SyncRouting(plan: Option<Plan>) returns (ok: bool, ghost calm: bool, ghost gateCalm: bool)
      requires Recorded()
      modifies `rules, `routes, `gateOpen, `log
      // the gate is never opened, and nothing changes while it is open or before this call closed it
      ensures gateOpen ==> old(gateOpen)
      ensures rules != old(rules) || routes != old(routes) ==> !gateOpen
      ensures old(log) <= log && Guarded(log, |old(log)|) && Recorded()
      // success means that the kernel holds the plan
      ensures ok ==> plan.Some?
      ensures ok && old(AllPlain(routes)) && AllPlain(plan.value.routes) ==> Same(rules, routes, plan.value)
      ensures ok && old(Same(rules, routes, plan.value)) && old(AllPlain(routes)) && AllPlain(plan.value.routes) ==>
          rules == old(rules) && routes == old(routes) && gateOpen == old(gateOpen)
      // failure leaves the gate closed, unless there was no plan or the gate itself failed
      ensures !ok && plan.Some? && gateCalm ==> !gateOpen
      ensures plan.None? ==> rules == old(rules) && routes == old(routes)
      // and with no failing call the plan is installed
      ensures calm && plan.Some? && Orderly(plan.value) && AllPlain(plan.value.routes) ==> ok
      ensures steady ==> calm && gateCalm
    {
      hide AllPlain, Same, Orderly, Guarded, BlockedBefore;
      ghost var start := |log|;
      calm, gateCalm := false, true;
      GuardedAtStart(log);
      var valid := Exec();            // the source-mark sysctl
      if !valid { ok := BlockPath(); gateCalm := ok; GuardedAfterBlock(old(log), log); return false, calm, gateCalm; }
      if plan.None? { return false, true, true; }
      var listed := Exec();
      if !listed { ok := BlockPath(); gateCalm := ok; GuardedAfterBlock(old(log), log); return false, calm, gateCalm; }
      var currentRules, currentRoutes := rules, routes;
      var same := Matches(currentRules, currentRoutes, plan.value);
      if same {
        var lookups := Exec();
        if !lookups {
          ok := BlockPath(); gateCalm := ok; GuardedAfterBlock(old(log), log); return false, calm, gateCalm;
        }
        return true, true, true;
      }
      ok := BlockPath();
      GuardedAfterBlock(old(log), log);
      if !ok { return false, false, false; }
      ghost var settled;
      ok, settled := Replace(plan.value, currentRules, currentRoutes, start);
      if !ok {
        listed := Exec();
        if listed {
          ghost var clean;
          ok, clean := RemoveOwnedBase(rules, routes, start);
        }
        OrderlyRenders(plan.value);
        return false, settled, true;
      }
      listed := Exec();
      if !listed { return false, false, true; }
      same := Matches(rules, routes, plan.value);
      if Orderly(plan.value) { SameAsItself(plan.value); }
      if !same { return false, settled, true; }
      var lookups := Exec();
      return lookups, settled && lookups, true;
    }
  }

  lemma OrderlyRenders(plan: Plan)
    ensures Orderly(plan) ==> Renderable(plan)
  {}

  lemma SameAsItself(plan: Plan)
    ensures Same(plan.rules, plan.routes, plan)
  {}

  lemma GuardedAtStart(log: seq<Event>)
    ensures Guarded(log, |log|)
  {}

  lemma GuardedAfterBlock(before: seq<Event>, log: seq<Event>)
    requires log == before || log == before + [Blocked]
    ensures Guarded(log, |before|) && (log != before ==> BlockedBefore(log, |before|, |log|))
  {
    GuardedAtStart(before);
    GuardedGrows(before, |before|, Blocked);
  }
}
