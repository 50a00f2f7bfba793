/** Comparing observed policy routing with the plan through sorted string keys:
    internal/dataplane/routing.go. */
module RoutingKeys {
  import opened Base
  import opened Sorting
  import opened Text

  type u32 = n: nat | n < 0x1_0000_0000

  datatype Rule = Rule(priority: u32, table: u32, fwmark: u32, fwmask: u32)

  datatype Route = Route(table: u32, dst: string, gateway: string, device: string, scope: string)

  datatype Plan = Plan(rules: seq<Rule>, routes: seq<Route>)

  function NormalizeDestination(s: string): string { if s == "" || s == "default" then "0.0.0.0/0" else s }

  function NormalizeScope(s: string): string { if s == "universe" || s == "global" then "" else s }

  function Normal(r: Route): Route { r.(dst := NormalizeDestination(r.dst), scope := NormalizeScope(r.scope)) }

  // ----- keys -----

  function Slash(a: string, rest: string): string { a + "/" + rest }

  function RuleKey(r: Rule): string {
    Slash(Decimal(r.priority), Slash(Decimal(r.table), Slash(Hex(r.fwmark, 8), Hex(r.fwmask, 8))))
  }

  function RouteKey(r: Route): string {
    var link := Slash(r.gateway, Slash(r.device, NormalizeScope(r.scope)));
    Slash(Decimal(r.table), Slash(NormalizeDestination(r.dst), link))
  }

  lemma SlashIsInjective(a: string, x: string, b: string, y: string)
    requires Lacks(a, '/') && Lacks(b, '/') && Slash(a, x) == Slash(b, y)
    ensures a == b && x == y
  {
    var s, t := Slash(a, x), Slash(b, y);
    assert s[..|a|] == a && s[|a|] == '/' && s[|a| + 1..] == x;
    assert t[..|b|] == b && t[|b|] == '/' && t[|b| + 1..] == y;
  }

  lemma RuleKeyIsInjective(a: Rule, b: Rule)
    requires RuleKey(a) == RuleKey(b)
    ensures a == b
  {
    hide Slash, Decimal, Hex;
    DecimalShape(a.priority); DecimalShape(b.priority);
    DecimalShape(a.table); DecimalShape(b.table);
    HexShape(a.fwmark, 8); HexShape(b.fwmark, 8);
    var marksA, marksB := Slash(Hex(a.fwmark, 8), Hex(a.fwmask, 8)), Slash(Hex(b.fwmark, 8), Hex(b.fwmask, 8));
    SlashIsInjective(
      Decimal(a.priority), Slash(Decimal(a.table), marksA), Decimal(b.priority), Slash(Decimal(b.table), marksB));
    SlashIsInjective(Decimal(a.table), marksA, Decimal(b.table), marksB);
    SlashIsInjective(Hex(a.fwmark, 8), Hex(a.fwmask, 8), Hex(b.fwmark, 8), Hex(b.fwmask, 8));
    DecimalIsInjective(a.priority, b.priority);
    DecimalIsInjective(a.table, b.table);
    assert Power16(8) == 0x1_0000_0000;
    HexIsInjective(a.fwmark, b.fwmark, 8);
    HexIsInjective(a.fwmask, b.fwmask, 8);
  }

  predicate SlashAt(s: string, i: int) { 0 <= i < |s| && s[i] == '/' && Lacks(s[..i], '/') && Lacks(s[i + 1..], '/') }

  /** A destination is a prefix, address and length separated by the only slash; gateway and device hold none. */
  ghost predicate Plain(r: Route) {
    (exists i :: SlashAt(NormalizeDestination(r.dst), i)) && Lacks(r.gateway, '/') && Lacks(r.device, '/')
  }

  lemma RouteKeyIsInjective(a: Route, b: Route)
    requires Plain(a) && Plain(b) && RouteKey(a) == RouteKey(b)
    ensures Normal(a) == Normal(b)
  {
    hide Slash, Decimal, Lacks, NormalizeDestination, NormalizeScope;
    TablesLackSlashes(a.table); TablesLackSlashes(b.table);
    var dstA, dstB := NormalizeDestination(a.dst), NormalizeDestination(b.dst);
    var restA, restB := Slash(a.gateway, Slash(a.device, NormalizeScope(a.scope))),
        Slash(b.gateway, Slash(b.device, NormalizeScope(b.scope)));
    SlashIsInjective(Decimal(a.table), Slash(dstA, restA), Decimal(b.table), Slash(dstB, restB));
    DecimalIsInjective(a.table, b.table);
    var i :| SlashAt(dstA, i);
    var j :| SlashAt(dstB, j);
    SplitDestination(dstA, i, restA);
    SplitDestination(dstB, j, restB);
    SlashIsInjective(dstA[..i], Slash(dstA[i + 1..], restA), dstB[..j], Slash(dstB[j + 1..], restB));
    SlashIsInjective(dstA[i + 1..], restA, dstB[j + 1..], restB);
    assert dstA == dstA[..i] + "/" + dstA[i + 1..] && dstB == dstB[..j] + "/" + dstB[j + 1..];
    SlashIsInjective(
      a.gateway, Slash(a.device, NormalizeScope(a.scope)), b.gateway, Slash(b.device, NormalizeScope(b.scope)));
    SlashIsInjective(a.device, NormalizeScope(a.scope), b.device, NormalizeScope(b.scope));
  }

  lemma TablesLackSlashes(n: nat)
    ensures Lacks(Decimal(n), '/')
  {}

  lemma SplitDestination(dst: string, i: int, rest: string)
    requires SlashAt(dst, i)
    ensures Slash(dst, rest) == Slash(dst[..i], Slash(dst[i + 1..], rest))
  {}

  /** Plain is a sufficient condition, and can not just be dropped: these two routes share a key. Neither the kernel nor
      the plan yields such names, whose device or gateway holds a slash. */
  lemma SlashesConfuse()
    ensures var a, b := Route(256, "10.0.0.0/8", "x/y", "z", ""), Route(256, "10.0.0.0/8", "x", "y/z", "");
      RouteKey(a) == RouteKey(b) && Normal(a) != Normal(b)
  {}

  // ----- sort and compare -----

  method Keys<S>(f: S -> string, s: seq<S>) returns (r: seq<string>)
    ensures r == Map(f, s)
  {
    r := [];
    for i := 0 to |s|
      invariant r == Map(f, s[..i])
    {
      r := r + [f(s[i])];
    }
    assert s[..|s|] == s;
  }

  ghost predicate InjectiveOn<S, T>(f: S -> T, a: seq<S>, b: seq<S>) {
    forall i, j :: 0 <= i < |a| && 0 <= j < |b| && f(a[i]) == f(b[j]) ==> a[i] == b[j]
  }

  /** Equal multisets of keys mean equal multisets of elements, where keys are injective. */
  lemma {:induction false} KeysDecide<S, T>(f: S -> T, a: seq<S>, b: seq<S>)
    requires InjectiveOn(f, a, b)
    ensures multiset(Map(f, a)) == multiset(Map(f, b)) <==> multiset(a) == multiset(b)
    decreases |a|
  {
    assert |multiset(a)| == |a| && |multiset(b)| == |b| && |multiset(Map(f, a))| == |a| && |multiset(Map(f, b))| == |b|;
    if a == [] {
      assert multiset(a) == multiset(b) <==> b == [];
    } else if k :| 0 <= k < |b| && b[k] == a[0] {
      WithoutIsRemoval(a, 0);
      WithoutIsRemoval(b, k);
      WithoutIsRemoval(Map(f, a), 0);
      WithoutIsRemoval(Map(f, b), k);
      MapWithout(f, a, 0);
      MapWithout(f, b, k);
      KeysDecide(f, Without(a, 0), Without(b, k));
      CancelCommon(multiset(Without(a, 0)), multiset(Without(b, k)), a[0]);
      CancelCommon(multiset(Without(Map(f, a), 0)), multiset(Without(Map(f, b), k)), f(a[0]));
    } else {
      assert a[0] in multiset(a) && a[0] !in multiset(b);
      assert Map(f, a)[0] in multiset(Map(f, a));
      assert f(a[0]) !in multiset(Map(f, b));
    }
  }

  /** The observed routing is the plan, up to order and to the spelling of defaults. */
  ghost predicate Same(rules: seq<Rule>, routes: seq<Route>, plan: Plan) {
    multiset(rules) == multiset(plan.rules) && multiset(Map(Normal, routes)) == multiset(Map(Normal, plan.routes))
  }

  ghost predicate AllPlain(routes: seq<Route>) { forall i :: 0 <= i < |routes| ==> Plain(routes[i]) }

  method SlicesEqual(a: seq<string>, b: seq<string>) returns (r: bool)
    ensures r <==> a == b
  {
    if |a| != |b| { return false; }
    for i := 0 to |a|
      invariant a[..i] == b[..i]
    {
      if a[i] != b[i] { return false; }
    }
    r := true;
  }

  lemma RuleKeysDecide(a: seq<Rule>, b: seq<Rule>)
    ensures multiset(Map(RuleKey, a)) == multiset(Map(RuleKey, b)) <==> multiset(a) == multiset(b)
  {
    forall i, j | 0 <= i < |a| && 0 <= j < |b| && RuleKey(a[i]) == RuleKey(b[j]) ensures a[i] == b[j] {
      RuleKeyIsInjective(a[i], b[j]);
    }
    KeysDecide(RuleKey, a, b);
  }

  lemma KeyIgnoresSpelling(r: Route)
    ensures RouteKey(Normal(r)) == RouteKey(r) && (Plain(Normal(r)) <==> Plain(r))
  {}

  lemma RouteKeysDecide(a: seq<Route>, b: seq<Route>)
    requires AllPlain(a) && AllPlain(b)
    ensures multiset(Map(RouteKey, a)) == multiset(Map(RouteKey, b))
      <==> multiset(Map(Normal, a)) == multiset(Map(Normal, b))
  {
    var x, y := Map(Normal, a), Map(Normal, b);
    forall i, j | 0 <= i < |x| && 0 <= j < |y| && RouteKey(x[i]) == RouteKey(y[j]) ensures x[i] == y[j] {
      KeyIgnoresSpelling(a[i]);
      KeyIgnoresSpelling(b[j]);
      RouteKeyIsInjective(a[i], b[j]);
    }
    KeysDecide(RouteKey, x, y);
    forall i | 0 <= i < |a| ensures RouteKey(x[i]) == RouteKey(a[i]) { KeyIgnoresSpelling(a[i]); }
    forall j | 0 <= j < |b| ensures RouteKey(y[j]) == RouteKey(b[j]) { KeyIgnoresSpelling(b[j]); }
    assert Map(RouteKey, x) == Map(RouteKey, a) && Map(RouteKey, y) == Map(RouteKey, b);
  }

  lemma SortedKeysDecide(a: seq<string>, b: seq<string>)
    ensures Sort(StringLe, a) == Sort(StringLe, b) <==> multiset(a) == multiset(b)
  {
    var dom := (set x | x in a) + (set x | x in b);
    StringsAreOrdered(dom);
    SortDecidesPermutation(StringLe, a, b, dom);
  }

  /** Sorting the keys and comparing them decides whether the observed routing is the plan. */
  method Matches(rules: seq<Rule>, routes: seq<Route>, plan: Plan) returns (r: bool)
    ensures AllPlain(routes) && AllPlain(plan.routes) ==> (r <==> Same(rules, routes, plan))
  {
    hide RuleKey, RouteKey, Normal, StringLe;
    var desiredRules := Keys(RuleKey, plan.rules);
    var observedRules := Keys(RuleKey, rules);
    var desiredRoutes := Keys(RouteKey, plan.routes);
    var observedRoutes := Keys(RouteKey, routes);
    SortedKeysDecide(desiredRules, observedRules);
    SortedKeysDecide(desiredRoutes, observedRoutes);
    RuleKeysDecide(plan.rules, rules);
    if AllPlain(routes) && AllPlain(plan.routes) { RouteKeysDecide(plan.routes, routes); }
    desiredRules, observedRules := Sort(StringLe, desiredRules), Sort(StringLe, observedRules);
    desiredRoutes, observedRoutes := Sort(StringLe, desiredRoutes), Sort(StringLe, observedRoutes);
    var sameRules := SlicesEqual(desiredRules, observedRules);
    var sameRoutes := SlicesEqual(desiredRoutes, observedRoutes);
    r := sameRules && sameRoutes;
  }
}
