/** The data-plane gate: internal/dataplane/firewall.go. */
module Firewall {
  import opened Base
  import opened Sorting

  const MAX_U32: nat := 0xFFFF_FFFF

  type u32 = n: nat | n <= MAX_U32

  const WG: string := "wg-ingress"

  datatype Mode = NoMode | Tun | Direct | OtherMode(text: string)

  datatype PathState = PathState(
    active: bool, mode: Mode, generation: u32, interface: string, mark: u32, routeGeneration: u32)

  const BLOCKED: PathState := PathState(false, NoMode, 0, "", 0, 0)

  predicate ValidName(s: string) {
    0 < |s| <= 15 && forall i :: 0 <= i < |s| ==>
      'a' <= s[i] <= 'z' || 'A' <= s[i] <= 'Z' || '0' <= s[i] <= '9' || s[i] in "_-.:"
  }

  /** The collections that decide what is forwarded. */
  datatype Gate = Gate(
    tun: set<string>, interfaces: set<string>, contexts: set<(string, u32)>, marks: map<string, u32>,
    generations: set<u32>, routeGenerations: set<u32>)

  const CLOSED: Gate := Gate({}, {}, {}, map[], {}, {})

  datatype Table = Table(gate: Gate, sources: set<string>)

  /** What a path state means for the gate. */
  function GateOf(s: PathState, tun: string, lan: string): Gate {
    if !s.active then CLOSED
    else if s.mode == Tun then Gate({tun}, {}, {}, map[], {s.generation}, {})
    else Gate({}, {s.interface}, {(s.interface, s.mark)}, map[lan := s.mark, WG := s.mark], {s.generation},
        {s.routeGeneration})
  }

  // ----- rendering -----

  datatype Command =
    | FlushTun | FlushInterfaces | FlushContexts | FlushMarks | FlushGenerations | FlushRouteGenerations | FlushSources
    | AddSource(prefix: string) | AddGeneration(n: u32) | AddTun(name: string) | AddRouteGeneration(n: u32)
    | AddInterface(name: string) | AddContext(name: string, mark: u32) | AddMark(name: string, mark: u32)

  /** One nft command. A map key can not be given a second value: that fails the transaction. */
  function Step(t: Table, c: Command): Option<Table> {
    var g := t.gate;
    match c
    case FlushTun => Some(t.(gate := g.(tun := {})))
    case FlushInterfaces => Some(t.(gate := g.(interfaces := {})))
    case FlushContexts => Some(t.(gate := g.(contexts := {})))
    case FlushMarks => Some(t.(gate := g.(marks := map[])))
    case FlushGenerations => Some(t.(gate := g.(generations := {})))
    case FlushRouteGenerations => Some(t.(gate := g.(routeGenerations := {})))
    case FlushSources => Some(t.(sources := {}))
    case AddSource(p) => Some(t.(sources := t.sources + {p}))
    case AddGeneration(n) => Some(t.(gate := g.(generations := g.generations + {n})))
    case AddTun(name) => Some(t.(gate := g.(tun := g.tun + {name})))
    case AddRouteGeneration(n) => Some(t.(gate := g.(routeGenerations := g.routeGenerations + {n})))
    case AddInterface(name) => Some(t.(gate := g.(interfaces := g.interfaces + {name})))
    case AddContext(name, mark) => Some(t.(gate := g.(contexts := g.contexts + {(name, mark)})))
    case AddMark(name, mark) =>
      if name in g.marks && g.marks[name] != mark then None
      else Some(t.(gate := g.(marks := g.marks[name := mark])))
  }

  /** An nft transaction: all commands in order, or nothing. */
  function Execute(t: Table, cs: seq<Command>): Option<Table>
    decreases |cs|
  {
    if cs == [] then Some(t)
    else match Step(t, cs[0])
      case None => None
      case Some(next) => Execute(next, cs[1..])
  }

  lemma {:induction false} ExecuteParts(t: Table, a: seq<Command>, b: seq<Command>)
    ensures Execute(t, a + b) == match Execute(t, a) case None => None case Some(m) => Execute(m, b)
    decreases |a|
  {
    if a == [] {
      assert a + b == b;
    } else {
      assert (a + b)[0] == a[0] && (a + b)[1..] == a[1..] + b;
      match Step(t, a[0]) {
        case None =>
        case Some(next) => ExecuteParts(next, a[1..], b);
      }
    }
  }

  predicate Renderable(s: PathState, lan: string) {
    if !s.active then s == BLOCKED
    else match s.mode
      case Tun => s.generation != 0 && s.interface == "" && s.mark == 0 && s.routeGeneration == 0
      case Direct => s.generation != 0 && s.routeGeneration != 0 && s.mark != 0 && ValidName(s.interface)
        && ValidName(lan)
      case _ => false
  }

  /** Text of an IPv4 prefix to its canonical form; None where the prefix is refused. */
  type Canon = string -> Option<string>

  ghost predicate AllValid(values: seq<string>, canon: Canon) {
    forall i :: 0 <= i < |values| ==> canon(values[i]).Some?
  }

  ghost predicate Canonical(values: seq<string>, canon: Canon, prefixes: set<string>) {
    && (forall i :: 0 <= i < |values| ==> canon(values[i]).Some? && canon(values[i]).value in prefixes)
    && (forall p | p in prefixes :: exists i :: 0 <= i < |values| && canon(values[i]) == Some(p))
  }

  method Canonicalize(values: seq<string>, canon: Canon) returns (r: Option<seq<string>>)
    ensures r.Some? <==> AllValid(values, canon)
    ensures r.Some? ==> Canonical(values, canon, set p | p in r.value) && Sorted(StringLe, r.value)
  {
    var seen: set<string> := {};
    var kept: seq<string> := [];
    for i := 0 to |values|
      invariant AllValid(values[..i], canon) && Canonical(values[..i], canon, seen)
      invariant seen == set p | p in kept
    {
      assert values[..i + 1] == values[..i] + [values[i]];
      var prefix := canon(values[i]);
      if prefix.None? { return None; }
      if prefix.value in seen { continue; }
      ghost var upTo := values[..i + 1];
      forall p | p in seen ensures exists k :: 0 <= k < |upTo| && canon(upTo[k]) == Some(p) {
        var k :| 0 <= k < i && canon(values[..i][k]) == Some(p);
        assert canon(upTo[k]) == Some(p);
      }
      assert canon(upTo[i]) == Some(prefix.value);
      seen := seen + {prefix.value};
      kept := kept + [prefix.value];
    }
    assert values[..|values|] == values;
    StringsAreOrdered(seen);
    SortSorts(StringLe, kept, seen);
    var sorted := Sort(StringLe, kept);
    assert forall p :: p in sorted <==> p in kept by {
      forall p ensures p in sorted <==> p in kept {
        assert p in multiset(sorted) <==> p in multiset(kept);
      }
    }
    assert (set p | p in sorted) == seen;
    r := Some(sorted);
  }

  function Flushes(): seq<Command> {
    [FlushTun, FlushInterfaces, FlushContexts, FlushMarks, FlushGenerations, FlushRouteGenerations, FlushSources]
  }

  function Additions(s: PathState, tun: string, lan: string): seq<Command> {
    if !s.active then []
    else if s.mode == Tun then [AddGeneration(s.generation), AddTun(tun)]
    else [AddGeneration(s.generation), AddRouteGeneration(s.routeGeneration), AddInterface(s.interface),
          AddContext(s.interface, s.mark), AddMark(lan, s.mark)]
         + if lan != WG then [AddMark(WG, s.mark)] else []
  }

  /** The rendered transaction opens exactly the gate that the state means, over any previous table. */
  method Render(s: PathState, tun: string, lan: string, values: seq<string>, canon: Canon)
    returns (r: Option<seq<Command>>)
    ensures r.Some? <==> Renderable(s, lan) && AllValid(values, canon)
    ensures r.Some? ==> forall t :: Execute(t, r.value).Some?
    ensures r.Some? ==> forall t :: Execute(t, r.value).value.gate == GateOf(s, tun, lan)
    ensures r.Some? && !s.active ==> forall t :: Execute(t, r.value).value.sources == {}
    ensures r.Some? && s.active ==> forall t :: Canonical(values, canon, Execute(t, r.value).value.sources)
  {
    hide Renderable, AllValid, Canonical, GateOf, Additions, Execute, Step;
    if !Renderable(s, lan) { return None; }
    var canonical := Canonicalize(values, canon);
    if canonical.None? { return None; }
    var commands := Flushes();
    ghost var added: set<string> := {};
    forall t ensures Execute(t, commands) == Some(Table(CLOSED, {})) { FlushesClose(t); }
    if s.active {
      for i := 0 to |canonical.value|
        invariant added == set p | p in canonical.value[..i]
        invariant forall t :: Execute(t, commands) == Some(Table(CLOSED, added))
      {
        ghost var before, more := commands, added + {canonical.value[i]};
        commands := commands + [AddSource(canonical.value[i])];
        forall t ensures Execute(t, commands) == Some(Table(CLOSED, more)) {
          ExecuteParts(t, before, [AddSource(canonical.value[i])]);
          AddingSource(Table(CLOSED, added), canonical.value[i]);
        }
        added := more;
        assert canonical.value[..i + 1] == canonical.value[..i] + [canonical.value[i]];
      }
      assert canonical.value[..|canonical.value|] == canonical.value;
    }
    ghost var before := commands;
    commands := commands + Additions(s, tun, lan);
    forall t ensures Execute(t, commands) == Some(Table(GateOf(s, tun, lan), added)) {
      ExecuteParts(t, before, Additions(s, tun, lan));
      AdditionsOpen(s, tun, lan, added);
    }
    r := Some(commands);
  }

  lemma ExecuteFirst(t: Table, c: Command, cs: seq<Command>)
    requires Step(t, c).Some?
    ensures Execute(t, [c] + cs) == Execute(Step(t, c).value, cs)
  {}

  lemma FlushesClose(t: Table)
    ensures Execute(t, Flushes()) == Some(Table(CLOSED, {}))
  {}

  lemma ExecuteNone(t: Table)
    ensures Execute(t, []) == Some(t)
  {}

  lemma AddingSource(t: Table, prefix: string)
    ensures Execute(t, [AddSource(prefix)]) == Some(t.(sources := t.sources + {prefix}))
  {}

  lemma AdditionsOpen(s: PathState, tun: string, lan: string, sources: set<string>)
    ensures Execute(Table(CLOSED, sources), Additions(s, tun, lan)) == Some(Table(GateOf(s, tun, lan), sources))
  {
    hide Execute;
    if !s.active {
      ExecuteNone(Table(CLOSED, sources));
    } else if s.mode == Tun {
      TunOpens(s.generation, tun, sources);
      assert Additions(s, tun, lan) == [AddGeneration(s.generation)] + [AddTun(tun)];
    } else {
      DirectOpens(s, lan, sources);
    }
  }

  lemma TunOpens(generation: u32, tun: string, sources: set<string>)
    ensures Execute(Table(CLOSED, sources), [AddGeneration(generation)] + [AddTun(tun)])
        == Some(Table(Gate({tun}, {}, {}, map[], {generation}, {}), sources))
  {
    hide Execute;
    var t0, t1 := Table(CLOSED, sources), Table(CLOSED.(generations := {generation}), sources);
    var t2 := Table(Gate({tun}, {}, {}, map[], {generation}, {}), sources);
    ExecuteFirst(t0, AddGeneration(generation), [AddTun(tun)]);
    assert Step(t0, AddGeneration(generation)).value == t1;
    ExecuteFirst(t1, AddTun(tun), []);
    assert [AddTun(tun)] + [] == [AddTun(tun)];
    assert Step(t1, AddTun(tun)).value == t2;
    ExecuteNone(t2);
  }

  lemma DirectOpens(s: PathState, lan: string, sources: set<string>)
    requires s.active && s.mode != Tun
    ensures Execute(Table(CLOSED, sources), Additions(s, "", lan)) == Some(Table(GateOf(s, "", lan), sources))
  {
    hide Execute;
    var last := if lan != WG then [AddMark(WG, s.mark)] else [];
    var a4 := [AddMark(lan, s.mark)] + last;
    var a3 := [AddContext(s.interface, s.mark)] + a4;
    var a2 := [AddInterface(s.interface)] + a3;
    var a1 := [AddRouteGeneration(s.routeGeneration)] + a2;
    assert Additions(s, "", lan) == [AddGeneration(s.generation)] + a1;
    var t0 := Table(CLOSED, sources);
    var t1 := t0.(gate := t0.gate.(generations := {s.generation}));
    var t2 := t1.(gate := t1.gate.(routeGenerations := {s.routeGeneration}));
    var t3 := t2.(gate := t2.gate.(interfaces := {s.interface}));
    var t4 := t3.(gate := t3.gate.(contexts := {(s.interface, s.mark)}));
    var t5 := t4.(gate := t4.gate.(marks := map[lan := s.mark]));
    var t6 := t5.(gate := t5.gate.(marks := map[lan := s.mark, WG := s.mark]));
    ExecuteFirst(t0, AddGeneration(s.generation), a1);
    assert Step(t0, AddGeneration(s.generation)).value == t1;
    ExecuteFirst(t1, AddRouteGeneration(s.routeGeneration), a2);
    assert Step(t1, AddRouteGeneration(s.routeGeneration)).value == t2;
    ExecuteFirst(t2, AddInterface(s.interface), a3);
    assert Step(t2, AddInterface(s.interface)).value == t3;
    ExecuteFirst(t3, AddContext(s.interface, s.mark), a4);
    assert Step(t3, AddContext(s.interface, s.mark)).value == t4;
    ExecuteFirst(t4, AddMark(lan, s.mark), last);
    assert Step(t4, AddMark(lan, s.mark)).value == t5;
    ExecuteNone(t6);
    if lan != WG {
      ExecuteFirst(t5, AddMark(WG, s.mark), []);
      assert Step(t5, AddMark(WG, s.mark)).value == t6;
      assert [AddMark(WG, s.mark)] + [] == last;
    } else {
      assert t5.gate.marks == t6.gate.marks;
    }
  }
}
