/** Priorities of access methods: internal/accesspolicy/repository.go over the table of
    migrations/000014_unified_access_policy.sql, whose unique index covers enabled rows. */
module Priorities {
  import opened Base

  datatype Row = Row(enabled: bool, priority: int)

  type Table = map<string, Row>

  /** Conflict: the unique index refused an update. Faulted: the database failed. */
  datatype Code = Done | Invalid | NotFound | Mismatch | Conflict | Faulted

  function EnabledIds(t: Table): set<string> { set id | id in t && t[id].enabled }

  /** What the unique index and the check constraint demand of every committed or intermediate table. */
  predicate Indexed(t: Table) {
    && (forall id | id in t :: t[id].priority > 0)
    && (forall a, b | a in t && b in t && a != b && t[a].enabled && t[b].enabled :: t[a].priority != t[b].priority)
  }

  predicate Spaced(t: Table) {
    forall id | id in t && t[id].enabled :: t[id].priority % 10 == 0
  }

  predicate Inv(t: Table) { Indexed(t) && Spaced(t) }

  /** COALESCE(MAX(priority), 0) over the given rows. */
  predicate IsMaximum(t: Table, ids: set<string>, m: int)
    requires ids <= t.Keys
  {
    && (ids == {} ==> m == 0)
    && (ids != {} ==> exists id :: id in ids && t[id].priority == m)
    && (forall id | id in ids :: t[id].priority <= m)
  }

  lemma MaximumIsUnique(t: Table, ids: set<string>, m: int, n: int)
    requires ids <= t.Keys && IsMaximum(t, ids, m) && IsMaximum(t, ids, n)
    ensures m == n
  {}

  method Maximum(t: Table, ids: set<string>) returns (m: int)
    requires ids <= t.Keys && Indexed(t)
    ensures IsMaximum(t, ids, m)
  {
    m := 0;
    var seen: set<string> := {};
    ghost var best := "";
    while seen != ids
      invariant seen <= ids
      invariant seen == {} ==> m == 0
      invariant seen != {} ==> best in seen && t[best].priority == m
      invariant forall id | id in seen :: t[id].priority <= m
      decreases ids - seen
    {
      assert ids - seen != {};
      var id :| id in ids - seen;
      seen := seen + {id};
      if t[id].priority > m { m, best := t[id].priority, id; }
    }
  }

  predicate NoDuplicates(ids: seq<string>) {
    forall i, j :: 0 <= i < j < |ids| ==> ids[i] != ids[j]
  }

  /** The requested order names every enabled method exactly once, and nothing else. */
  ghost predicate CompleteOrder(t: Table, ids: seq<string>) {
    && (forall i :: 0 <= i < |ids| ==> !Blank(ids[i]))
    && NoDuplicates(ids)
    && (forall id :: id in ids <==> id in t && t[id].enabled)
  }

  /** The final priority of the i-th method is the temporary priority of the j-th. */
  predicate Meets(m: int, i: int, j: int) { 10 * (i + 1) == m + j + 1 }

  /** Some final priority would meet the temporary priority of a method not yet placed. */
  predicate Collides(m: int, n: nat) {
    exists i, j :: 0 <= i < j < n && Meets(m, i, j)
  }

  // ----- why the invariant keeps the two passes apart -----

  lemma TensBelow(p: int, k: int)
    requires p % 10 == 0 && p <= 10 * k && p != 10 * k
    ensures p <= 10 * (k - 1)
  {}

  lemma {:induction false} RoomForAll(t: Table, ids: set<string>, k: nat)
    requires Inv(t) && ids <= EnabledIds(t)
    requires forall id | id in ids :: t[id].priority <= 10 * k
    ensures |ids| <= k
    decreases k
  {
    if k == 0 {
      assert ids == {};
    } else if id :| id in ids && t[id].priority == 10 * k {
      forall other | other in ids - {id} ensures t[other].priority <= 10 * (k - 1) { TensBelow(t[other].priority, k); }
      RoomForAll(t, ids - {id}, k - 1);
    } else {
      forall other | other in ids ensures t[other].priority <= 10 * (k - 1) { TensBelow(t[other].priority, k); }
      RoomForAll(t, ids, k - 1);
    }
  }

  /** n distinct positive multiples of ten reach at least 10 n. */
  lemma MaximumReaches(t: Table, m: int)
    requires Inv(t) && IsMaximum(t, t.Keys, m)
    ensures 10 * |EnabledIds(t)| <= m
  {
    if EnabledIds(t) != {} {
      assert m > 0;
      RoomForAll(t, EnabledIds(t), m / 10);
    }
  }

  lemma SpacedNeverCollides(t: Table, m: int)
    requires Inv(t) && IsMaximum(t, t.Keys, m)
    ensures !Collides(m, |EnabledIds(t)|)
  {
    MaximumReaches(t, m);
  }

  lemma OneToTenCollide()
    ensures Collides(10, 10)
  {
    assert Meets(10, 1, 9);
  }

  /** The collision test without quantifiers over both passes: some multiple of ten lies in a window of m and n. */
  lemma CollidesExactly(m: int, n: nat)
    requires m >= 0
    ensures Collides(m, n) <==> exists k :: 1 <= k < n && m < 9 * k && 10 * k <= m + n
  {
    if k :| 1 <= k < n && m < 9 * k && 10 * k <= m + n {
      var i, j := k - 1, 10 * k - m - 1;
      assert 0 <= i < j < n && Meets(m, i, j);
    }
    if i, j :| 0 <= i < j < n && Meets(m, i, j) {
      var k := i + 1;
      assert 1 <= k < n && m < 9 * k && 10 * k <= m + n;
    }
  }

  // ----- the two passes -----

  /** After i updates of the first pass. */
  ghost predicate Staged(was: Table, t: Table, ids: seq<string>, m: int, i: nat)
    requires i <= |ids|
  {
    && t.Keys == was.Keys
    && (forall id | id in t :: t[id].enabled == was[id].enabled)
    && (forall j :: 0 <= j < i ==> ids[j] in t && t[ids[j]].priority == m + j + 1)
    && (forall id | id in t && id !in ids[..i] :: t[id] == was[id])
  }

  /** After i updates of the second pass. */
  ghost predicate Placed(was: Table, t: Table, ids: seq<string>, m: int, i: nat)
    requires i <= |ids|
  {
    && t.Keys == was.Keys
    && (forall id | id in t :: t[id].enabled == was[id].enabled)
    && (forall j :: 0 <= j < i ==> ids[j] in t && t[ids[j]].priority == 10 * (j + 1))
    && (forall j :: i <= j < |ids| ==> ids[j] in t && t[ids[j]].priority == m + j + 1)
    && (forall id | id in t && id !in ids :: t[id] == was[id])
  }

  lemma StagingStarts(was: Table, ids: seq<string>, m: int)
    ensures Staged(was, was, ids, m, 0)
  {}

  lemma PlacingStarts(was: Table, t: Table, ids: seq<string>, m: int)
    requires Staged(was, t, ids, m, |ids|)
    ensures Placed(was, t, ids, m, 0)
  {}

  lemma PlacingEnds(was: Table, t: Table, ids: seq<string>, m: int)
    requires CompleteOrder(was, ids) && Placed(was, t, ids, m, |ids|)
    ensures Reordered(was, t, ids)
  {}

  lemma StagingStep(was: Table, t: Table, ids: seq<string>, m: int, i: nat)
    requires i < |ids| && Indexed(was) && CompleteOrder(was, ids) && IsMaximum(was, was.Keys, m)
    requires Staged(was, t, ids, m, i)
    ensures ids[i] in t
    ensures Staged(was, t[ids[i] := t[ids[i]].(priority := m + i + 1)], ids, m, i + 1)
  {}

  lemma StagingKeepsIndex(was: Table, t: Table, ids: seq<string>, m: int, i: nat)
    requires i <= |ids| && Indexed(was) && IsMaximum(was, was.Keys, m) && Staged(was, t, ids, m, i)
    ensures Indexed(t)
  {}

  lemma PlacingStep(was: Table, t: Table, ids: seq<string>, m: int, i: nat)
    requires i < |ids| && CompleteOrder(was, ids) && Placed(was, t, ids, m, i)
    ensures ids[i] in t && t[ids[i]].enabled
    ensures Placed(was, t[ids[i] := t[ids[i]].(priority := 10 * (i + 1))], ids, m, i + 1)
  {}

  /** Where the index admits the i-th placement, no method still waiting has that priority. */
  lemma AdmittedIsFree(was: Table, t: Table, ids: seq<string>, m: int, i: nat)
    requires i < |ids| && CompleteOrder(was, ids) && Placed(was, t, ids, m, i + 1) && Indexed(t)
    ensures forall j :: i < j < |ids| ==> !Meets(m, i, j)
  {
    forall j | i < j < |ids| ensures !Meets(m, i, j) {
      assert ids[i] in ids && ids[j] in ids && ids[i] != ids[j];
      assert t[ids[i]].priority == 10 * (i + 1) && t[ids[j]].priority == m + j + 1;
    }
  }

  lemma PlacingKeepsIndex(was: Table, t: Table, ids: seq<string>, m: int, i: nat)
    requires i <= |ids| && Indexed(was) && CompleteOrder(was, ids) && IsMaximum(was, was.Keys, m)
    requires Placed(was, t, ids, m, i)
    requires !Collides(m, |ids|)
    ensures Indexed(t)
  {
    assert m >= 0;
    forall a, b | a in t && b in t && a != b && t[a].enabled && t[b].enabled ensures t[a].priority != t[b].priority {
      assert a in ids && b in ids;
      var x :| 0 <= x < |ids| && ids[x] == a;
      var y :| 0 <= y < |ids| && ids[y] == b;
      assert x < y ==> !Meets(m, x, y);
      assert y < x ==> !Meets(m, y, x);
    }
    forall id | id in t ensures t[id].priority > 0 {
      if id in ids { var x :| 0 <= x < |ids| && ids[x] == id; }
    }
  }

  lemma {:induction false} DistinctSize(ids: seq<string>, s: set<string>)
    requires NoDuplicates(ids) && forall id :: id in s <==> id in ids
    ensures |s| == |ids|
  {
    if ids == [] {
      assert s == {};
    } else {
      DistinctSize(ids[1..], s - {ids[0]});
    }
  }

  lemma {:induction false} EqualBySize(small: set<string>, large: set<string>)
    requires small <= large && |small| == |large|
    ensures small == large
  {
    if id :| id in small {
      EqualBySize(small - {id}, large - {id});
    } else {
      assert small == {};
    }
  }

  /** What a completed reorder leaves: the requested order, ten apart, and every other row as it was. */
  ghost predicate Reordered(was: Table, t: Table, ids: seq<string>) {
    && t.Keys == was.Keys
    && (forall j :: 0 <= j < |ids| ==> ids[j] in t && t[ids[j]] == Row(true, 10 * (j + 1)))
    && (forall id | id in t && id !in ids :: t[id] == was[id])
  }

  lemma ReorderedIsSpaced(was: Table, t: Table, ids: seq<string>)
    requires Inv(was) && CompleteOrder(was, ids) && Reordered(was, t, ids)
    ensures Inv(t)
  {
    forall id | id in t ensures t[id].priority > 0 && (t[id].enabled ==> t[id].priority % 10 == 0) {
      if id in ids { var x :| 0 <= x < |ids| && ids[x] == id; }
    }
    forall a, b | a in t && b in t && a != b && t[a].enabled && t[b].enabled ensures t[a].priority != t[b].priority {
      assert a in ids && b in ids;
      var x :| 0 <= x < |ids| && ids[x] == a;
      var y :| 0 <= y < |ids| && ids[y] == b;
    }
  }

  /** An appended method gets the last place, ten after the largest enabled priority. */
  lemma AppendingKeeps(t: Table, id: string, m: int)
    requires Inv(t) && (id in t ==> !t[id].enabled) && IsMaximum(t, EnabledIds(t), m)
    ensures Inv(t[id := Row(true, m + 10)])
  {}

  lemma DisablingKeeps(t: Table, id: string)
    requires Inv(t) && id in t
    ensures Inv(t[id := Row(false, t[id].priority)])
  {}

  const DIRECT: string := "access:direct"

  function MethodId(subscription: string): string { "access:subscription:" + subscription }

  /** The rows that the migration makes of the subscriptions: theirs, ten places on, and the direct method before them.
      */
  ghost predicate IsMigration(subscriptions: map<string, Row>, t: Table) {
    && DIRECT in t && t[DIRECT] == Row(true, 10)
    && (forall id | id in subscriptions :: MethodId(id) in t
           && t[MethodId(id)] == Row(subscriptions[id].enabled, subscriptions[id].priority + 10))
    && (forall m | m in t :: m == DIRECT || exists id :: id in subscriptions && m == MethodId(id))
  }

  lemma MigrationIsSpaced(subscriptions: map<string, Row>, t: Table)
    requires Inv(subscriptions) && IsMigration(subscriptions, t)
    ensures Inv(t)
  {
    hide MethodId;
    forall a, b | a in t && b in t && a != b && t[a].enabled && t[b].enabled ensures t[a].priority != t[b].priority {
      if a != DIRECT && b != DIRECT {
        var x :| x in subscriptions && a == MethodId(x);
        var y :| y in subscriptions && b == MethodId(y);
        assert x != y;
      }
    }
  }

  // ----- steps of a run -----

  ghost predicate EnabledStep(id: string, enabled: bool, t: Table, u: Table, c: Code) {
    && (c != Done ==> u == t) && (c == Invalid <==> Blank(id)) && (c == NotFound ==> id !in t) && c != Conflict
    && c != Mismatch
    && (c == Done ==> id in t)
    && (c == Done && t[id].enabled == enabled ==> u == t)
    && (c == Done && !enabled ==> u == t[id := t[id].(enabled := false)])
    && (c == Done && enabled && !t[id].enabled ==>
         id in u && u == t[id := Row(true, u[id].priority)] && IsMaximum(t, EnabledIds(t), u[id].priority - 10))
  }

  ghost predicate CreateStep(id: string, t: Table, u: Table, c: Code) {
    && (c == Done || c == Conflict || c == Faulted) && (c != Done ==> u == t) && (c == Conflict <==> id in t)
    && (c == Done ==>
         id in u && u == t[id := Row(true, u[id].priority)] && IsMaximum(t, EnabledIds(t), u[id].priority - 10))
  }

  ghost predicate ReorderStep(ids: seq<string>, t: Table, u: Table, c: Code) {
    && c in {Done, Mismatch, Conflict, Faulted} && (c != Done ==> u == t)
    && (c == Done ==> Reordered(t, u, ids)) && (c == Mismatch ==> !CompleteOrder(t, ids))
    && (c == Done || c == Conflict ==> CompleteOrder(t, ids))
    && (forall m :: IsMaximum(t, t.Keys, m) ==>
         (c == Done ==> !Collides(m, |ids|)) && (c == Conflict ==> Collides(m, |ids|)))
  }

  ghost predicate Step(e: Event, t: Table, u: Table, c: Code) {
    match e
    case SetEnabled(id, enabled) => EnabledStep(id, enabled, t, u, c)
    case Create(id) => CreateStep(id, t, u, c)
    case Delete(id) => c == Done && u == t - {id}
    case Reorder(ids) => ReorderStep(ids, t, u, c)
  }

  ghost predicate Follows(events: seq<Event>, tables: seq<Table>, log: seq<Code>, undisturbed: seq<bool>, k: nat) {
    k < |events| && k < |log| && k < |undisturbed| && k + 1 < |tables| && (undisturbed[k] ==>
      log[k] != Faulted) && Step(events[k], tables[k], tables[k + 1], log[k])
  }

  datatype Event = SetEnabled(id: string,
      enabled: bool) | Create(id: string) | Delete(id: string) | Reorder(ids: seq<string>)

  class Repository {
    var table: Table
    var generation: nat
    var steady: bool            // the database will not fail in the call at hand

    /** After the migration, on a new installation or an upgraded one. */
    constructor (ghost subscriptions: map<string, Row>, rows: Table)
      requires Inv(subscriptions) && IsMigration(subscriptions, rows)
      ensures Inv(table) && table == rows && generation == 1
    {
      MigrationIsSpaced(subscriptions, rows);
      table := rows;
      generation, steady := 1, false;
    }

    /** A table as it may stand in some database. */
    constructor Loaded(table: Table, steady: bool)
      ensures this.table == table && generation == 1 && this.steady == steady
    {
      this.table := table;
      this.generation, this.steady := 1, steady;
    }

    /** One statement of a transaction, which may fail for reasons of its own. */
    method Exec() returns (ok: bool)
      ensures steady ==> ok
    {
      ok := *;
      if steady { ok := true; }
    }

    /** The ids as a set, unless one is blank or repeated. */
    method Collect(ids: seq<string>) returns (r: Option<set<string>>)
      ensures r.None? <==> !(NoDuplicates(ids) && forall i :: 0 <= i < |ids| ==> !Blank(ids[i]))
      ensures r.Some? ==> forall id :: id in r.value <==> id in ids
    {
      hide Blank;
      var seen: set<string> := {};
      for i := 0 to |ids|
        invariant forall id :: id in seen <==> id in ids[..i]
        invariant forall j :: 0 <= j < i ==> !Blank(ids[j])
        invariant NoDuplicates(ids[..i])
      {
        assert ids[..i + 1] == ids[..i] + [ids[i]];
        if Blank(ids[i]) || ids[i] in seen { return None; }
        seen := seen + {ids[i]};
      }
      assert ids[..|ids|] == ids;
      r := Some(seen);
    }

    /** Accepts exactly the complete orders. */
    method ValidateEnabledMethods(ids: seq<string>) returns (ok: bool)
      ensures ok <==> CompleteOrder(table, ids)
    {
      hide Blank, NoDuplicates;
      var collected := Collect(ids);
      if collected.None? { return false; }
      var seen := collected.value;
      var rows := EnabledIds(table);
      var read: set<string> := {};
      while read != rows
        invariant read <= rows && read <= seen
        decreases rows - read
      {
        assert rows - read != {};
        var id :| id in rows - read;
        if id !in seen { return false; }
        read := read + {id};
      }
      DistinctSize(ids, seen);
      if |read| == |ids| { EqualBySize(rows, seen); }
      ok := |read| == |ids|;
      if CompleteOrder(table, ids) { assert rows == seen; }
    }

    method SetMethodEnabled(id: string, enabled: bool) returns (c: Code)
      requires Inv(table)
      modifies `table, `generation
      ensures Inv(table) && EnabledStep(id, enabled, old(table), table, c) && (steady ==> c != Faulted)
      ensures generation == old(generation) + if c == Done && old(table)[id].enabled != enabled then 1 else 0
    {
      hide Blank, Indexed, Spaced;
      if Blank(id) { return Invalid; }
      var ok := Exec();
      if !ok { return Faulted; }
      if id !in table { return NotFound; }
      var row := table[id];
      if enabled == row.enabled { return Done; }
      var priority := row.priority;
      if enabled {
        var m := Maximum(table, EnabledIds(table));
        AppendingKeeps(table, id, m);
        priority := m + 10;
      } else {
        DisablingKeeps(table, id);
      }
      var next := table[id := Row(enabled, priority)];
      if !Indexed(next) { return Conflict; }
      ok := Exec();
      if !ok { return Faulted; }
      table := next;
      generation := generation + 1;
      c := Done;
    }

    /** First pass of ReorderEnabled: move every method above all priorities in use. */
    method Stage(ids: seq<string>, m: int) returns (c: Code, t: Table)
      requires Indexed(table) && CompleteOrder(table, ids) && IsMaximum(table, table.Keys, m)
      ensures c == Done || (c == Faulted && !steady)
      ensures c == Done ==> Staged(table, t, ids, m, |ids|)
    {
      hide Blank, Staged, Indexed, CompleteOrder, IsMaximum;
      t := table;
      StagingStarts(table, ids, m);
      for i := 0 to |ids|
        invariant Staged(table, t, ids, m, i)
      {
        var ok := Exec();
        if !ok { return Faulted, t; }
        StagingStep(table, t, ids, m, i);
        var next := t[ids[i] := t[ids[i]].(priority := m + i + 1)];
        StagingKeepsIndex(table, next, ids, m, i + 1);
        if !Indexed(next) { return Conflict, t; }
        t := next;
      }
      c := Done;
    }

    /** Second pass: the final priorities, one statement at a time, each checked by the index. */
    method Place(ids: seq<string>, m: int, staged: Table) returns (c: Code, t: Table)
      requires Indexed(table) && CompleteOrder(table, ids) && IsMaximum(table, table.Keys, m)
      requires Staged(table, staged, ids, m, |ids|)
      ensures c == Done || (c == Faulted && !steady) || c == Conflict
      ensures c == Done ==> Reordered(table, t, ids) && !Collides(m, |ids|)
      ensures c == Conflict ==> Collides(m, |ids|)
    {
      hide Staged, Placed, Indexed, CompleteOrder, IsMaximum, Reordered, Meets;
      t := staged;
      PlacingStarts(table, t, ids, m);
      for i := 0 to |ids|
        invariant Placed(table, t, ids, m, i)
        invariant forall a, b :: 0 <= a < b < |ids| && a < i ==> !Meets(m, a, b)
      {
        var ok := Exec();
        if !ok { return Faulted, t; }
        PlacingStep(table, t, ids, m, i);
        if ids[i] !in t || !t[ids[i]].enabled { return Mismatch, t; }
        var next := t[ids[i] := t[ids[i]].(priority := 10 * (i + 1))];
        if !Indexed(next) {
          if !Collides(m, |ids|) { PlacingKeepsIndex(table, next, ids, m, i + 1); }
          return Conflict, t;
        }
        AdmittedIsFree(table, next, ids, m, i);
        t := next;
      }
      PlacingEnds(table, t, ids, m);
      c := Done;
    }

    /** For any table the index admits: the reorder ends in a conflict exactly when the two passes collide. */
    method ReorderEnabled(ids: seq<string>) returns (c: Code)
      requires Indexed(table)
      modifies `table, `generation
      ensures ReorderStep(ids, old(table), table, c) && (steady ==> c != Faulted)
      ensures generation == old(generation) + if c == Done then 1 else 0
      ensures old(Inv(table)) ==> Inv(table) && c != Conflict
    {
      hide CompleteOrder, Collides, Reordered, Staged;
      var valid := ValidateEnabledMethods(ids);
      if !valid { return Mismatch; }
      var m := Maximum(table, table.Keys);
      forall n | IsMaximum(table, table.Keys, n) ensures n == m { MaximumIsUnique(table, table.Keys, n, m); }
      ghost var size := |EnabledIds(table)|;
      CompleteSize(table, ids);
      if Inv(table) { SpacedNeverCollides(table, m); }
      var t: Table;
      c, t := Stage(ids, m);
      if c != Done { return; }
      c, t := Place(ids, m, t);
      if c != Done { return; }
      var ok := Exec();
      if !ok { return Faulted; }
      if Inv(table) { ReorderedIsSpaced(table, t, ids); }
      table := t;
      generation := generation + 1;
    }

    /** The method a new subscription brings. */
    method CreateMethod(id: string) returns (c: Code)
      requires Inv(table)
      modifies `table, `generation
      ensures Inv(table) && CreateStep(id, old(table), table, c) && (steady ==> c != Faulted)
    {
      if id in table { return Conflict; }
      var m := Maximum(table, EnabledIds(table));
      var ok := Exec();
      if !ok { return Faulted; }
      AppendingKeeps(table, id, m);
      table := table[id := Row(true, m + 10)];
      generation := generation + 1;
      c := Done;
    }

    /** Deleting a subscription deletes its method. */
    method DeleteMethod(id: string)
      requires Inv(table)
      modifies `table, `generation
      ensures Inv(table) && table == old(table) - {id}
    {
      table := table - {id};
    }

    method Perform(e: Event, undisturbed: bool) returns (c: Code)
      requires Inv(table)
      modifies this
      ensures Inv(table) && Step(e, old(table), table, c)
      ensures e.Reorder? ==> c != Conflict
      ensures undisturbed ==> c != Faulted
    {
      hide Inv, EnabledStep, CreateStep, ReorderStep;
      c, steady := Done, undisturbed;
      match e {
        case SetEnabled(id, enabled) => { c := SetMethodEnabled(id, enabled); }
        case Create(id) => { c := CreateMethod(id); }
        case Delete(id) => { DeleteMethod(id); }
        case Reorder(ids) => { assert Indexed(table) by { InvIsIndexed(table); } c := ReorderEnabled(ids); }
      }
    }

    /** Over every run each event has its code and its table, enabled priorities stay distinct positive multiples of ten
        and no reorder ever meets the unique index. */
    method Run(events: seq<Event>, undisturbed: seq<bool>) returns (log: seq<Code>, ghost tables: seq<Table>)
      requires Inv(table) && |undisturbed| == |events|
      modifies this
      ensures |log| == |events| && |tables| == |events| + 1 && tables[0] == old(table) && tables[|events|] == table
      ensures forall k :: 0 <= k < |events| ==> Follows(events, tables, log, undisturbed, k)
      ensures forall k :: 0 <= k < |tables| ==> Inv(tables[k])
      ensures forall k :: 0 <= k < |events| && events[k].Reorder? ==> log[k] != Conflict
    {
      hide Inv, Step;
      log, tables := [], [table];
      for i := 0 to |events|
        invariant Inv(table) && |log| == i && |tables| == i + 1 && tables[0] == old(table) && tables[i] == table
        invariant forall k :: 0 <= k < i ==> Follows(events, tables, log, undisturbed, k)
        invariant forall k :: 0 <= k < |tables| ==> Inv(tables[k])
        invariant forall k :: 0 <= k < i && events[k].Reorder? ==> log[k] != Conflict
      {
        var c := Perform(events[i], undisturbed[i]);
        ghost var pastTables, past := tables, log;
        log, tables := log + [c], tables + [table];
        forall k | 0 <= k < i ensures Follows(events, tables, log, undisturbed, k) {
          assert Follows(events, pastTables, past, undisturbed, k);
        }
      }
    }
  }

  lemma InvIsIndexed(t: Table)
    requires Inv(t)
    ensures Indexed(t)
  {}

  // ----- the reorder without the invariant -----

  function Name(i: nat): (s: string)
    ensures |s| == i + 1 && !Blank(s)
  {
    var s := seq(i + 1, _ => 'x');
    assert !IsSpace(s[0]);
    s
  }

  function Names(n: nat): (ids: seq<string>)
    ensures |ids| == n && forall i :: 0 <= i < n ==> ids[i] == Name(i)
  {
    seq(n, i requires 0 <= i => Name(i))
  }

  /** n enabled methods with priorities 1 to n. */
  function Crowded(n: nat): Table {
    if n == 0 then map[] else Crowded(n - 1)[Name(n - 1) := Row(true, n)]
  }

  lemma {:induction false} CrowdedHas(n: nat, i: nat)
    requires i < n
    ensures Name(i) in Crowded(n) && Crowded(n)[Name(i)] == Row(true, i + 1)
  {
    if i < n - 1 { CrowdedHas(n - 1, i); }
  }

  lemma {:induction false} CrowdedRow(n: nat, id: string)
    requires id in Crowded(n)
    ensures Crowded(n)[id] == Row(true, |id|) && 0 < |id| <= n && id == Name(|id| - 1)
  {
    if id != Name(n - 1) { CrowdedRow(n - 1, id); }
  }

  lemma CrowdedIsIndexed(n: nat)
    ensures Indexed(Crowded(n))
  {
    hide Name, Names, Crowded;
    var t := Crowded(n);
    forall id | id in t ensures t[id].priority > 0 { CrowdedRow(n, id); }
    forall a, b | a in t && b in t && a != b && t[a].enabled && t[b].enabled ensures t[a].priority != t[b].priority {
      CrowdedRow(n, a);
      CrowdedRow(n, b);
    }
  }

  lemma CrowdedIsComplete(n: nat)
    ensures CompleteOrder(Crowded(n), Names(n))
  {}

  lemma CrowdedMaximum(n: nat)
    requires n > 0
    ensures IsMaximum(Crowded(n), Crowded(n).Keys, n)
  {
    hide Name, Names, Crowded;
    var t := Crowded(n);
    CrowdedHas(n, n - 1);
    assert t[Name(n - 1)].priority == n;
    forall id | id in t ensures t[id].priority <= n { CrowdedRow(n, id); }
  }

  /** Ten enabled methods with priorities 1 to 10 satisfy the index, and still no order of theirs can be stored again.
      */
  method OneToTenIsRefused() returns (c: Code)
    ensures c == Conflict
  {
    hide CompleteOrder, Indexed, IsMaximum;
    var repository := new Repository.Loaded(Crowded(10), true);
    CrowdedIsIndexed(10);
    CrowdedIsComplete(10);
    CrowdedMaximum(10);
    OneToTenCollide();
    c := repository.ReorderEnabled(Names(10));
  }

  lemma CompleteSize(t: Table, ids: seq<string>)
    requires CompleteOrder(t, ids)
    ensures |EnabledIds(t)| == |ids|
  {
    DistinctSize(ids, EnabledIds(t));
  }
}
