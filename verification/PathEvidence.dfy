/**
 Generation-fenced evidence for direct paths. Probers measure slowly and publish
 late; target edits and route changes move generations under them. A path may be
 ranked FULL only on evidence that covers every required target of today's policy.

 Tables are maps, a transaction is one atomic step. A direct path is keyed by its
 uplink: its id is "direct:path:" followed by the uplink id.
 */
module PathEvidence {
  import opened Base

  type Id = string

  datatype Class = GlobalRequired | GlobalOptional | WhitelistIndicator | ServiceEndpoint

  datatype Target = Target(enabled: bool, required: bool, class_: Class)

  datatype UplinkState = UplinkReady | SubnetClash | NotReady

  datatype Uplink = Uplink(enabled: bool, state: UplinkState, route: int)

  datatype Quality = Unknown | Full | Limited | WhitelistOnly | Failing

  datatype PathState =
    | UplinkDisabled | SubnetConflict | UplinkOffline | Untested | Stale | Qualified | Degraded | PathFailed

  datatype Transport = Unprobed | Passed | NotPassed

  datatype Tally = Tally(passed: nat, total: nat)

  datatype Path = Path(
    state: PathState, transport: Transport, quality: Quality, score: nat,
    required: Tally, optional: Tally, whitelist: Tally,
    policy: int, route: int, expires: Option<int>)

  datatype Row = Row(class_: Class, passed: bool, policy: int, route: int)

  datatype Db = Db(
    targets: map<Id, Target>,        // bypass_probe_targets
    uplinks: map<Id, Uplink>,
    paths: map<Id, Path>,            // direct_uplink_paths
    rows: map<(Id, Id), Row>,        // direct_uplink_path_target_results, by path and target
    policy: int)                     // the current policy generation

  datatype TargetResult = TargetResult(id: Id, class_: Class, passed: bool, latency: int, checkedAt: int,
      expiresAt: int)

  datatype Update = Update(
    path: Id, policy: int, route: int, transport: Transport, quality: Quality, score: int,
    requiredPassed: int, requiredTotal: int, optionalPassed: int, optionalTotal: int,
    whitelistPassed: int, whitelistTotal: int, latency: int,
    checkedAt: int, expiresAt: int, targets: seq<TargetResult>)

  predicate Probed(c: Class) { c != ServiceEndpoint }

  /** The enabled targets of one class. */
  function Active(db: Db, c: Class): set<Id> {
    set t | t in db.targets && db.targets[t].enabled && db.targets[t].class_ == c
  }

  /** The targets with a result of class `c` for this path in these generations, joined with enabled targets. */
  function Measured(db: Db, path: Id, c: Class, policy: int, route: int): set<Id> {
    set k | k in db.rows && k.0 == path && db.rows[k].class_ == c && db.rows[k].policy == policy
      && db.rows[k].route == route
            && k.1 in db.targets && db.targets[k.1].enabled :: k.1
  }

  function MeasuredPassed(db: Db, path: Id, c: Class, policy: int, route: int): set<Id> {
    set t | t in Measured(db, path, c, policy, route) && db.rows[(path, t)].passed
  }

  predicate ValidResult(t: TargetResult) {
    t.id != "" && Probed(t.class_) && t.latency >= 0 && t.checkedAt < t.expiresAt
  }

  /** validateDirectResult */
  predicate ValidUpdate(u: Update) {
    && u.path != "" && u.policy >= 0 && u.route >= 0 && u.checkedAt < u.expiresAt
    && u.transport != Unprobed && u.quality != Unknown
    && u.score >= 0 && u.latency >= 0
    && 0 <= u.requiredPassed <= u.requiredTotal && 0 <= u.optionalPassed <= u.optionalTotal
    && 0 <= u.whitelistPassed <= u.whitelistTotal
    && |u.targets| == u.requiredTotal + u.optionalTotal + u.whitelistTotal
    && (u.quality == Full ==> u.transport == Passed && u.requiredTotal > 0 && u.requiredPassed == u.requiredTotal)
    && (u.quality == Limited ==>
         u.transport == Passed && u.score > 0 && !(u.requiredTotal > 0 && u.requiredPassed == u.requiredTotal))
    && (u.quality == WhitelistOnly ==> u.transport == Passed && u.score > 0)
    && (u.quality == WhitelistOnly ==> u.requiredPassed == 0 && u.optionalPassed == 0 && u.whitelistPassed > 0)
    && (forall i :: 0 <= i < |u.targets| ==> ValidResult(u.targets[i]))
  }

  // ----- the invariant -----

  /** The evidence behind a FULL path: measured in the current policy generation and in the path's own
      route generation, covering exactly the enabled required targets, all of which passed. */
  predicate Backed(db: Db, u: Id) requires u in db.paths {
    var p := db.paths[u];
    && p.transport == Passed && p.expires.Some? && p.policy == db.policy
    && Active(db, GlobalRequired) != {}
    && MeasuredPassed(db, u, GlobalRequired, p.policy, p.route) == Active(db, GlobalRequired)
  }

  predicate Inv(db: Db) {
    && (forall u :: u in db.paths && db.paths[u].quality == Full ==> Backed(db, u))
    && (forall t :: t in db.targets ==> (db.targets[t].required <==> db.targets[t].class_ == GlobalRequired))
  }

  /** The WHERE clause of the direct half of Candidates, for the generation it read before. */
  predicate Listed(db: Db, directEnabled: bool, u: Id, policy: int, now: int) {
    && u in db.paths && u in db.uplinks && directEnabled
    && var p, up := db.paths[u], db.uplinks[u];
       && up.enabled && up.state == UplinkReady
       && ((p.quality == Full && p.state == Qualified)
              || (p.quality in {Limited, WhitelistOnly} && p.state == Degraded))
       && p.transport == Passed && p.expires.Some? && p.expires.value > now
       && p.policy == policy && p.route == up.route
  }

  /** A path that is listed as FULL has unexpired evidence in which every target that is enabled and
      GLOBAL_REQUIRED at that policy generation passed, over the route the uplink has now. */
  lemma FullIsBacked(db: Db, directEnabled: bool, u: Id, policy: int, now: int, t: Id)
    requires Inv(db) && Listed(db, directEnabled, u, policy, now) && db.paths[u].quality == Full
    requires t in db.targets && db.targets[t].enabled && db.targets[t].class_ == GlobalRequired
    ensures policy == db.policy && db.paths[u].expires.value > now
    ensures (u, t) in db.rows && db.rows[(u, t)] == Row(GlobalRequired, true, policy, db.uplinks[u].route)
  {
    assert t in Active(db, GlobalRequired);
    assert t in MeasuredPassed(db, u, GlobalRequired, policy, db.paths[u].route);
  }

  /** Either the path is not FULL, or every required target of the current policy passed over the current route. */
  predicate Proven(db: Db, u: Id) {
    && u in db.paths && u in db.uplinks
    && (db.paths[u].quality == Full ==>
          forall t :: t in Active(db, GlobalRequired) ==>
            (u, t) in db.rows && db.rows[(u, t)] == Row(GlobalRequired, true, db.policy, db.uplinks[u].route))
  }

  lemma SameSize<T>(a: set<T>, b: set<T>)
    requires a <= b && |a| == |b|
    ensures a == b
  {
    if a != b {
      var x :| x in b && x !in a;
      assert a <= b - {x};
      SubsetSize(a, b - {x});
    }
  }

  lemma {:induction false} SubsetSize<T>(a: set<T>, b: set<T>)
    requires a <= b
    ensures |a| <= |b|
  {
    if a != {} {
      var x :| x in a;
      SubsetSize(a - {x}, b - {x});
    }
  }

  // ----- steps as functions of the database -----

  /** store.InvalidatePathPolicy: a new generation, and no path keeps a result. */
  function Invalidated(db: Db): (r: Db)
    ensures r.policy == db.policy + 1 && r.paths.Keys == db.paths.Keys
    ensures forall u :: u in r.paths ==> r.paths[u].quality == Unknown && r.paths[u].expires.None?
  {
    db.(policy := db.policy + 1,
        paths := map u | u in db.paths :: var p := db.paths[u];
          var idle := p.state in {UplinkDisabled, UplinkOffline};
          p.(policy := db.policy + 1, state := if idle then p.state else Stale,
             transport := if idle then p.transport else Unprobed,
             quality := Unknown, score := 0,
             required := p.required.(passed := 0), optional := p.optional.(passed := 0),
                 whitelist := p.whitelist.(passed := 0),
             expires := None))
  }

  function BlockedState(up: Uplink): Option<PathState> {
    if !up.enabled then Some(UplinkDisabled)
    else if up.state == SubnetClash then Some(SubnetConflict)
    else if up.state != UplinkReady then Some(UplinkOffline)
    else None
  }

  /** One row of the refresh statement of Reconcile. */
  function Refreshed(p: Path, up: Uplink, policy: int): Path {
    var moved := p.policy != policy || p.route != up.route;
    var blocked := BlockedState(up);
    var q := if blocked.Some? || moved
             then p.(transport := Unprobed, quality := Unknown, score := 0, required := p.required.(passed := 0),
                     optional := p.optional.(passed := 0), whitelist := p.whitelist.(passed := 0), expires := None)
             else p;
    q.(state := if blocked.Some? then blocked.value else if moved then Stale
                else if p.state in {UplinkDisabled, SubnetConflict, UplinkOffline} then Untested else p.state,
       policy := policy, route := up.route)
  }

  function Reconciled(db: Db): (r: Db)
  {
    var created := map u | u in db.uplinks && u !in db.paths ::
      var up := db.uplinks[u];
      Path(match BlockedState(up) case Some(s) => s case None => Untested, Unprobed, Unknown, 0,
           Tally(0, 0), Tally(0, 0), Tally(0, 0), db.policy, up.route, None);
    var all := db.paths + created;
    db.(paths := map u | u in all :: if u in db.uplinks then Refreshed(all[u], db.uplinks[u], db.policy) else all[u])
  }

  /** No result survives into another policy or route generation. */
  lemma ReconcileFences(db: Db, u: Id)
    requires Inv(db) && u in db.uplinks
    ensures u in Reconciled(db).paths
    ensures var p := Reconciled(db).paths[u];
      && p.policy == db.policy && p.route == db.uplinks[u].route
      && (p.quality != Unknown || p.expires.Some? ==>
           u in db.paths && db.paths[u].policy == p.policy && db.paths[u].route == p.route)
      && (BlockedState(db.uplinks[u]).Some? ==>
           p.quality == Unknown && p.expires.None? && p.transport == Unprobed && p.required.passed == 0)
  {
  }

  lemma ReconcileKeeps(db: Db)
    requires Inv(db)
    ensures Inv(Reconciled(db))
  {
    var r := Reconciled(db);
    forall u | u in r.paths && r.paths[u].quality == Full
      ensures Backed(r, u)
    {
      assert Backed(db, u);
      assert r.paths[u].route == db.paths[u].route && r.paths[u].policy == db.paths[u].policy;
      SameEvidence(db, r, u, db.paths[u].policy, db.paths[u].route);
    }
  }

  lemma SameEvidence(a: Db, b: Db, u: Id, policy: int, route: int)
    requires a.targets == b.targets && forall t :: (u, t) in a.rows <==> (u, t) in b.rows
    requires forall t :: (u, t) in a.rows ==> a.rows[(u, t)] == b.rows[(u, t)]
    ensures Active(a, GlobalRequired) == Active(b, GlobalRequired)
    ensures MeasuredPassed(a, u, GlobalRequired, policy, route) == MeasuredPassed(b, u, GlobalRequired, policy, route)
  {}

  // ----- Publish -----

  /** The table after the targets of `u` up to `n` were inserted over the deleted old results. */
  predicate Inserted(db: Db, u: Update, rows: map<(Id, Id), Row>, n: nat) requires n <= |u.targets| {
    && (forall k :: k in rows && k.0 != u.path ==> k in db.rows && rows[k] == db.rows[k])
    && (forall k :: k in db.rows && k.0 != u.path ==> k in rows)
    && (forall k :: k in rows && k.0 == u.path && Probed(rows[k].class_) ==>
         exists i :: 0 <= i < n && u.targets[i].id == k.1)
    && (forall i :: 0 <= i < n ==> Accepted(db, u, rows, u.targets[i]))
  }

  /** One inserted result: an enabled target of the stated class, stored with the expected generations. */
  predicate Accepted(db: Db, u: Update, rows: map<(Id, Id), Row>, t: TargetResult) {
    && Insertable(db, t)
    && (u.path, t.id) in rows && rows[(u.path, t.id)] == Row(t.class_, t.passed, u.policy, u.route)
  }

  predicate Insertable(db: Db, t: TargetResult) {
    t.id in db.targets && db.targets[t.id].enabled && db.targets[t.id].class_ == t.class_ && Probed(t.class_)
  }

  lemma MeasuredAreActive(db: Db, u: Update, rows: map<(Id, Id), Row>, c: Class)
    requires Inserted(db, u, rows, |u.targets|) && Probed(c)
    ensures Measured(db.(rows := rows), u.path, c, u.policy, u.route) <= Active(db, c)
  {}

  /** The count checks force exact coverage: equally many results as active targets, each result an active target. */
  lemma CountsForceCoverage(db: Db, u: Update, rows: map<(Id, Id), Row>, c: Class)
    requires Inserted(db, u, rows, |u.targets|) && Probed(c)
    requires |Measured(db.(rows := rows), u.path, c, u.policy, u.route)| == |Active(db, c)|
    ensures Covered(db.(rows := rows), u, c)
    ensures |MeasuredPassed(db.(rows := rows), u.path, c, u.policy, u.route)| == |Active(db, c)| ==>
      MeasuredPassed(db.(rows := rows), u.path, c, u.policy, u.route) == Active(db, c)
  {
    var e := db.(rows := rows);
    MeasuredAreActive(db, u, rows, c);
    SameSize(Measured(e, u.path, c, u.policy, u.route), Active(db, c));
    if |MeasuredPassed(e, u.path, c, u.policy, u.route)| == |Active(db, c)| {
      SameSize(MeasuredPassed(e, u.path, c, u.policy, u.route), Active(db, c));
    }
  }

  /** The stored results of class `c` are those of the active targets, no more and no fewer. */
  predicate Covered(db: Db, u: Update, c: Class) {
    Measured(db, u.path, c, u.policy, u.route) == Active(db, c)
  }

  lemma CoverageSurvives(a: Db, b: Db, u: Update, c: Class)
    requires a.targets == b.targets && a.rows == b.rows && Covered(a, u, c)
    ensures Covered(b, u, c)
  {}

  datatype Publication = Published | StaleGeneration | InvalidResult | Mismatch

  function PublishedPath(p: Path, u: Update): Path requires ValidUpdate(u) {
    p.(state := match u.quality case Full => Qualified case Limited => Degraded case WhitelistOnly => Degraded
      case _ => PathFailed,
       transport := u.transport, quality := u.quality, score := u.score,
       required := Tally(u.requiredPassed, u.requiredTotal), optional := Tally(u.optionalPassed, u.optionalTotal),
       whitelist := Tally(u.whitelistPassed, u.whitelistTotal), expires := Some(u.expiresAt))
  }

  predicate CountsMatch(db: Db, u: Update, c: Class, passed: int, total: int) {
    |MeasuredPassed(db, u.path, c, u.policy, u.route)| == passed
      && |Measured(db, u.path, c, u.policy, u.route)| == total
  }

  lemma PublishKeeps(db: Db, u: Update, rows: map<(Id, Id), Row>)
    requires Inv(db) && ValidUpdate(u) && u.path in db.paths && u.policy == db.policy
    requires db.paths[u.path].policy == u.policy && db.paths[u.path].route == u.route
    requires Inserted(db, u, rows, |u.targets|)
    requires CountsMatch(db.(rows := rows), u, GlobalRequired, u.requiredPassed, u.requiredTotal)
    requires u.requiredTotal == |Active(db, GlobalRequired)|
    ensures Inv(db.(rows := rows, paths := db.paths[u.path := PublishedPath(db.paths[u.path], u)]))
  {
    var r := db.(rows := rows, paths := db.paths[u.path := PublishedPath(db.paths[u.path], u)]);
    forall v | v in r.paths && r.paths[v].quality == Full
      ensures Backed(r, v)
    {
      if v == u.path {
        CountsForceCoverage(db, u, rows, GlobalRequired);
        SameEvidence(db.(rows := rows), r, v, u.policy, u.route);
        assert |Active(r, GlobalRequired)| > 0;
      } else {
        assert Backed(db, v);
        SameEvidence(db, r, v, db.paths[v].policy, db.paths[v].route);
      }
    }
  }

  // ----- the repository -----

  /** The first n targets are insertable and name different ids. */
  ghost predicate Fine(db: Db, targets: seq<TargetResult>, n: nat) requires n <= |targets| {
    (forall i :: 0 <= i < n ==> Insertable(db, targets[i])) && forall i, j :: 0 <= i < j < n ==>
      targets[i].id != targets[j].id
  }

  /** The results after the first n targets of `u` replaced the old ones of its path. */
  function RowsAfter(db: Db, u: Update, n: nat): map<(Id, Id), Row> requires n <= |u.targets| {
    if n == 0 then map k | k in db.rows && !(k.0 == u.path && Probed(db.rows[k].class_)) :: db.rows[k]
    else var t := u.targets[n - 1];
      RowsAfter(db, u, n - 1)[(u.path, t.id) := Row(t.class_, t.passed, u.policy, u.route)]
  }

  lemma {:induction false} RowsAreInserted(db: Db, u: Update, n: nat)
    requires n <= |u.targets| && Fine(db, u.targets, n)
    ensures Inserted(db, u, RowsAfter(db, u, n), n)
  {
    hide Insertable, Probed;
    if n > 0 {
      RowsAreInserted(db, u, n - 1);
      var rows, next, t := RowsAfter(db, u, n - 1), RowsAfter(db, u, n), u.targets[n - 1];
      forall i | 0 <= i < n ensures Accepted(db, u, next, u.targets[i]) {
        if i < n - 1 { assert Accepted(db, u, rows, u.targets[i]); }
      }
      assert u.targets[n - 1].id == t.id;
    }
  }

  /** The targets of class `c` that the update names, and those it names as passed. */
  function Named(u: Update, c: Class): set<Id> {
    set i | 0 <= i < |u.targets| && u.targets[i].class_ == c :: u.targets[i].id
  }

  function NamedPassed(u: Update, c: Class): set<Id> {
    set i | 0 <= i < |u.targets| && u.targets[i].class_ == c && u.targets[i].passed :: u.targets[i].id
  }

  /** What is stored for the path in these generations is what the update names. */
  lemma MeasuredAreNamed(db: Db, u: Update, rows: map<(Id, Id), Row>, c: Class)
    requires Inserted(db, u, rows, |u.targets|) && Fine(db, u.targets, |u.targets|) && Probed(c)
    ensures var e := db.(rows := rows);
      Measured(e, u.path, c, u.policy, u.route) == Named(u, c)
        && MeasuredPassed(e, u.path, c, u.policy, u.route) == NamedPassed(u, c)
  {
    hide Probed, Insertable;
    var e := db.(rows := rows);
    forall t ensures t in Measured(e, u.path, c, u.policy, u.route) <==> t in Named(u, c) {
      if t in Measured(e, u.path, c, u.policy, u.route) {
        assert (u.path, t) in rows && rows[(u.path, t)].class_ == c;
        var i :| 0 <= i < |u.targets| && u.targets[i].id == t;
        assert Accepted(db, u, rows, u.targets[i]);
      }
      if i :| 0 <= i < |u.targets| && u.targets[i].class_ == c && u.targets[i].id == t {
        assert Accepted(db, u, rows, u.targets[i]);
        NamedIsEnabled(db, u.targets[i]);
        assert (u.path, t) in e.rows;
      }
    }
    forall t ensures t in MeasuredPassed(e, u.path, c, u.policy, u.route) <==> t in NamedPassed(u, c) {
      if t in Named(u, c) {
        var i :| 0 <= i < |u.targets| && u.targets[i].class_ == c && u.targets[i].id == t;
        assert Accepted(db, u, rows, u.targets[i]);
      }
    }
  }

  lemma NamedIsEnabled(db: Db, t: TargetResult)
    requires Insertable(db, t)
    ensures t.id in db.targets && db.targets[t.id].enabled && db.targets[t.id].class_ == t.class_
  {}

  /** One class of the update is exact: it names the active targets, all of them, and counts them and the passed. */
  ghost predicate ExactClass(db: Db, u: Update, c: Class, passed: int, total: int) {
    Named(u, c) == Active(db, c) && |Named(u, c)| == total && |NamedPassed(u, c)| == passed
  }

  /** The update names every active target once, under its class, and nothing else. */
  ghost predicate Exact(db: Db, u: Update) {
    && Fine(db, u.targets, |u.targets|)
    && ExactClass(db, u, GlobalRequired, u.requiredPassed, u.requiredTotal)
    && ExactClass(db, u, GlobalOptional, u.optionalPassed, u.optionalTotal)
    && ExactClass(db, u, WhitelistIndicator, u.whitelistPassed, u.whitelistTotal)
  }

  /** The two count queries of Publish decide exactness. */
  lemma CountsDecide(db: Db, u: Update, rows: map<(Id, Id), Row>, c: Class, passed: int, total: int)
    requires Inserted(db, u, rows, |u.targets|) && Fine(db, u.targets, |u.targets|) && Probed(c)
    ensures ExactClass(db, u, c, passed, total)
      <==> CountsMatch(db.(rows := rows), u, c, passed, total) && total == |Active(db, c)|
  {
    hide Inserted, Fine, Measured, MeasuredPassed, Named, NamedPassed, Active;
    MeasuredAreNamed(db, u, rows, c);
    MeasuredAreActive(db, u, rows, c);
    if |Named(u, c)| == |Active(db, c)| { SameSize(Named(u, c), Active(db, c)); }
  }

  /** Replaces the results of the path: each target once, each an enabled target of the stated class. */
  method InsertTargets(db: Db, u: Update) returns (ok: bool, rows: map<(Id, Id), Row>)
    ensures ok ==> rows == RowsAfter(db, u, |u.targets|)
    ensures ok <==> Fine(db, u.targets, |u.targets|)
  {
    hide Insertable;
    rows := map k | k in db.rows && !(k.0 == u.path && Probed(db.rows[k].class_)) :: db.rows[k];
    var seen: set<Id> := {};
    var n := 0;
    while n < |u.targets|
      invariant 0 <= n <= |u.targets|
      invariant rows == RowsAfter(db, u, n) && Fine(db, u.targets, n)
      invariant forall i :: 0 <= i < n ==> u.targets[i].id in seen
      invariant forall t :: t in seen ==> exists i :: 0 <= i < n && u.targets[i].id == t
    {
      var t := u.targets[n];
      if t.id in seen {
        return false, map[];
      }
      seen := seen + {t.id};
      if !Insertable(db, t) {
        return false, map[];
      }
      rows := rows[(u.path, t.id) := Row(t.class_, t.passed, u.policy, u.route)];
      n := n + 1;
    }
    ok := true;
  }

  // ----- what each event makes of the database -----

  ghost predicate Publishes(db: Db, u: Update) { ValidUpdate(u) && Current(db, u) && Exact(db, u) }

  function WithResult(db: Db, u: Update): Db
    requires ValidUpdate(u) && u.path in db.paths
  {
    db.(rows := RowsAfter(db, u, |u.targets|), paths := db.paths[u.path := PublishedPath(db.paths[u.path], u)])
  }

  predicate Creates(db: Db, id: Id, class_: Class, required: bool) {
    id != "" && id !in db.targets && (required <==> class_ == GlobalRequired)
  }

  function WithTarget(db: Db, id: Id, t: Target): Db { Invalidated(db.(targets := db.targets[id := t])) }

  /** An empty class keeps the stored one. */
  function Chosen(db: Db, id: Id, class_: Option<Class>): Class requires id in db.targets {
    if class_.Some? then class_.value else db.targets[id].class_
  }

  /** The last required target is given up only with confirmation. */
  predicate Edits(db: Db, id: Id, enabled: bool, required: bool, class_: Option<Class>, confirmed: bool) {
    && id != "" && id in db.targets && (required <==> Chosen(db, id, class_) == GlobalRequired)
    && (db.targets[id].enabled && db.targets[id].required && (!enabled || !required) && !confirmed ==>
         OtherRequired(db, id) != {})
  }

  predicate Deletes(db: Db, id: Id, confirmed: bool) {
    id in db.targets && (db.targets[id].enabled && db.targets[id].required && !confirmed ==>
      OtherRequired(db, id) != {})
  }

  /** The results of a deleted target go with it. */
  function WithoutTarget(db: Db, id: Id): Db {
    Invalidated(db.(targets := db.targets - {id}, rows := map k | k in db.rows && k.1 != id :: db.rows[k]))
  }

  function Booted(db: Db): Db {
    db.(rows := map[],
        paths := map u | u in db.paths :: db.paths[u].(state := Stale, transport := Unprobed, quality := Unknown,
      score := 0, required := Tally(0, 0), optional := Tally(0, 0), whitelist := Tally(0, 0), expires := None))
  }

  ghost function After(db: Db, e: Event): Db {
    match e
    case Create(id, class_, required) => if Creates(db, id, class_, required) then
      WithTarget(db, id, Target(true, required, class_)) else db
    case Edit(id, enabled, required, class_, confirmed) =>
      if Edits(db, id, enabled, required, class_, confirmed) then
        WithTarget(db, id, Target(enabled, required, Chosen(db, id, class_))) else db
    case Delete(id, confirmed) => if Deletes(db, id, confirmed) then WithoutTarget(db, id) else db
    case Reorder => Invalidated(db)
    case Route(id, up) => db.(uplinks := db.uplinks[id := up])
    case Boot => Booted(db)
    case Refresh => Reconciled(db)
    case Report(u) => if Publishes(db, u) then WithResult(db, u) else db
    case List(_, _, _) => db
  }

  class Store {
    var db: Db

    constructor ()
      ensures Inv(db)
    {
      db := Db(map[], map[], map[], map[], 0);
    }

    method Reconcile()
      requires Inv(db)
      modifies this
      ensures Inv(db) && db == Reconciled(old(db))
    {
      ReconcileKeeps(db);
      db := Reconciled(db);
    }

    /** Published exactly when the update is valid, its generations are current and it is exact. */
    method Publish(u: Update) returns (r: Publication)
      requires Inv(db)
      modifies this
      ensures Inv(db) && db == After(old(db), Report(u))
      ensures r == Published <==> Publishes(old(db), u)
      ensures r == InvalidResult <==> !ValidUpdate(u)
      ensures r == StaleGeneration <==> ValidUpdate(u) && !Current(old(db), u)
      ensures r == Published ==> forall c :: Probed(c) ==> Covered(db, u, c)
    {
      hide Measured, MeasuredPassed, Active, Inserted, Inv, Fine, Named, NamedPassed, RowsAfter, ExactClass;
      if !ValidUpdate(u) {
        return InvalidResult;
      }
      if u.policy != db.policy {
        return StaleGeneration;
      }
      if u.path !in db.paths || db.paths[u.path].policy != u.policy || db.paths[u.path].route != u.route
         || u.path !in db.uplinks || db.uplinks[u.path].route != u.route {
        return StaleGeneration;
      }
      var ok, rows := InsertTargets(db, u);
      if !ok {
        return Mismatch;
      }
      RowsAreInserted(db, u, |u.targets|);
      CountsDecide(db, u, rows, GlobalRequired, u.requiredPassed, u.requiredTotal);
      CountsDecide(db, u, rows, GlobalOptional, u.optionalPassed, u.optionalTotal);
      CountsDecide(db, u, rows, WhitelistIndicator, u.whitelistPassed, u.whitelistTotal);
      var staged := db.(rows := rows);
      if !CountsMatch(staged, u, GlobalRequired, u.requiredPassed, u.requiredTotal)
         || !CountsMatch(staged, u, GlobalOptional, u.optionalPassed, u.optionalTotal)
         || !CountsMatch(staged, u, WhitelistIndicator, u.whitelistPassed, u.whitelistTotal) {
        return Mismatch;
      }
      if u.requiredTotal != |Active(db, GlobalRequired)| || u.optionalTotal != |Active(db, GlobalOptional)|
        || u.whitelistTotal != |Active(db, WhitelistIndicator)| {
        return Mismatch;
      }
      PublishKeeps(db, u, rows);
      CountsForceCoverage(db, u, rows, GlobalRequired);
      CountsForceCoverage(db, u, rows, GlobalOptional);
      CountsForceCoverage(db, u, rows, WhitelistIndicator);
      forall c | Probed(c) ensures Covered(WithResult(db, u), u, c) {
        CoverageSurvives(staged, WithResult(db, u), u, c);
      }
      db := db.(rows := rows, paths := db.paths[u.path := PublishedPath(db.paths[u.path], u)]);
      r := Published;
    }

    // ----- bypass/repository.go: every edit of the targets starts a new policy generation -----

    method CreateTarget(id: Id, class_: Class, required: bool) returns (ok: bool)
      requires Inv(db)
      modifies this
      ensures Inv(db) && db == After(old(db), Create(id, class_, required))
      ensures ok <==> Creates(old(db), id, class_, required)
    {
      if id == "" || (class_ == GlobalRequired) != required || id in db.targets {
        return false;
      }
      db := Invalidated(db.(targets := db.targets[id := Target(true, required, class_)]));
      ok := true;
    }

    /** An empty class keeps the stored one. The last required target is given up only with confirmation. */
    method UpdateTarget(id: Id, enabled: bool, required: bool, class_: Option<Class>, confirmed: bool)
      returns (ok: bool)
      requires Inv(db)
      modifies this
      ensures Inv(db) && db == After(old(db), Edit(id, enabled, required, class_, confirmed))
      ensures ok <==> Edits(old(db), id, enabled, required, class_, confirmed)
      ensures !confirmed && Active(old(db), GlobalRequired) != {} ==> Active(db, GlobalRequired) != {}
    {
      if id == "" || id !in db.targets {
        return false;
      }
      var was := db.targets[id];
      var chosen := if class_.Some? then class_.value else was.class_;
      if (chosen == GlobalRequired) != required {
        return false;
      }
      if was.enabled && was.required && (!enabled || !required) && !confirmed && OtherRequired(db, id) == {} {
        return false;
      }
      ghost var before := db;
      db := Invalidated(db.(targets := db.targets[id := Target(enabled, required, chosen)]));
      KeepsRequired(before, db, id);
      ok := true;
    }

    /** The results of a deleted target go with it. */
    method DeleteTarget(id: Id, confirmed: bool) returns (ok: bool)
      requires Inv(db)
      modifies this
      ensures Inv(db) && db == After(old(db), Delete(id, confirmed))
      ensures ok <==> Deletes(old(db), id, confirmed)
      ensures !confirmed && Active(old(db), GlobalRequired) != {} ==> Active(db, GlobalRequired) != {}
    {
      if id !in db.targets {
        return false;
      }
      var was := db.targets[id];
      if was.enabled && was.required && !confirmed && OtherRequired(db, id) == {} {
        return false;
      }
      ghost var before := db;
      db := Invalidated(db.(targets := db.targets - {id}, rows := map k | k in db.rows && k.1 != id :: db.rows[k]));
      KeepsRequired(before, db, id);
      ok := true;
    }

    /** Reordering, and every other caller of InvalidatePathPolicy, starts a new generation as well. */
    method Invalidate()
      requires Inv(db)
      modifies this
      ensures Inv(db) && db == Invalidated(old(db))
    {
      db := Invalidated(db);
    }

    // ----- the world around the repository -----

    /** An uplink appears, changes state, or gets a new route generation. */
    method ChangeUplink(id: Id, up: Uplink)
      requires Inv(db)
      modifies this
      ensures Inv(db) && db == old(db).(uplinks := old(db).uplinks[id := up])
    {
      forall u | u in db.paths && db.paths[u].quality == Full
        ensures Backed(db.(uplinks := db.uplinks[id := up]), u)
      {
        SameEvidence(db, db.(uplinks := db.uplinks[id := up]), u, db.paths[u].policy, db.paths[u].route);
      }
      db := db.(uplinks := db.uplinks[id := up]);
    }

    /** A new boot with the startup gate discards every qualification. */
    method ReconcileBoot()
      requires Inv(db)
      modifies this
      ensures Inv(db) && db == Booted(old(db))
    {
      db := Booted(db);
    }

    /** The direct half of Candidates; `policy` was read by an earlier statement. */
    method Candidates(directEnabled: bool, policy: int, now: int) returns (result: seq<Id>)
      requires Inv(db)
      ensures forall u :: u in result <==> Listed(db, directEnabled, u, policy, now)
      ensures forall i, j :: 0 <= i < j < |result| ==> result[i] != result[j]
      ensures forall u :: u in result ==> Proven(db, u)
    {
      result := [];
      var rest := db.paths.Keys;
      while rest != {}
        invariant rest <= db.paths.Keys
        invariant forall u :: u in result <==> u !in rest && Listed(db, directEnabled, u, policy, now)
        invariant forall i, j :: 0 <= i < j < |result| ==> result[i] != result[j]
        decreases |rest|
      {
        var u :| u in rest;
        rest := rest - {u};
        if Listed(db, directEnabled, u, policy, now) {
          result := result + [u];
        }
      }
      forall u | u in result ensures Proven(db, u) {
        forall t | db.paths[u].quality == Full && t in Active(db, GlobalRequired)
          ensures (u, t) in db.rows && db.rows[(u, t)] == Row(GlobalRequired, true, db.policy, db.uplinks[u].route)
        {
          FullIsBacked(db, directEnabled, u, policy, now, t);
        }
      }
    }

    method Perform(e: Event) returns (listing: seq<Id>)
      requires Inv(db)
      modifies this
      ensures Inv(db) && db == After(old(db), e)
      ensures Lists(old(db), e, listing)
    {
      hide Inv, Proven, Listed, Publishes, Reconciled, Invalidated;
      listing := [];
      match e {
        case Create(id, class_, required) => var _ := CreateTarget(id, class_, required);
        case Edit(id, enabled, required, class_, confirmed) => var _ := UpdateTarget(id, enabled, required, class_,
            confirmed);
        case Delete(id, confirmed) => var _ := DeleteTarget(id, confirmed);
        case Reorder => Invalidate();
        case Route(id, up) => ChangeUplink(id, up);
        case Boot => ReconcileBoot();
        case Refresh => Reconcile();
        case Report(u) => var _ := Publish(u);
        case List(direct, policy, now) => listing := Candidates(direct, policy, now);
      }
    }

    /** Any interleaving of edits, route changes, reconciles and late reports: the states follow the events one by one,
        and each listing holds exactly the admissible paths of its state, every one of them backed. */
    method Run(events: seq<Event>) returns (listings: seq<seq<Id>>, ghost states: seq<Db>)
      requires Inv(db)
      modifies this
      ensures |listings| == |events| && |states| == |events| + 1 && states[0] == old(db) && states[|events|] == db
      ensures forall k :: 0 <= k < |events| ==> Follows(states, events, k)
      ensures forall k :: 0 <= k < |events| ==> Lists(states[k], events[k], listings[k])
    {
      hide Inv, After, Lists;
      listings, states := [], [db];
      var n := 0;
      while n < |events|
        invariant 0 <= n <= |events| && |listings| == n && |states| == n + 1 && Inv(db)
        invariant states[0] == old(db) && states[n] == db
        invariant forall k :: 0 <= k < n ==> Follows(states, events, k)
        invariant forall k :: 0 <= k < n ==> Lists(states[k], events[k], listings[k])
      {
        var listing := Perform(events[n]);
        ghost var past := states;
        listings, states := listings + [listing], states + [db];
        forall k | 0 <= k < n ensures Follows(states, events, k) { assert Follows(past, events, k); }
        n := n + 1;
      }
    }
  }

  ghost predicate Follows(states: seq<Db>, events: seq<Event>, k: nat) {
    k < |events| && k + 1 < |states| && states[k + 1] == After(states[k], events[k])
  }

  /** The answer to one event: the admissible paths of this state, each of them proven. */
  ghost predicate Lists(db: Db, e: Event, listing: seq<Id>) {
    if e.List? then
      && (forall u :: u in listing <==> Listed(db, e.direct, u, e.policy, e.now))
      && (forall u :: u in listing ==> Proven(db, u))
    else listing == []
  }

  datatype Event =
    | Create(id: Id, class_: Class, required: bool)
    | Edit(id: Id, enabled: bool, required: bool, newClass: Option<Class>, confirmed: bool)
    | Delete(id: Id, confirmed: bool)
    | Reorder
    | Route(id: Id, up: Uplink)
    | Boot
    | Refresh
    | Report(update: Update)
    | List(direct: bool, policy: int, now: int)

  /** The other enabled required targets. */
  function OtherRequired(db: Db, id: Id): set<Id> {
    set t | t in db.targets && db.targets[t].enabled && db.targets[t].required && t != id
  }

  lemma KeepsRequired(before: Db, after: Db, id: Id)
    requires Inv(before) && id in before.targets
    requires after.targets - {id} == before.targets - {id}
    ensures Active(before, GlobalRequired) <= Active(after, GlobalRequired) + {id}
    ensures OtherRequired(before, id) <= Active(after, GlobalRequired)
    ensures id in Active(after, GlobalRequired) ==> Active(after, GlobalRequired) != {}
  {
    forall t | t in before.targets && t != id ensures t in after.targets && after.targets[t] == before.targets[t] {
      assert t in (before.targets - {id}) && (after.targets - {id})[t] == (before.targets - {id})[t];
    }
  }

  /** The generations the prober started from are still the current ones. */
  predicate Current(db: Db, u: Update) {
    && u.policy == db.policy && u.path in db.paths && u.path in db.uplinks
    && db.paths[u.path].policy == u.policy && db.paths[u.path].route == u.route == db.uplinks[u.path].route
  }
}
