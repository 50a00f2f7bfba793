/**
 Startup recovery of a corrupt live database. The blocked marker is durable before
 the first file is moved, so a recovery that fails or dies half-way can never be
 taken for a new installation.
 */
module Recovery {
  import opened Base

  type Content = string

  datatype Entry = Missing | Irregular | File(content: Content)

  /** The database, its -wal and its -shm. */
  const FILES: nat := 3

  datatype Marker = Marker(quarantine: Option<nat>, snapshot: Option<Content>)

  datatype Disk = Disk(
    live: seq<Entry>,
    quarantine: map<nat, seq<Entry>>,   // recovery/quarantine, by id; ids never repeat
    marker: Option<Marker>,             // recovery/blocked.json
    last: Option<Marker>)               // recovery/last.json

  datatype Result = Fresh | Healthy(schema: nat) | Restored(schema: nat) | Blocked | Died

  datatype Event = Start(id: nat, latest: Option<Content>) | Create(content: Content) | Damage(file: nat, entry: Entry)

  predicate Shape(d: Disk) {
    |d.live| == FILES && forall id :: id in d.quarantine ==> |d.quarantine[id]| == FILES
  }

  /** "No database" reads as a new installation only if there has never been one. */
  predicate Inv(d: Disk, existed: bool) {
    Shape(d) && (!d.live[0].Missing? ==> existed) && (existed && d.live[0].Missing? ==> d.marker.Some?)
  }

  /** Every file that was live is still live or lies in a quarantine. */
  predicate Conserved(before: Disk, after: Disk) {
    && Shape(before) && Shape(after)
    && (forall id :: id in before.quarantine ==>
         id in after.quarantine && after.quarantine[id] == before.quarantine[id])
    && (forall k :: 0 <= k < FILES && before.live[k].File? ==>
         after.live[k] == before.live[k] || Held(after, k, before.live[k]))
  }

  predicate Held(d: Disk, k: nat, e: Entry)
    requires Shape(d) && k < FILES
  {
    exists id :: id in d.quarantine && d.quarantine[id][k] == e
  }

  function MoveOut(d: Disk, id: nat, k: nat): Disk
    requires Shape(d) && id in d.quarantine && k < FILES
  {
    d.(live := d.live[k := Missing], quarantine := d.quarantine[id := d.quarantine[id][k := d.live[k]]])
  }

  function MoveBack(d: Disk, id: nat, k: nat): Disk
    requires Shape(d) && id in d.quarantine && k < FILES
  {
    d.(live := d.live[k := d.quarantine[id][k]], quarantine := d.quarantine[id := d.quarantine[id][k := Missing]])
  }

  /** Since `before`, files were only moved into quarantine `id` or back. */
  predicate Displaced(before: Disk, now: Disk, id: nat) {
    && Shape(before) && Shape(now) && id !in before.quarantine
    && (forall x :: x in before.quarantine ==> x in now.quarantine && now.quarantine[x] == before.quarantine[x])
    && (forall k :: 0 <= k < FILES ==> InPlace(before, now, k) || Away(before, now, id, k))
  }

  predicate InPlace(before: Disk, now: Disk, k: nat)
    requires Shape(before) && Shape(now) && k < FILES
  {
    now.live[k] == before.live[k]
  }

  predicate Away(before: Disk, now: Disk, id: nat, k: nat)
    requires Shape(before) && Shape(now) && k < FILES
  {
    now.live[k].Missing? && id in now.quarantine && now.quarantine[id][k] == before.live[k]
  }

  lemma DisplacedIsConserved(before: Disk, now: Disk, id: nat)
    requires Displaced(before, now, id)
    ensures Conserved(before, now)
    ensures forall k :: 0 <= k < FILES ==> now.live[k] == before.live[k] || now.live[k].Missing?
  {
    forall k | 0 <= k < FILES ensures now.live[k] == before.live[k] || now.live[k].Missing? {
      assert InPlace(before, now, k) || Away(before, now, id, k);
    }
    forall k | 0 <= k < FILES && now.live[k] != before.live[k]
      ensures Held(now, k, before.live[k])
    {
      assert Away(before, now, id, k);
    }
  }

  /** Moving one more file out leaves the others where they are. */
  lemma MovingOut(before: Disk, now: Disk, id: nat, k: nat, moved: seq<nat>)
    requires Displaced(before, now, id) && id in now.quarantine && k < FILES && InPlace(before, now, k)
    requires forall i :: 0 <= i < |moved| ==> moved[i] < k && Away(before, now, id, moved[i])
    ensures var out := MoveOut(now, id, k);
      && Displaced(before, out, id) && id in out.quarantine && out.marker == now.marker
      && out.live == now.live[k := Missing]
      && forall i :: 0 <= i <= |moved| ==> Away(before, out, id, (moved + [k])[i])
  {
    MovingKeeps(before, now, id, k);
  }

  /** Once everything is in quarantine, what is done to the live files loses nothing. */
  lemma QuarantinedIsConserved(before: Disk, emptied: Disk, now: Disk)
    requires Conserved(before, emptied) && Shape(now) && now.quarantine == emptied.quarantine
    requires forall k :: 0 <= k < FILES ==> emptied.live[k].Missing?
    ensures Conserved(before, now)
  {
    forall k | 0 <= k < FILES && before.live[k].File? ensures Held(now, k, before.live[k]) {
      assert Held(emptied, k, before.live[k]);
    }
  }

  lemma MovingKeeps(before: Disk, now: Disk, id: nat, k: nat)
    requires Displaced(before, now, id) && id in now.quarantine && k < FILES
    ensures InPlace(before, now, k) ==> Displaced(before, MoveOut(now, id, k), id)
    ensures Away(before, now, id, k) ==> Displaced(before, MoveBack(now, id, k), id)
  {
    var out, back := MoveOut(now, id, k), MoveBack(now, id, k);
    forall m | 0 <= m < FILES && m != k
      ensures InPlace(before, now, m) == InPlace(before, out, m) == InPlace(before, back, m)
      ensures Away(before, now, id, m) == Away(before, out, id, m) == Away(before, back, id, m)
    {
    }
    assert InPlace(before, now, k) ==> Away(before, out, id, k);
    assert Away(before, now, id, k) ==> InPlace(before, back, k);
  }

  /** The path of the live database is not empty. */
  predicate InUse(d: Disk) { Shape(d) && !d.live[0].Missing? }

  /** There is a sound snapshot, and nothing but files to move out of its way. */
  predicate Replaceable(sound: Content -> Option<nat>, latest: Option<Content>, d: Disk) requires Shape(d) {
    latest.Some? && sound(latest.value).Some? && !d.live[1].Irregular? && !d.live[2].Irregular?
  }

  /** Each live file is as it was, away, or the sound snapshot in the place of the database. */
  predicate OnlyReplaced(sound: Content -> Option<nat>, latest: Option<Content>, d: Disk, e: Disk)
    requires Shape(d) && Shape(e)
  {
    forall k :: 0 <= k < FILES ==>
      || e.live[k] == d.live[k] || e.live[k].Missing?
      || (k == 0 && latest.Some? && sound(latest.value).Some? && e.live[k] == File(latest.value))
  }

  /** What one start makes of the disk it finds, as the next start finds it. */
  ghost predicate StartStep(sound: Content -> Option<nat>, latest: Option<Content>, d: Disk, e: Disk, calm: bool,
      r: Result)
    requires Shape(d) && Shape(e)
  {
    && (r.Fresh? ==> e == d && d.live[0].Missing? && d.marker.None?)
    && (r.Healthy? || r.Restored? ==> e.marker.None? && e.live[0].File? && sound(e.live[0].content) == Some(r.schema))
    && (r.Healthy? ==> e == d)
    && (r.Restored? && e.live != d.live ==> latest.Some? && e.live == [File(latest.value), Missing, Missing])
    && Conserved(d, e) && OnlyReplaced(sound, latest, d, e)
    && (calm && d.live[0].Missing? ==> r == if d.marker.Some? then Blocked else Fresh)
    && (calm && d.live[0].File? && sound(d.live[0].content).Some? && d.marker.Some? ==>
         r == Restored(sound(d.live[0].content).value))
    && (calm && d.live[0].File? && sound(d.live[0].content).Some? && d.marker.None? ==>
         r == Healthy(sound(d.live[0].content).value))
    && (calm && d.live[0].File? && sound(d.live[0].content).None? && Replaceable(sound, latest, d) ==> r.Restored?)
  }

  /** A state of a run: `calm` when no call misbehaved in the event that led to it, `isFresh` when the last start found
      a new installation. */
  datatype Snap = Snap(disk: Disk, existed: bool, calm: bool, isFresh: bool)

  ghost predicate EventStep(sound: Content -> Option<nat>, e: Event, a: Snap, b: Snap, r: Option<Result>)
    requires Shape(a.disk) && Shape(b.disk)
  {
    match e
    case Start(id, latest) =>
      if id in a.disk.quarantine then b == a.(calm := true) && r == None
      else
        && r.Some? && StartStep(sound, latest, a.disk, b.disk, b.calm, r.value)
        && b.existed == a.existed && b.isFresh == r.value.Fresh?
    case Create(content) =>
      r == None && b.calm && b == if a.isFresh then a.(disk := a.disk.(live := a.disk.live[0 := File(content)]),
          existed := true, calm := true) else a.(calm := true)
    case Damage(k, entry) =>
      r == None && b == if k < FILES && (k == 0 ==> !a.disk.live[0].Missing? && !entry.Missing?) then
        a.(disk := a.disk.(live := a.disk.live[k := entry]), calm := true) else a.(calm := true)
  }

  ghost predicate Follows(sound: Content -> Option<nat>, events: seq<Event>, trace: seq<Snap>,
      results: seq<Option<Result>>, undisturbed: seq<bool>, k: nat) {
    k < |events| && k < |results| && k < |undisturbed| && k + 1 < |trace| && (undisturbed[k] ==>
      trace[k + 1].calm) && Shape(trace[k].disk) && Shape(trace[k + 1].disk)
    && EventStep(sound, events[k], trace[k], trace[k + 1], results[k])
  }

  class Manager {
    /** The schema version of a database that passes every integrity check. */
    const sound: Content -> Option<nat>
    var disk: Disk
    var calm: bool                      // no call has misbehaved so far
    var steady: bool                    // none will, in the call at hand
    ghost var existed: bool

    constructor (sound: Content -> Option<nat>)
      ensures Inv(disk, existed) && !existed && calm && this.sound == sound
    {
      this.sound := sound;
      disk := Disk([Missing, Missing, Missing], map[], None, None);
      calm, steady := true, false;
      existed := false;
    }

    /** One rename, removal or record write. An error may be reported after the effect, unless `strict`. */
    method Step(after: Disk, strict: bool) returns (o: Outcome)
      modifies `disk, `calm
      ensures disk == old(disk) || disk == after
      ensures o.Ok? ==> disk == after
      ensures strict && o.Failed? ==> disk == old(disk)
      ensures calm == (old(calm) && o.Ok?)
      ensures steady && old(calm) ==> calm
    {
      o := Check();
      var effect: bool := *;
      if o.Ok? || (effect && !(strict && o.Failed?)) {
        disk := after;
      }
    }

    method Check() returns (o: Outcome)
      modifies `calm
      ensures calm == (old(calm) && o.Ok?)
      ensures steady && old(calm) ==> calm
    {
      var pick: int := *;
      o := if steady then Ok else if pick == 0 then Crashed else if pick == 1 then Failed else Ok;
      calm := calm && o.Ok?;
    }

    /** Opens the file read-only and checks it: it may refuse a sound file, never accept an unsound one. */
    method VerifyLive() returns (o: Outcome, schema: nat)
      requires Shape(disk) && disk.live[0].File?
      modifies `calm
      ensures o.Ok? ==> sound(disk.live[0].content) == Some(schema)
      ensures calm && sound(disk.live[0].content).Some? ==> o.Ok?
      ensures calm ==> old(calm) && !o.Crashed?
      ensures steady && old(calm) ==> calm
    {
      o := Check();
      schema := 0;
      if o.Ok? {
        match sound(disk.live[0].content)
        case None => o := Failed;
        case Some(version) => schema := version;
      }
    }

    method RollbackMoves(id: nat, moved: seq<nat>, ghost before: Disk) returns (o: Outcome)
      requires Displaced(before, disk, id) && id in disk.quarantine
      requires forall i :: 0 <= i < |moved| ==> moved[i] < FILES && Away(before, disk, id, moved[i])
      requires forall i, j :: 0 <= i < j < |moved| ==> moved[i] != moved[j]
      modifies `disk, `calm
      ensures Displaced(before, disk, id) && disk.marker == old(disk.marker)
      ensures !o.Failed?
      ensures calm ==> old(calm) && !o.Crashed?
      ensures steady && old(calm) ==> calm
    {
      var n := |moved|;
      while n > 0
        invariant 0 <= n <= |moved|
        invariant Displaced(before, disk, id) && id in disk.quarantine && disk.marker == old(disk.marker)
        invariant forall i :: 0 <= i < n ==> Away(before, disk, id, moved[i])
        invariant calm ==> old(calm)
        invariant steady && old(calm) ==> calm
      {
        n := n - 1;
        MovingKeeps(before, disk, id, moved[n]);
        o := Step(MoveBack(disk, id, moved[n]), true);
        if o.Crashed? {
          return;
        }
      }
      o := Ok;
    }

    /** Marker first, then the three files one by one; on an error what was moved is moved back. */
    method QuarantineLiveDatabase(id: nat) returns (o: Outcome)
      requires Inv(disk, existed) && id !in disk.quarantine && disk.live[0].File?
      modifies `disk, `calm
      ensures Inv(disk, existed) && Conserved(old(disk), disk)
      ensures forall k :: 0 <= k < FILES ==> disk.live[k] == old(disk.live)[k] || disk.live[k].Missing?
      ensures o.Ok? ==> disk.marker.Some? && forall k :: 0 <= k < FILES ==> disk.live[k].Missing?
      ensures calm && (forall k :: 0 <= k < FILES ==> !old(disk.live)[k].Irregular?) ==> o.Ok?
      ensures calm ==> old(calm) && !o.Crashed?
      ensures steady && old(calm) ==> calm
    {
      o := Check();
      if !o.Ok? { return; }
      o := Step(disk.(marker := Some(Marker(Some(id), None))), false);
      if !o.Ok? { return; }
      o := Step(disk.(quarantine := disk.quarantine[id := [Missing, Missing, Missing]]), false);
      if !o.Ok? { return; }
      o := MoveAll(id, old(disk));
      DisplacedIsConserved(old(disk), disk, id);
    }

    method MoveAll(id: nat, ghost before: Disk) returns (o: Outcome)
      requires Displaced(before, disk, id) && id in disk.quarantine && disk.marker.Some? && before.live[0].File?
      requires forall k :: 0 <= k < FILES ==> InPlace(before, disk, k)
      modifies `disk, `calm
      ensures Displaced(before, disk, id) && disk.marker == old(disk.marker)
      ensures o.Ok? ==> forall k :: 0 <= k < FILES ==> disk.live[k].Missing?
      ensures calm && (forall k :: 0 <= k < FILES ==> !before.live[k].Irregular?) ==> o.Ok?
      ensures calm ==> old(calm) && !o.Crashed?
      ensures steady && old(calm) ==> calm
    {
      hide MoveOut, Away;
      var moved: seq<nat> := [];
      var k := 0;
      while k < FILES
        invariant 0 <= k <= FILES
        invariant Displaced(before, disk, id) && id in disk.quarantine && disk.marker == old(disk.marker)
        invariant forall i :: 0 <= i < |moved| ==> moved[i] < k && Away(before, disk, id, moved[i])
        invariant forall i, j :: 0 <= i < j < |moved| ==> moved[i] != moved[j]
        invariant forall m :: 0 <= m < k ==> disk.live[m].Missing?
        invariant forall m :: k <= m < FILES ==> InPlace(before, disk, m)
        invariant k > 0 && before.live[0].File? ==> moved != []
        invariant calm ==> old(calm)
        invariant steady && old(calm) ==> calm
      {
        assert InPlace(before, disk, k);
        ghost var pre := disk;
        if disk.live[k].Irregular? {
          o := RollbackMoves(id, moved, before);
          return if o.Crashed? then Crashed else Failed;
        }
        if disk.live[k].File? {
          MovingOut(before, disk, id, k, moved);
          o := Step(MoveOut(disk, id, k), true);
          if o.Crashed? {
            return;
          }
          if o.Failed? {
            o := RollbackMoves(id, moved, before);
            return if o.Crashed? then Crashed else Failed;
          }
          assert forall m :: k < m < FILES ==> InPlace(before, pre, m) ==> InPlace(before, disk, m);
          moved := moved + [k];
        }
        k := k + 1;
      }
      if moved == [] {
        return Failed;
      }
      o := Check();   // report.json, fsync, rename of the directory to its final name
      if o.Crashed? {
        return;
      }
      if o.Failed? {
        o := RollbackMoves(id, moved, before);
        return if o.Crashed? then Crashed else Failed;
      }
      o := Check();   // fsync of both parents; a failure leaves the files in quarantine
    }

    /** Copies the snapshot beside the database, verifies the copy, then renames it into place. */
    method RestoreSnapshotFile(snapshot: Content) returns (o: Outcome)
      requires Inv(disk, existed) && existed && disk.live[0].Missing? && disk.marker.Some?
      modifies `disk, `calm
      ensures Inv(disk, existed) && disk == old(disk).(live := disk.live)
      ensures disk.live == old(disk.live) || (sound(snapshot).Some? && disk.live == old(disk.live)[0 := File(snapshot)])
      ensures o.Ok? ==> disk.live[0] == File(snapshot)
      ensures calm && sound(snapshot).Some? ==> o.Ok?
      ensures calm ==> old(calm) && !o.Crashed?
      ensures steady && old(calm) ==> calm
    {
      o := Check();
      if !o.Ok? { return; }
      if sound(snapshot).None? {
        return Failed;
      }
      o := Step(disk.(live := disk.live[0 := File(snapshot)]), false);
    }

    /** Records the recovery, then removes the marker. */
    method FinishRecovery(marker: Marker) returns (o: Outcome)
      requires Inv(disk, existed) && disk.live[0].File?
      modifies `disk, `calm
      ensures Inv(disk, existed) && disk == old(disk).(last := disk.last, marker := disk.marker)
      ensures o.Ok? ==> disk.marker.None? && disk.last == Some(marker)
      ensures calm == (old(calm) && o.Ok?)
      ensures steady && old(calm) ==> calm
    {
      o := Step(disk.(last := Some(marker)), false);
      if !o.Ok? { return; }
      o := Step(disk.(marker := None), false);
    }

    /** `latest` is what LatestValid finds among the stored snapshots. */
    method Prepare(id: nat, latest: Option<Content>) returns (r: Result)
      requires Inv(disk, existed) && id !in disk.quarantine
      modifies `disk, `calm
      ensures Inv(disk, existed)
      ensures r.Fresh? ==> !existed && disk == old(disk)
      ensures r.Healthy? || r.Restored? ==>
        disk.marker.None? && disk.live[0].File? && sound(disk.live[0].content) == Some(r.schema)
      ensures r.Restored? && disk.live != old(disk.live) ==>
        latest.Some? && disk.live == [File(latest.value), Missing, Missing]
      ensures Conserved(old(disk), disk) && OnlyReplaced(sound, latest, old(disk), disk)
      ensures calm ==> old(calm) && match old(disk.live)[0]
        case Missing => r == if old(disk.marker).Some? then Blocked else Fresh
        case Irregular => r == Blocked && disk.marker.Some?
        case File(c) => match sound(c)
          case Some(schema) => r == if old(disk.marker).Some? then Restored(schema) else Healthy(schema)
          case None => Replaceable(sound, latest, old(disk)) ==> r.Restored?
      ensures StartStep(sound, latest, old(disk), disk, calm, r)
      ensures steady && old(calm) ==> calm
    {
      var o := Check();
      if o.Crashed? { return Died; }
      if o.Failed? { return Blocked; }
      var known := disk.marker;
      if disk.live[0].Missing? {
        return if known.Some? then Blocked else Fresh;
      }
      if disk.live[0].Irregular? {
        o := Step(disk.(marker := Some(Marker(None, None))), false);
        return if o.Crashed? then Died else Blocked;
      }
      var schema;
      o, schema := VerifyLive();
      if o.Crashed? { return Died; }
      if o.Ok? {
        if known.None? {
          return Healthy(schema);
        }
        o := FinishRecovery(known.value);
        if o.Crashed? { return Died; }
        return if o.Ok? then Restored(schema) else Blocked;
      }
      r := Replace(id, latest);
    }

    /** The live database failed verification: quarantine it and restore the snapshot. */
    method Replace(id: nat, latest: Option<Content>) returns (r: Result)
      requires Inv(disk, existed) && id !in disk.quarantine && disk.live[0].File?
      modifies `disk, `calm
      ensures Inv(disk, existed)
      ensures r.Blocked? || r.Died? || r.Restored?
      ensures r.Restored? ==> disk.marker.None? && latest.Some? && sound(latest.value) == Some(r.schema)
      ensures r.Restored? ==> disk.live == [File(latest.value), Missing, Missing]
      ensures Conserved(old(disk), disk) && OnlyReplaced(sound, latest, old(disk), disk)
      ensures calm && Replaceable(sound, latest, old(disk)) ==> r.Restored?
      ensures calm ==> old(calm) && !r.Died?
      ensures steady && old(calm) ==> calm
    {
      hide Conserved;
      var o := QuarantineLiveDatabase(id);
      if o.Crashed? { return Died; }
      if o.Failed? { return Blocked; }
      ghost var emptied := disk;
      r := Reinstate(id, latest);
      QuarantinedIsConserved(old(disk), emptied, disk);
    }

    /** The live files are away: the snapshot takes their place. */
    method Reinstate(id: nat, latest: Option<Content>) returns (r: Result)
      requires Inv(disk, existed) && existed && disk.marker.Some?
      requires forall k :: 0 <= k < FILES ==> disk.live[k].Missing?
      modifies `disk, `calm
      ensures Inv(disk, existed) && disk.quarantine == old(disk.quarantine)
      ensures r.Blocked? || r.Died? || r.Restored?
      ensures r.Restored? ==> disk.marker.None? && latest.Some? && sound(latest.value) == Some(r.schema)
      ensures r.Restored? ==> disk.live == [File(latest.value), Missing, Missing]
      ensures OnlyReplaced(sound, latest, old(disk), disk)
      ensures calm && latest.Some? && sound(latest.value).Some? ==> r.Restored?
      ensures calm ==> old(calm) && !r.Died?
      ensures steady && old(calm) ==> calm
    {
      var o := Check();
      if o.Crashed? { return Died; }
      if o.Failed? || latest.None? { return Blocked; }
      o := Step(disk.(marker := Some(Marker(Some(id), latest))), false);
      if o.Crashed? { return Died; }
      if o.Failed? { return Blocked; }
      o := RestoreSnapshotFile(latest.value);
      if o.Crashed? { return Died; }
      if o.Failed? { return Blocked; }
      var schema;
      o, schema := VerifyLive();
      if o.Crashed? { return Died; }
      if o.Failed? { return Blocked; }
      o := FinishRecovery(Marker(Some(id), latest));
      if o.Crashed? { return Died; }
      r := if o.Ok? then Restored(schema) else Blocked;
    }

    method Perform(e: Event, isFresh: bool, undisturbed: bool) returns (r: Option<Result>, after: bool)
      requires Inv(disk, existed)
      modifies this
      ensures Inv(disk, existed)
      ensures var before, now := Snap(old(disk), old(existed), old(calm), isFresh), Snap(disk, existed, calm, after);
        EventStep(sound, e, before, now, r)
      ensures old(existed) ==> existed && r != Some(Fresh)
      ensures undisturbed ==> calm
    {
      r, after := None, isFresh;
      calm, steady := true, undisturbed;
      match e {
        case Start(id, latest) =>
          if id !in disk.quarantine {
            var result := Prepare(id, latest);
            r, after := Some(result), result.Fresh?;
          }
        case Create(content) =>
          // a writable connection is opened only after a start that was not blocked
          if isFresh {
            disk := disk.(live := disk.live[0 := File(content)]);
            existed := true;
          }
        case Damage(k, entry) =>
          if k < FILES && (k == 0 ==> !disk.live[0].Missing? && !entry.Missing?) {
            disk := disk.(live := disk.live[k := entry]);
          }
      }
    }

    /** Any number of starts, each of which may die anywhere, with creation of the first database and damage to the
        files in between: every event has its result, and once a database was in place no start, however much later,
        takes the gateway for a new one. */
    method Run(events: seq<Event>, undisturbed: seq<bool>)
      returns (results: seq<Option<Result>>, ghost trace: seq<Snap>)
      requires Inv(disk, existed) && |undisturbed| == |events|
      modifies this
      ensures |results| == |events| && |trace| == |events| + 1
      ensures trace[0] == Snap(old(disk), old(existed), old(calm), false) && trace[|events|].disk == disk
      ensures forall k :: 0 <= k < |events| ==> Follows(sound, events, trace, results, undisturbed, k)
      ensures forall j :: 0 <= j < |trace| ==> Inv(trace[j].disk, trace[j].existed)
      ensures forall j, k :: 0 <= j <= k < |events| && InUse(trace[j].disk) ==> results[k] != Some(Fresh)
    {
      hide StartStep;
      results := [];
      var isFresh := false;
      trace := [Snap(disk, existed, calm, isFresh)];
      var n := 0;
      while n < |events|
        invariant 0 <= n <= |events| && |results| == n && |trace| == n + 1 && Inv(disk, existed)
        invariant trace[0] == Snap(old(disk), old(existed), old(calm), false)
        invariant trace[n] == Snap(disk, existed, calm, isFresh)
        invariant forall k :: 0 <= k < n ==> Follows(sound, events, trace, results, undisturbed, k)
        invariant forall j :: 0 <= j <= n ==> Inv(trace[j].disk, trace[j].existed) && (trace[j].existed ==> existed)
        invariant forall j, k :: 0 <= j <= k < n && trace[j].existed ==> results[k] != Some(Fresh)
      {
        var r;
        ghost var pastTrace, past := trace, results;
        r, isFresh := Perform(events[n], isFresh, undisturbed[n]);
        results, trace := results + [r], trace + [Snap(disk, existed, calm, isFresh)];
        forall k | 0 <= k < n ensures Follows(sound, events, trace, results, undisturbed, k) {
          assert Follows(sound, events, pastTrace, past, undisturbed, k);
        }
        n := n + 1;
      }
    }
  }
}
