/**
 The restore manager and the privileged applier as one process over a durable
 disk. Every call into the filesystem may fail, may take effect and then report an
 error, or may be the moment of a power loss; a method whose call crashed
 returns at once, so its postcondition describes the disk the next boot finds.
 */
module RestoreApply {
  import opened Base
  import opened RestoreModel

  /** What the environment does with one filesystem call. */
  datatype Fate = Proceed | Refuse | Late | Die | DieLate

  datatype Area = Dest | Cand | Roll

  function Read(s: Slot, a: Area): Entry {
    match a case Dest => s.dest case Cand => s.cand case Roll => s.roll
  }

  function Write(s: Slot, a: Area, e: Entry): Slot {
    match a case Dest => s.(dest := e) case Cand => s.(cand := e) case Roll => s.(roll := e)
  }

  datatype File = PendingMarker | OperationRecord | LastRestore

  function Put(d: Disk, f: File, op: Option<Operation>): Disk {
    match f
    case PendingMarker => d.(pending := op)
    case OperationRecord => d.(record := op)
    case LastRestore => d.(last := op)
  }

  datatype Verdict = Completed | SafelyRolledBack | NothingPending | NotAuthorized | ForeignJournal | Unsafe | Died

  predicate InPhase(d: Disk, phases: set<Phase>) {
    d.journal.Some? && d.journal.value.phase in phases
  }

  datatype Event =
    | Stage(identity: nat)
    | Authorize(identity: nat, token: nat)
    | Discard(identity: nat)
    // with what a snapshot would leave of the live database, and what verifying a committed tree would find
    | Apply(image: seq<Tree>, appliedAt: string, opening: Opening, verification: Verification)
    | Serve(item: nat, content: Entry)

  predicate Proper(e: Event) {
    match e
    case Authorize(_, token) => token != 0
    case Apply(image, at, _, _) => |image| == 7 && at != ""
    case _ => true
  }

  /** Authorizations are 32 random bytes: none is empty and none repeats. */
  predicate Schedule(events: seq<Event>) {
    && (forall k :: 0 <= k < |events| ==> Proper(events[k]))
    && (forall k, m :: 0 <= k < m < |events| && events[k].Authorize? && events[m].Authorize? ==>
         events[k].token != events[m].token)
  }

  /** The journal of an operation that is neither rolled back nor over. */
  const UNDERWAY: set<Phase> := {Prepared, Applying, Committed}

  /** A state of a run; `calm` when no filesystem call misbehaved in the event that led to it. */
  datatype Snap = Snap(disk: Disk, hist: History, calm: bool)

  predicate SameDestinations(d: Disk, e: Disk, except: set<nat>) {
    |d.slots| == |e.slots| && forall i :: 0 <= i < |d.slots| && i !in except ==> e.slots[i].dest == d.slots[i].dest
  }

  function Destinations(d: Disk): seq<Entry> {
    seq(|d.slots|, i requires 0 <= i < |d.slots| => d.slots[i].dest)
  }

  ghost predicate StageStep(identity: nat, a: Snap, b: Snap) {
    && b.hist == a.hist.(done := b.hist.done) && SameDestinations(a.disk, b.disk, {})
    && (a.disk.pending.Some? ==> b.disk == a.disk) && (b.disk.journal.None? || (b.disk == a.disk && b.hist == a.hist))
    && (b.calm && a.disk.pending.None? ==> ReadPending(b.disk) == Found(Operation(identity, Staged, 0, NoCode, "")))
  }

  ghost predicate AuthorizeStep(identity: nat, token: nat, a: Snap, b: Snap) {
    && b.hist == a.hist.(issued := a.hist.issued + {token})
    && b.disk == a.disk.(pending := b.disk.pending, record := b.disk.record)
    && (Requested(b.disk) && !Requested(a.disk) ==> ReadPending(b.disk).op.auth == token)
    && (b.calm && !a.hist.betrayed && ReadPending(a.disk).Found? && ReadPending(a.disk).op.identity == identity ==>
         Requested(b.disk))
  }

  ghost predicate DiscardStep(identity: nat, a: Snap, b: Snap) {
    && b.hist == a.hist && b.disk == a.disk.(pending := b.disk.pending, record := b.disk.record)
    && (b.disk != a.disk ==> b.disk.pending.None?)
    && (b.calm && ReadPending(a.disk).Found? && ReadPending(a.disk).op.identity == identity
           && ReadPending(a.disk).op.state == Staged ==>
         b.disk.pending.None? && b.disk.record.None?)
  }

  ghost predicate ServeStep(i: nat, content: Entry, a: Snap, b: Snap) {
    if !Requested(a.disk) && i < ITEMS && |a.disk.slots| == ITEMS && Shape(a.disk, a.hist) then
      && b.disk == a.disk.(slots := a.disk.slots[i := a.disk.slots[i].(dest := content)])
      && b.hist == a.hist.(base := a.hist.base[i := content], image := a.hist.image[i := content])
    else b.disk == a.disk && b.hist == a.hist
  }

  /** A committed tree that has not been completed is the image. */
  predicate CommittedInPlace(d: Disk, h: History) {
    Shape(d, h) && (InPhase(d, {Committed}) && !h.done ==> ImageInPlace(d, h))
  }

  /** The verification does not refuse a committed tree that is the image. */
  predicate Trusts(d: Disk, h: History, v: Verification) requires Shape(d, h) {
    InPhase(d, {Committed}) && ImageInPlace(d, h) ==> !v.outcome.Failed?
  }

  /** A committed tree is resumed here, and the verdict on it is not safe. */
  predicate Unsafely(v: Verification, a: Snap) {
    Shape(a.disk, a.hist) && Requested(a.disk) && InPhase(a.disk, {Committed}) && !SafeVerdict(a.disk, a.hist, v)
  }

  lemma SameIsSpared(slots: seq<Slot>, after: seq<Slot>, originals: seq<bool>)
    requires |slots| == |after| == |originals| == ITEMS && forall i :: 0 <= i < ITEMS ==> after[i].dest == slots[i].dest
    ensures Spared(slots, after, originals)
  {}

  lemma BaseIsHeld(d: Disk, h: History)
    requires Inv(d, h) && AllBase(d, h)
    ensures Destinations(d) == h.base
  {}

  lemma EndsClean(
    image: seq<Tree>, opening: Opening, d: Disk, h: History, e: Disk, k: History, auth: nat)
    requires |image| == 7 && Inv(d, h) && Inv(e, k) && !h.betrayed && !k.betrayed && d.journal.None? && !Requested(e)
    requires Remembers(h, k, Opened(h.base, opening), ImageOf(image), auth)
    requires k.done && !h.done ==> k.image == ImageOf(image)
    ensures Destinations(e) in {Destinations(d), Opened(Destinations(d), opening), ImageOf(image)}
  {
    InvariantMeaning(e, k);
    BaseIsHeld(d, h);
    BaseIsHeld(e, k);
  }

  /** What an apply may do, from what it finds to what the next start finds. */
  ghost predicate ApplyStep(image: seq<Tree>, opening: Opening, v: Verification, a: Snap, b: Snap)
    requires |image| == 7
  {
    var auth := if ReadPending(a.disk).Found? then ReadPending(a.disk).op.auth else 0;
    // the originals stay, or are what the snapshot left of them, or the image once it is complete
    && Shape(a.disk, a.hist) && Remembers(a.hist, b.hist, Opened(a.hist.base, opening), ImageOf(image), auth)
    && (Requested(a.disk) && InPhase(a.disk, UNDERWAY) ==>
         Remembers(a.hist, b.hist, a.hist.base, a.hist.image, 0) && b.hist.activations == a.hist.activations)
    // what is under way or complete is this image, unless another was under way before
    && (!b.hist.betrayed && !InPhase(a.disk, UNDERWAY) && (InPhase(b.disk, UNDERWAY) || b.hist.done != a.hist.done) ==>
         b.hist.image == ImageOf(image))
    && (!Requested(a.disk) ==> b.disk == a.disk && b.hist == a.hist)
    // a run is given up only where this verification gives an unsafe verdict on a committed tree
    && (b.hist.betrayed ==> a.hist.betrayed || Unsafely(v, a))
    && (!b.hist.betrayed && CommittedInPlace(a.disk, a.hist) && Trusts(a.disk, a.hist, v) ==>
         CommittedInPlace(b.disk, b.hist))
    // whatever the verdict, resuming a journal destroys neither a content nor the copy of an original
    && (Requested(a.disk) && InPhase(a.disk, UNDERWAY) ==>
         Spared(a.disk.slots, b.disk.slots, a.disk.journal.value.originals))
    // from a clean start the destinations end as they were, as the snapshot left them, or as the image
    && (!b.hist.betrayed && !a.hist.betrayed && Requested(a.disk) && a.disk.journal.None? && !Requested(b.disk) ==>
         Destinations(b.disk) in {Destinations(a.disk), Opened(Destinations(a.disk), opening), ImageOf(image)})
    // and without a failing call the request is served
    && (b.calm && !b.hist.betrayed && Requested(a.disk) ==> !Requested(b.disk) && b.disk.journal.None?)
    && (b.calm && !b.hist.betrayed && Requested(a.disk) && a.disk.journal.None? ==> Holds(b.disk, ImageOf(image)))
  }

  predicate Holds(d: Disk, image: seq<Entry>) {
    |d.slots| == |image| && forall i :: 0 <= i < |image| ==> d.slots[i].dest == image[i]
  }

  ghost predicate EventStep(e: Event, a: Snap, b: Snap)
    requires Proper(e)
  {
    match e
    case Stage(identity) => StageStep(identity, a, b)
    case Authorize(identity, token) => AuthorizeStep(identity, token, a, b)
    case Discard(identity) => DiscardStep(identity, a, b)
    case Apply(image, _, opening, v) => ApplyStep(image, opening, v, a, b)
    case Serve(i, content) => ServeStep(i, content, a, b)
  }

  class Host {
    var disk: Disk
    var calm: bool              // no filesystem call has misbehaved so far
    var steady: bool            // none will, in the call at hand
    ghost var hist: History

    constructor (destinations: seq<Entry>)
      requires |destinations| == ITEMS
      ensures Inv(disk, hist) && calm && disk.pending.None? && hist.base == destinations
    {
      disk := Disk(seq(ITEMS, i requires 0 <= i < ITEMS => Slot(destinations[i], Absent, Absent)), None, None, None,
          None);
      calm, steady := true, false;
      hist := History(destinations, destinations, {}, [], false, false);
    }

    ghost function Now(): Snap
      reads this
    {
      Snap(disk, hist, calm)
    }

    method Draw() returns (f: Fate)
      modifies `calm
      ensures calm == (old(calm) && f.Proceed?)
      ensures steady && old(calm) ==> calm
    {
      f := *;
      if steady { f := Proceed; }
      calm := calm && f.Proceed?;
    }

    /** One rename, removal or record write. `strict` calls that report an error changed nothing. */
    method Step(after: Disk, strict: bool) returns (o: Outcome)
      modifies `disk, `calm
      ensures disk == old(disk) || disk == after
      ensures o.Ok? ==> disk == after
      ensures strict && o.Failed? ==> disk == old(disk)
      ensures calm == (old(calm) && o.Ok?)
      ensures steady && old(calm) ==> calm
    {
      var f := Draw();
      match f
      case Proceed => disk := after; o := Ok;
      case Refuse => o := Failed;
      case Late =>
        if !strict { disk := after; }
        o := Failed;
      case Die => o := Crashed;
      case DieLate => disk := after; o := Crashed;
    }

    /** A call that changes nothing the model keeps (validation, fsync, a hook). */
    method Check() returns (o: Outcome)
      modifies `calm
      ensures calm == (old(calm) && o.Ok?)
      ensures steady && old(calm) ==> calm
    {
      var f := Draw();
      o := match f case Proceed => Ok case Refuse => Failed case Late => Failed case Die => Crashed
        case DieLate => Crashed;
    }

    method WriteJournal(j: Journal) returns (o: Outcome)
      modifies `disk, `calm
      ensures disk == old(disk) || disk == old(disk).(journal := Some(j))
      ensures o.Ok? ==> disk == old(disk).(journal := Some(j))
      ensures o.Failed? ==> disk == old(disk)
      ensures disk != old(disk) ==> ValidJournal(j)
      ensures calm && ValidJournal(j) ==> o.Ok?
      ensures calm ==> old(calm)
      ensures steady && old(calm) ==> calm
    {
      if !ValidJournal(j) {
        return Failed;
      }
      o := Step(disk.(journal := Some(j)), true);
    }

    /** removeManagedRestorePath: deleting a directory may stop part-way. */
    method Remove(i: nat, a: Area) returns (o: Outcome)
      requires |disk.slots| == ITEMS && i < ITEMS
      modifies `disk, `calm
      ensures |disk.slots| == ITEMS
      ensures disk == old(disk).(slots := old(disk.slots)[i := Write(old(disk.slots)[i], a, Read(disk.slots[i], a))])
      ensures Shrunk(old(Read(disk.slots[i], a)), Read(disk.slots[i], a))
      ensures o.Ok? ==> Read(disk.slots[i], a).Absent?
      ensures calm == (old(calm) && o.Ok?)
      ensures steady && old(calm) ==> calm
    {
      var entry := Read(disk.slots[i], a);
      if entry.Absent? {
        return Ok;
      }
      var f := Draw();
      var left := Absent;
      if !f.Proceed? {
        left :| Shrunk(entry, left);
      }
      disk := disk.(slots := disk.slots[i := Write(disk.slots[i], a, left)]);
      o := if f.Proceed? then Ok else if f.Die? || f.DieLate? then Crashed else Failed;
    }

    // ----- restore.go: the two operation files -----

    /** Marker first, authoritative record second: a torn authorization reads as STAGED. */
    method AuthorizeApply(identity: nat, token: nat) returns (o: Outcome)
      requires Inv(disk, hist)
      requires token != 0 && token !in hist.issued   // 32 random bytes never repeat
      modifies `disk, `calm, `hist
      ensures Inv(disk, hist)
      ensures hist == old(hist).(issued := old(hist).issued + {token})
      ensures disk == old(disk).(pending := disk.pending, record := disk.record)
      ensures disk.record != old(disk.record) ==> disk.pending == disk.record
      ensures !old(Requested(disk)) && Requested(disk) ==> ReadPending(disk).op.auth == token
      ensures o.Ok? ==> Requested(disk) && ReadPending(disk).op.identity == identity
      ensures calm && old(ReadPending(disk).Found? && ReadPending(disk).op.identity == identity && !hist.betrayed) ==>
        o.Ok?
      ensures AuthorizeStep(identity, token, old(Now()), Now()) && (calm ==> old(calm))
      ensures steady && old(calm) ==> calm
    {
      hist := hist.(issued := hist.issued + {token});
      var found := ReadPending(disk);
      if !found.Found? || found.op.identity != identity || found.op.state == Applied {
        return Failed;
      }
      var op := found.op;
      if op.state == Staged {
        op := op.(auth := token);
      }
      op := op.(state := ApplyRequested, error := NoCode, appliedAt := "");
      o := Step(Put(disk, PendingMarker, Some(op)), false);
      if !o.Ok? {
        return;
      }
      o := Step(Put(disk, OperationRecord, Some(op)), false);
    }

    /** Record first, marker second: a torn failure also reads as STAGED. */
    method MarkApplyFailure(identity: nat, code: Code) returns (o: Outcome)
      requires Records(disk, hist)
      modifies `disk, `calm
      ensures Records(disk, hist)
      ensures disk == old(disk).(pending := disk.pending, record := disk.record)
      ensures disk != old(disk) ==> old(Requested(disk))
      ensures ReadPending(disk) == old(ReadPending(disk))
        || (ReadPending(disk).Found? && ReadPending(disk).op.state == Staged)
      ensures o.Ok? ==>
        ReadPending(disk).Found? && ReadPending(disk).op.state == Staged && ReadPending(disk).op.error == code
      ensures calm && old(Requested(disk)) && old(ReadPending(disk)).op.identity == identity && code != NoCode ==> o.Ok?
      ensures calm ==> old(calm)
      ensures steady && old(calm) ==> calm
    {
      var found := ReadPending(disk);
      if code == NoCode || !found.Found? || found.op.identity != identity || found.op.state != ApplyRequested {
        return Failed;
      }
      var op := found.op.(state := Staged, auth := 0, error := code);
      o := Step(Put(disk, OperationRecord, Some(op)), false);
      if !o.Ok? {
        return;
      }
      o := Step(Put(disk, PendingMarker, Some(op)), false);
    }

    /** The restore is over at the instant the pending marker disappears. */
    method Complete(identity: nat, appliedAt: string) returns (o: Outcome)
      modifies `disk, `calm, `hist
      ensures disk == old(disk).(last := disk.last, pending := disk.pending, record := disk.record)
      ensures disk.pending == old(disk.pending) ==> disk.record == old(disk.record) && hist == old(hist)
      ensures disk.pending != old(disk.pending) ==>
        disk.pending.None? && hist == old(hist).(done := true, base := old(hist).image)
      ensures disk.record == old(disk.record) || disk.record.None?
      ensures o.Ok? ==>
        disk.pending.None? && old(disk.pending).Some? && disk.last.Some? && disk.last.value.appliedAt == appliedAt
      ensures calm && old(Requested(disk)) && old(ReadPending(disk)).op.identity == identity && appliedAt != "" ==>
        o.Ok?
      ensures calm ==> old(calm)
      ensures steady && old(calm) ==> calm
    {
      var found := ReadPending(disk);
      if !found.Found? || found.op.identity != identity || found.op.state != ApplyRequested || appliedAt == "" {
        return Failed;
      }
      var op := found.op.(state := Applied, auth := 0, appliedAt := appliedAt, error := NoCode);
      o := Step(Put(disk, LastRestore, Some(op)), false);
      if !o.Ok? {
        return;
      }
      o := Step(Put(disk, PendingMarker, None), false);
      if disk.pending.None? {
        hist := hist.(done := true, base := hist.image);
      }
      if !o.Ok? {
        return;
      }
      o := Step(Put(disk, OperationRecord, None), false);
    }

    /** Only a STAGED operation is discarded, marker before record. */
    method Discard(identity: nat) returns (o: Outcome)
      requires Inv(disk, hist)
      modifies `disk, `calm
      ensures Inv(disk, hist)
      ensures disk == old(disk).(pending := disk.pending, record := disk.record)
      ensures disk != old(disk) ==>
        disk.pending.None? && old(ReadPending(disk).Found? && ReadPending(disk).op.state == Staged)
      ensures o.Ok? ==> disk.pending.None? && disk.record.None?
      ensures DiscardStep(identity, old(Now()), Now()) && (calm ==> old(calm))
      ensures steady && old(calm) ==> calm
    {
      var found := ReadPending(disk);
      if !found.Found? || found.op.identity != identity || found.op.state != Staged {
        return Failed;
      }
      o := Step(Put(disk, PendingMarker, None), false);
      if !o.Ok? {
        return;
      }
      o := Step(Put(disk, OperationRecord, None), false);
    }

    // ----- restore_apply.go: preparation -----

    /** Opening the live database blocks the runtime and appends an event: the originals move with it. */
    method CreatePreRestoreSnapshot(opening: Opening) returns (o: Outcome)
      requires Shape(disk, hist)
      modifies `disk, `calm, `hist
      ensures Shape(disk, hist)
      ensures disk == old(disk).(slots := disk.slots) && hist == old(hist).(base := Opened(old(hist).base, opening))
      ensures forall i :: 0 <= i < ITEMS ==>
        if i == 1 || Sidecar(i) then disk.slots[i] == old(disk.slots)[i].(dest := hist.base[i])
        else disk.slots[i] == old(disk.slots)[i]
      ensures calm == (old(calm) && o.Ok?)
      ensures steady && old(calm) ==> calm
    {
      var slots := disk.slots[1 := disk.slots[1].(dest := opening.database)];
      disk := disk.(slots := slots[8 := slots[8].(dest := opening.wal)][9 := slots[9].(dest := opening.shm)]);
      hist := hist.(base := Opened(hist.base, opening));
      o := Check();
    }

    method CleanupCandidates() returns (o: Outcome)
      requires |disk.slots| == ITEMS
      modifies `disk, `calm
      ensures |disk.slots| == ITEMS && disk == old(disk).(slots := disk.slots)
      ensures forall i :: 0 <= i < ITEMS ==>
        && disk.slots[i].dest == old(disk.slots)[i].dest
        && Shrunk(old(disk.slots)[i].cand, disk.slots[i].cand) && Shrunk(old(disk.slots)[i].roll, disk.slots[i].roll)
      ensures o.Ok? ==> NoRollback(disk.slots) && (old(CandidatesInPlace(disk.slots)) ==> NoCandidate(disk.slots))
      ensures calm == (old(calm) && o.Ok?)
      ensures steady && old(calm) ==> calm
    {
      var failed := false;
      var i := 0;
      while i < ITEMS
        invariant 0 <= i <= ITEMS
        invariant |disk.slots| == ITEMS && disk == old(disk).(slots := disk.slots)
        invariant forall k :: 0 <= k < ITEMS ==> disk.slots[k].dest == old(disk.slots)[k].dest
        invariant forall k :: i <= k < ITEMS ==> disk.slots[k] == old(disk.slots)[k]
        invariant forall k :: 0 <= k < i ==>
          Shrunk(old(disk.slots)[k].cand, disk.slots[k].cand) && Shrunk(old(disk.slots)[k].roll, disk.slots[k].roll)
        invariant forall k :: 0 <= k < i && !failed ==>
          disk.slots[k].roll.Absent? && (Install(k) ==> disk.slots[k].cand.Absent?)
        invariant calm == (old(calm) && !failed)
        invariant steady && old(calm) ==> calm
      {
        if Install(i) {
          var c := Remove(i, Cand);
          if c.Crashed? { return Crashed; }
          failed := failed || c.Failed?;
        }
        var r := Remove(i, Roll);
        if r.Crashed? { return Crashed; }
        failed := failed || r.Failed?;
        i := i + 1;
      }
      o := if failed then Failed else Ok;
    }

    method PrepareCandidates(image: seq<Tree>) returns (o: Outcome, originals: seq<bool>)
      requires |disk.slots| == ITEMS && CandidatesInPlace(disk.slots)
      requires |image| == 7
      modifies `disk, `calm
      ensures |disk.slots| == ITEMS && disk == old(disk).(slots := disk.slots) && CandidatesInPlace(disk.slots)
      ensures forall i :: 0 <= i < ITEMS ==>
        disk.slots[i].dest == old(disk.slots)[i].dest && Shrunk(old(disk.slots)[i].roll, disk.slots[i].roll)
      ensures o.Ok? ==> |originals| == ITEMS && forall i :: 0 <= i < ITEMS ==>
        && (originals[i] <==> disk.slots[i].dest.Present?)
        && disk.slots[i].roll.Absent? && disk.slots[i].cand == ImageOf(image)[i]
      ensures calm == (old(calm) && o.Ok?)
      ensures steady && old(calm) ==> calm
    {
      originals := seq(ITEMS, _ => false);
      o := CleanupCandidates();
      if !o.Ok? { return; }
      o := Check();
      if !o.Ok? { return; }
      ghost var cleaned := disk.slots;
      var slots := disk.slots;
      originals := seq(ITEMS, i requires 0 <= i < ITEMS => slots[i].dest.Present?);
      var i := 0;
      while i < 7
        invariant 0 <= i <= 7
        invariant |disk.slots| == ITEMS && disk == old(disk).(slots := disk.slots)
        invariant forall k :: 0 <= k < i ==> disk.slots[k] == cleaned[k].(cand := Present(image[k]))
        invariant forall k :: i <= k < ITEMS ==> disk.slots[k] == cleaned[k]
        invariant o.Ok? && calm == old(calm)
      {
        o := Check();
        var copied := Present(image[i]);
        if !o.Ok? { copied := *; }
        disk := disk.(slots := disk.slots[i := disk.slots[i].(cand := copied)]);
        if !o.Ok? { return; }
        i := i + 1;
      }
    }

    // ----- activation and rollback -----

    method ActivateItem(i: nat, original: bool) returns (o: Outcome)
      requires |disk.slots| == ITEMS && i < ITEMS
      modifies `disk, `calm
      ensures |disk.slots| == ITEMS && disk == old(disk).(slots := old(disk.slots)[i := disk.slots[i]])
      ensures var s := old(disk.slots)[i];
        || disk.slots[i] == s
        || (original && s.roll.Absent? && s.dest.Present? && disk.slots[i] == Quarantined(s))
        || (Activatable(s, original, Install(i)) && disk.slots[i] == Activated(s, original, Install(i)))
      ensures o.Ok? ==> Activatable(old(disk.slots)[i], original, Install(i))
      ensures o.Ok? ==> disk.slots[i] == Activated(old(disk.slots)[i], original, Install(i))
      ensures calm && Activatable(old(disk.slots)[i], original, Install(i)) ==> o.Ok?
      ensures calm ==> old(calm)
      ensures steady && old(calm) ==> calm
    {
      var slot := disk.slots[i];
      if slot.roll.Present? {
        return Failed;
      }
      if original {
        if slot.dest.Absent? {
          return Failed;
        }
        o := Step(disk.(slots := disk.slots[i := Quarantined(slot)]), false);
        if !o.Ok? { return; }
        slot := disk.slots[i];
      }
      o := Ok;
      if Install(i) {
        if slot.cand.Absent? {
          return Failed;
        }
        o := Step(disk.(slots := disk.slots[i := Slot(slot.cand, Absent, slot.roll)]), false);
      }
    }

    /** Undoes every item from the last to the first; an error on one item does not stop the others. */
    method RollbackItems(originals: seq<bool>, ghost base: seq<Entry>) returns (o: Outcome)
      requires |disk.slots| == |originals| == ITEMS
      modifies `disk, `calm
      ensures |disk.slots| == ITEMS && disk == old(disk).(slots := disk.slots)
      ensures old(CandidatesInPlace(disk.slots)) ==> CandidatesInPlace(disk.slots)
      ensures old(NoCandidate(disk.slots)) ==> NoCandidate(disk.slots)
      ensures Describes(originals, base) && old(AllRecoverable(disk.slots, base)) ==> AllRecoverable(disk.slots, base)
      ensures Describes(originals, base) && old(AllUntouched(disk.slots, base)) ==> AllUntouched(disk.slots, base)
      ensures o.Ok? ==> disk.slots == RollbackAll(old(disk.slots), originals)
      ensures Spared(old(disk.slots), disk.slots, originals)
      ensures calm == (old(calm) && o.Ok?)
      ensures steady && old(calm) ==> calm
    {
      var failed := false;
      var n := ITEMS;
      while n > 0
        invariant 0 <= n <= ITEMS
        invariant |disk.slots| == ITEMS && disk == old(disk).(slots := disk.slots)
        invariant forall k :: 0 <= k < n ==> disk.slots[k] == old(disk.slots)[k]
        invariant old(CandidatesInPlace(disk.slots)) ==> CandidatesInPlace(disk.slots)
        invariant old(NoCandidate(disk.slots)) ==> NoCandidate(disk.slots)
        invariant Describes(originals, base) && old(AllRecoverable(disk.slots, base)) ==>
          AllRecoverable(disk.slots, base)
        invariant Describes(originals, base) && old(AllUntouched(disk.slots, base)) ==> AllUntouched(disk.slots, base)
        invariant forall k :: n <= k < ITEMS ==> SparedSlot(old(disk.slots)[k], disk.slots[k], originals[k])
        invariant !failed ==> forall k :: n <= k < ITEMS ==>
          disk.slots[k] == RollbackSlot(old(disk.slots)[k], originals[k], Install(k))
        invariant calm == (old(calm) && !failed)
        invariant steady && old(calm) ==> calm
      {
        n := n - 1;
        var r := RollbackItem(n, originals[n], if |base| == ITEMS then base[n] else Absent);
        if r.Crashed? { return Crashed; }
        failed := failed || r.Failed?;
      }
      o := if failed then Failed else Ok;
    }

    /** The rollback copy goes back; without one, a destination that only the activation can have made is removed. */
    method RestoreDestination(i: nat, original: bool) returns (o: Outcome)
      requires |disk.slots| == ITEMS && i < ITEMS
      modifies `disk, `calm
      ensures |disk.slots| == ITEMS && disk == old(disk).(slots := old(disk.slots)[i := disk.slots[i]])
      ensures disk.slots[i].cand == old(disk.slots)[i].cand
      ensures old(disk.slots)[i].roll.Present? ==>
        || disk.slots[i] == old(disk.slots)[i].(dest := old(disk.slots)[i].roll, roll := Absent)
        || (!o.Ok? && disk.slots[i].roll == old(disk.slots)[i].roll
               && Shrunk(old(disk.slots)[i].dest, disk.slots[i].dest))
      ensures old(disk.slots)[i].roll.Absent? ==> disk.slots[i].roll.Absent?
      ensures old(disk.slots)[i].roll.Absent? ==>
        if original || (Install(i) && old(disk.slots)[i].cand.Present?) then
          disk.slots[i].dest == old(disk.slots)[i].dest
        else Shrunk(old(disk.slots)[i].dest, disk.slots[i].dest) && (o.Ok? ==> disk.slots[i].dest.Absent?)
      ensures calm == (old(calm) && o.Ok?)
      ensures steady && old(calm) ==> calm
    {
      var slot := disk.slots[i];
      o := Ok;
      if slot.roll.Present? {
        o := Remove(i, Dest);
        if !o.Ok? { return; }
        o := Step(disk.(slots := disk.slots[i := Slot(slot.roll, slot.cand, Absent)]), false);
      } else if !original && Install(i) && slot.cand.Absent? {
        o := Remove(i, Dest);
      } else if !Install(i) && !original {
        o := Remove(i, Dest);
      }
    }

    method RollbackItem(i: nat, original: bool, ghost b: Entry) returns (o: Outcome)
      requires |disk.slots| == ITEMS && i < ITEMS
      modifies `disk, `calm
      ensures |disk.slots| == ITEMS && disk == old(disk).(slots := old(disk.slots)[i := disk.slots[i]])
      ensures Shrunk(old(disk.slots)[i].cand, disk.slots[i].cand)
      ensures (original <==> b.Present?) && Recoverable(old(disk.slots)[i], b, Install(i)) ==>
        Recoverable(disk.slots[i], b, Install(i))
      ensures (original <==> b.Present?) && old(disk.slots)[i].roll.Absent? && old(disk.slots)[i].dest == b ==>
        disk.slots[i].roll.Absent? && disk.slots[i].dest == b
      ensures o.Ok? ==> disk.slots[i] == RollbackSlot(old(disk.slots)[i], original, Install(i))
      ensures SparedSlot(old(disk.slots)[i], disk.slots[i], original)
      ensures calm == (old(calm) && o.Ok?)
      ensures steady && old(calm) ==> calm
    {
      var copied := disk.slots[i].roll.Present?;
      var candidate := Install(i) && disk.slots[i].cand.Present?;
      o := RestoreDestination(i, original);
      if o.Crashed? || (copied && o.Failed?) { return; }
      var failed := o.Failed?;
      if candidate {
        o := Remove(i, Cand);
        if o.Crashed? { return; }
        failed := failed || o.Failed?;
      }
      o := Check();
      if o.Crashed? { return; }
      o := if failed || o.Failed? then Failed else Ok;
    }

    // ----- finalization -----

    method RemoveJournal() returns (o: Outcome)
      modifies `disk, `calm
      ensures disk == old(disk) || disk == old(disk).(journal := None)
      ensures o.Ok? ==> disk.journal.None?
      ensures calm == (old(calm) && o.Ok?)
      ensures steady && old(calm) ==> calm
    {
      o := Step(disk.(journal := None), false);
    }

    /** The authorization is revoked before its journal can go away. */
    method FinalizeRolledBack(identity: nat, code: Code) returns (v: Verdict)
      requires Inv(disk, hist)
      requires hist.betrayed || InPhase(disk, {RolledBack})
      modifies `disk, `calm
      ensures Inv(disk, hist)
      ensures disk.slots == old(disk.slots)
      ensures v in {SafelyRolledBack, Unsafe, Died}
      ensures disk.journal.None? && old(disk.journal).Some? ==> !Requested(disk)
      ensures calm && old(Requested(disk)) && old(ReadPending(disk)).op.identity == identity && code != NoCode ==>
        v == SafelyRolledBack && disk.journal.None? && ReadPending(disk).Found? && ReadPending(disk).op.state == Staged
      ensures calm ==> old(calm)
      ensures steady && old(calm) ==> calm
      ensures disk.journal.None? || disk.journal == old(disk.journal)
    {
      if code == NoCode {
        return Unsafe;
      }
      var o := MarkApplyFailure(identity, code);
      if o.Crashed? { return Died; }
      if o.Ok? {
        o := RemoveJournal();
        if o.Crashed? { return Died; }
      }
      v := SafelyRolledBack;
    }

    /** Rolls back, records that durably as `rolled`, then revokes the authorization. */
    method RollbackAndRecord(identity: nat, rolled: Journal) returns (v: Verdict)
      requires Inv(disk, hist) && ValidJournal(rolled) && rolled.phase == RolledBack
      requires hist.betrayed || (Unwindable(disk, hist) && disk.journal.value.originals == rolled.originals
          && disk.journal.value.auth == rolled.auth)
      modifies `disk, `calm
      ensures Inv(disk, hist)
      ensures v in {SafelyRolledBack, Unsafe, Died}
      ensures v == SafelyRolledBack && !hist.betrayed ==> AllBase(disk, hist)
      ensures calm && old(Requested(disk)) && old(ReadPending(disk)).op.identity == identity ==>
        v == SafelyRolledBack && disk.journal.None? && ReadPending(disk).Found? && ReadPending(disk).op.state == Staged
      ensures calm ==> old(calm)
      ensures steady && old(calm) ==> calm
      ensures disk.journal.None? || disk.journal == old(disk.journal) || disk.journal == Some(rolled)
      ensures Spared(old(disk.slots), disk.slots, rolled.originals)
    {
      hide Spared, CommittedSlot;
      var o := RollbackItems(rolled.originals, hist.base);
      if !hist.betrayed {
        PartialRollbackKeeps(old(disk), disk, hist);
        if o.Ok? {
          UntouchedIsRecoverable(old(disk.slots), hist.base);
          RollbackRestores(old(disk.slots), rolled.originals, hist.base);
        }
      }
      if o.Crashed? { return Died; }
      if o.Failed? { return Unsafe; }
      o := Check();
      if o.Crashed? { return Died; }
      if o.Failed? { return Unsafe; }
      ghost var undone := disk;
      o := WriteJournal(rolled);
      if !hist.betrayed {
        RolledBackKeeps(undone, disk, hist, rolled);
      }
      if o.Crashed? { return Died; }
      if o.Failed? { return Unsafe; }
      v := FinalizeRolledBack(identity, rolled.code);
    }

    /** Deletes the rollback copies and whatever candidates remain; the image stays whole at every step. */
    method DropCopies() returns (o: Outcome)
      requires Inv(disk, hist)
      requires hist.betrayed
        || (InPhase(disk, {Committed}) && !hist.done && AllImage(disk, hist) && AllCommitted(disk, hist))
      modifies `disk, `calm
      ensures Inv(disk, hist) && disk == old(disk).(slots := disk.slots)
      ensures hist.betrayed || (AllImage(disk, hist) && AllCommitted(disk, hist))
      ensures o.Ok? ==> NoRollback(disk.slots)
      ensures calm == (old(calm) && o.Ok?)
      ensures steady && old(calm) ==> calm
      ensures SameDestinations(old(disk), disk, {})
    {
      hide Recoverable, Describes;
      var i := 0;
      while i < ITEMS
        invariant 0 <= i <= ITEMS
        invariant |disk.slots| == ITEMS && disk == old(disk).(slots := disk.slots)
        invariant Inv(disk, hist)
        invariant hist.betrayed || (AllImage(disk, hist) && AllCommitted(disk, hist))
        invariant SameDestinations(old(disk), disk, {})
        invariant forall k :: 0 <= k < i ==> disk.slots[k].roll.Absent?
        invariant calm == old(calm)
      {
        o := Remove(i, Roll);
        if !o.Ok? { return; }
        if Install(i) {
          o := Remove(i, Cand);
          if !o.Ok? { return; }
        }
        i := i + 1;
      }
      o := Ok;
    }

    method FinalizeCommitted(identity: nat, appliedAt: string) returns (v: Verdict)
      requires Inv(disk, hist)
      requires hist.betrayed || (InPhase(disk, {Committed}) && !hist.done && AllImage(disk, hist))
      modifies `disk, `calm, `hist
      ensures Inv(disk, hist)
      ensures v in {Completed, Unsafe, Died} && hist.betrayed == old(hist).betrayed
      ensures hist.activations == old(hist).activations
      ensures Remembers(old(hist), hist, old(hist).base, old(hist).image, 0)
      ensures v == Completed ==> disk.journal.None? && disk.pending.None?
      ensures v == Completed && !hist.betrayed ==> hist.done && AllImage(disk, hist)
      ensures calm && old(Requested(disk)) && old(ReadPending(disk)).op.identity == identity && appliedAt != "" ==>
        v == Completed
      ensures calm ==> old(calm)
      ensures steady && old(calm) ==> calm
      ensures SameDestinations(old(disk), disk, {})
      ensures !hist.betrayed ==> CommittedInPlace(disk, hist)
      ensures hist.image == old(hist).image
    {
      hide Recoverable, Describes;
      if !hist.betrayed { InPlaceIsCommitted(disk, hist); }
      var o := DropCopies();
      if o.Crashed? { return Died; }
      if o.Failed? { return Unsafe; }
      o := Complete(identity, appliedAt);
      if o.Crashed? { return Died; }
      if o.Failed? { return Unsafe; }
      o := RemoveJournal();
      if o.Crashed? { return Died; }
      if o.Failed? { return Unsafe; }
      v := Completed;
    }

    method VerifyActivated(v: Verification) returns (o: Outcome)
      requires |disk.slots| == ITEMS
      modifies `disk
      ensures disk == Verified(old(disk), v) && o == Answer(old(disk), v)
    {
      var wal, shm := v.wal, v.shm;
      if v.outcome.Ok? { wal, shm := Absent, Absent; }
      disk := disk.(slots := disk.slots[8 := disk.slots[8].(dest := wal)][9 := disk.slots[9].(dest := shm)]);
      o := v.outcome;
      if o.Ok? && disk.slots[7].dest.Present? {
        o := Failed;
      }
    }

    method DrawVerification() returns (v: Verification)
      modifies `calm
      ensures calm == (old(calm) && v.outcome.Ok?)
      ensures steady && old(calm) ==> calm
    {
      var o := Check();
      var wal: Entry, shm: Entry := *, *;
      v := Verification(o, wal, shm);
    }

    // ----- Apply -----

    /** Handles a journal found at the start; `retry` asks the caller to begin a new attempt. */
    method ResumeInterrupted(op: Operation, verification: Verification) returns (v: Verdict, retry: bool)
      requires Inv(disk, hist) && disk.journal.Some?
      requires Requested(disk) && ReadPending(disk).op == op
      modifies `disk, `calm, `hist
      ensures Inv(disk, hist)
      ensures retry ==> disk == old(disk).(journal := None) && hist == old(hist)
      ensures retry && !hist.betrayed ==> op.auth !in hist.activations
      ensures !old(InPhase(disk, UNDERWAY)) ==> !InPhase(disk, UNDERWAY) && hist == old(hist)
      ensures !old(hist).betrayed ==> v != ForeignJournal
      ensures Remembers(old(hist), hist, old(hist).base, old(hist).image, 0)
      ensures hist.activations == old(hist).activations
      ensures hist.betrayed <==> old(hist.betrayed || Unsafely(verification, Now()))
      ensures !hist.betrayed && old(CommittedInPlace(disk, hist) && Trusts(disk, hist, verification)) ==>
        CommittedInPlace(disk, hist)
      ensures old(InPhase(disk, UNDERWAY)) ==>
        !retry && Spared(old(disk.slots), disk.slots, old(disk.journal.value.originals))
      ensures v in {Completed, SafelyRolledBack, ForeignJournal, Unsafe, Died}
      ensures !retry && v == Completed ==> disk.pending.None? && disk.journal.None?
      ensures !hist.betrayed && !retry && v == Completed ==> hist.done
      ensures calm && !hist.betrayed ==>
        if old(InPhase(disk, {Committed}) && ImageInPlace(disk, hist)) then !retry && v == Completed && hist.done
        else if old(InPhase(disk, {Committed})) then
          !retry && v == SafelyRolledBack && !Requested(disk) && disk.journal.None?
        else if old(InPhase(disk, {RolledBack})) && old(disk.journal.value.auth) != op.auth then retry
        else !retry && v == SafelyRolledBack && !Requested(disk) && disk.journal.None?
      ensures calm ==> old(calm)
      ensures steady && old(calm) && verification.outcome.Ok? ==> calm
    {
      var j := disk.journal.value;
      v, retry := Unsafe, false;
      if j.phase == RolledBack {
        if j.auth != 0 && j.auth != op.auth {
          var o := RemoveJournal();
          if o.Crashed? { return Died, false; }
          if o.Failed? { return Unsafe, false; }
          return Unsafe, true;
        }
        v := FinalizeRolledBack(op.identity, j.code);
        return;
      }
      if j.auth != 0 && j.auth != op.auth {
        return ForeignJournal, false;
      }
      if j.phase == Committed {
        v := ResumeCommitted(op, j, verification);
        return;
      }
      v := RollbackAndRecord(op.identity, j.(phase := RolledBack, auth := op.auth, code := Interrupted));
    }

    /** A committed journal: verified once more, then finished or rolled back. */
    method ResumeCommitted(op: Operation, j: Journal, verification: Verification) returns (v: Verdict)
      requires Inv(disk, hist) && disk.journal == Some(j) && j.phase == Committed
      requires (hist.betrayed || j.auth == op.auth)
      requires Requested(disk) && ReadPending(disk).op == op
      modifies `disk, `calm, `hist
      ensures Inv(disk, hist)
      ensures Remembers(old(hist), hist, old(hist).base, old(hist).image, 0)
      ensures hist.activations == old(hist).activations
      ensures hist.betrayed <==> old(hist.betrayed || Unsafely(verification, Now()))
      ensures !hist.betrayed && old(ImageInPlace(disk, hist)) && !verification.outcome.Failed? ==>
        CommittedInPlace(disk, hist)
      ensures Spared(old(disk.slots), disk.slots, j.originals)
      ensures v in {Completed, SafelyRolledBack, Unsafe, Died}
      ensures v == Completed ==> disk.pending.None? && disk.journal.None?
      ensures !hist.betrayed && v == Completed ==> hist.done
      ensures calm && !hist.betrayed ==>
        if old(ImageInPlace(disk, hist)) then v == Completed && hist.done
        else v == SafelyRolledBack && !Requested(disk) && disk.journal.None?
      ensures calm ==> old(calm)
      ensures steady && old(calm) && verification.outcome.Ok? ==> calm
    {
      hide Verified, SafeVerdict, AllCommitted, AllRecoverable, Describes, Spared;
      calm := calm && verification.outcome.Ok?;
      var o := VerifyActivated(verification);
      VerifiedSpares(old(disk), verification, j.originals);
      if !SafeVerdict(old(disk), hist, verification) {
        hist := hist.(betrayed := true);
      } else if !hist.betrayed {
        SafeVerdictKeeps(old(disk), hist, verification);
      }
      if o.Crashed? { return Died; }
      if o.Failed? {
        v := RollbackAndRecord(op.identity, j.(phase := RolledBack, code := ApplyFailed));
        return;
      }
      ghost var verified := disk.slots;
      v := FinalizeCommitted(op.identity, j.appliedAt);
      SameIsSpared(verified, disk.slots, j.originals);
    }

    /** A new attempt: snapshot, candidates, PREPARED, APPLYING, ten swaps, verification, COMMITTED. */
    method Attempt(op: Operation, image: seq<Tree>, appliedAt: string, opening: Opening) returns (v: Verdict)
      requires Inv(disk, hist) && disk.journal.None? && |image| == 7 && appliedAt != ""
      requires Requested(disk) && ReadPending(disk).op == op
      modifies `disk, `calm, `hist
      ensures Inv(disk, hist)
      ensures hist.betrayed == old(hist).betrayed
      ensures Remembers(old(hist), hist, Opened(old(hist).base, opening), ImageOf(image), op.auth)
      ensures hist.done && !old(hist).done && !hist.betrayed ==> hist.image == ImageOf(image)
      ensures v in {Completed, SafelyRolledBack, Unsafe, Died}
      ensures v == Completed ==> disk.pending.None? && disk.journal.None?
      ensures v == Completed && !hist.betrayed ==> hist.done && hist.image == ImageOf(image) && AllImage(disk, hist)
      ensures calm && !hist.betrayed ==> v == Completed
      ensures calm ==> old(calm)
      ensures steady && old(calm) ==> calm
      ensures !hist.betrayed ==> CommittedInPlace(disk, hist)
      ensures disk.journal.Some? ==> hist.image == ImageOf(image)
    {
      hide ImageInPlace, AllRecoverable, AllCommitted;
      var o := CreatePreRestoreSnapshot(opening);
      if o.Crashed? { return Died; }
      if o.Failed? {
        o := MarkApplyFailure(op.identity, SnapshotFailed);
        return if o.Crashed? then Died else Unsafe;
      }
      v := Prepare(op, image, appliedAt);
    }

    method Prepare(op: Operation, image: seq<Tree>, appliedAt: string) returns (v: Verdict)
      requires Inv(disk, hist) && disk.journal.None? && |image| == 7 && appliedAt != ""
      requires Requested(disk) && ReadPending(disk).op == op
      modifies `disk, `calm, `hist
      ensures Inv(disk, hist)
      ensures hist.betrayed == old(hist).betrayed && Remembers(old(hist), hist, old(hist).base, ImageOf(image), op.auth)
      ensures hist.done && !old(hist).done && !hist.betrayed ==> hist.image == ImageOf(image)
      ensures v in {Completed, SafelyRolledBack, Unsafe, Died}
      ensures v == Completed ==> disk.pending.None? && disk.journal.None?
      ensures v == Completed && !hist.betrayed ==> hist.done && hist.image == ImageOf(image) && AllImage(disk, hist)
      ensures calm && !hist.betrayed ==> v == Completed
      ensures calm ==> old(calm)
      ensures steady && old(calm) ==> calm
      ensures !hist.betrayed ==> CommittedInPlace(disk, hist)
      ensures disk.journal.Some? ==> hist.image == ImageOf(image)
    {
      hide ImageInPlace, AllRecoverable, AllCommitted;
      var o, originals := PrepareCandidates(image);
      if o.Crashed? { return Died; }
      if o.Failed? {
        v := Abandon(op.identity, PreparationFailed);
        return;
      }
      hist := hist.(image := ImageOf(image));
      var j := Journal(Prepared, 0, op.auth, originals, NoCode, "");
      o := WriteJournal(j);
      if o.Crashed? { return Died; }
      if o.Failed? {
        v := Abandon(op.identity, JournalFailed);
        return;
      }
      v := Swap(op, image, j, appliedAt);
    }

    /** Gives up before any path was touched. */
    method Abandon(identity: nat, code: Code) returns (v: Verdict)
      requires Inv(disk, hist) && disk.journal.None?
      modifies `disk, `calm
      ensures Inv(disk, hist) && disk.journal.None?
      ensures v in {Unsafe, Died}
      ensures calm ==> old(calm)
      ensures steady && old(calm) ==> calm
    {
      var o := CleanupCandidates();
      if o.Crashed? { return Died; }
      o := MarkApplyFailure(identity, code);
      return if o.Crashed? then Died else Unsafe;
    }

    method Swap(op: Operation, image: seq<Tree>, prepared: Journal, appliedAt: string) returns (v: Verdict)
      requires Inv(disk, hist) && |image| == 7 && appliedAt != ""
      requires Requested(disk) && ReadPending(disk).op == op
      requires disk.journal == Some(prepared)
      requires prepared == Journal(Prepared, 0, op.auth, prepared.originals, NoCode, "")
      requires hist.image == ImageOf(image)
      requires forall i :: 0 <= i < ITEMS ==> disk.slots[i].roll.Absent? && disk.slots[i].cand == ImageOf(image)[i]
      requires forall i :: 0 <= i < ITEMS ==> (prepared.originals[i] <==> disk.slots[i].dest.Present?)
      modifies `disk, `calm, `hist
      ensures Inv(disk, hist)
      ensures hist.betrayed == old(hist).betrayed && Remembers(old(hist), hist, old(hist).base, ImageOf(image), op.auth)
      ensures hist.done && !old(hist).done && !hist.betrayed ==> hist.image == ImageOf(image)
      ensures v in {Completed, SafelyRolledBack, Unsafe, Died}
      ensures v == Completed ==> disk.pending.None? && disk.journal.None?
      ensures v == Completed && !hist.betrayed ==> hist.done && hist.image == ImageOf(image) && AllImage(disk, hist)
      ensures calm && !hist.betrayed ==> v == Completed
      ensures calm ==> old(calm)
      ensures steady && old(calm) ==> calm
      ensures !hist.betrayed ==> CommittedInPlace(disk, hist)
      ensures hist.image == old(hist).image
    {
      hide ImageInPlace;
      ghost var start := disk.slots;
      var rolled := prepared.(phase := RolledBack, code := ApplyFailed);
      var j := prepared.(phase := Applying);
      var o := WriteJournal(j);
      if disk.journal == Some(j) {
        hist := hist.(activations := hist.activations + [op.auth]);
      }
      if o.Crashed? { return Died; }
      if o.Failed? {
        v := RollbackAndRecord(op.identity, rolled);
        return;
      }
      o := ActivateAll(j);
      if o.Crashed? { return Died; }
      if o.Failed? {
        v := RollbackAndRecord(op.identity, rolled);
        return;
      }
      v := Commit(op, j.(applied := ITEMS), appliedAt);
    }

    /** The ten items are swapped: verification, then COMMITTED, then finalization; or the rollback. */
    method Commit(op: Operation, j: Journal, appliedAt: string) returns (v: Verdict)
      requires Inv(disk, hist) && disk.journal == Some(j) && j.phase == Applying && j.applied == ITEMS
      requires appliedAt != ""
      requires Requested(disk) && ReadPending(disk).op == op && j.auth == op.auth && RemovesOnly(hist.image)
      requires hist.betrayed || forall i :: 0 <= i < ITEMS ==>
        disk.slots[i].dest == hist.image[i] && disk.slots[i].cand.Absent? && disk.slots[i].roll == hist.base[i]
      requires hist.betrayed || !hist.done
      requires calm ==> disk.slots[7].dest.Absent?
      modifies `disk, `calm, `hist
      ensures Inv(disk, hist)
      ensures hist.betrayed == old(hist).betrayed && hist.activations == old(hist).activations
      ensures Remembers(old(hist), hist, old(hist).base, old(hist).image, op.auth)
      ensures v in {Completed, SafelyRolledBack, Unsafe, Died}
      ensures v == Completed ==> disk.pending.None? && disk.journal.None?
      ensures v == Completed && !hist.betrayed ==> hist.done && hist.image == old(hist).image && AllImage(disk, hist)
      ensures calm && !hist.betrayed ==> v == Completed
      ensures calm ==> old(calm)
      ensures steady && old(calm) ==> calm
      ensures !hist.betrayed ==> CommittedInPlace(disk, hist)
      ensures hist.image == old(hist).image
    {
      var rolled := j.(phase := RolledBack, code := ApplyFailed);
      var verification := DrawVerification();
      var o := VerifyActivated(verification);
      if !hist.betrayed { VerifyingKeeps(old(disk), hist, verification); }
      hide Swapped, Recoverable, CommittedSlot, Describes, Verified;
      if o.Crashed? { return Died; }
      if o.Failed? {
        v := RollbackAndRecord(op.identity, rolled);
        return;
      }
      v := Publish(op, j, appliedAt);
    }

    /** Verified: COMMITTED, then finalization. */
    method Publish(op: Operation, j: Journal, appliedAt: string) returns (v: Verdict)
      requires Inv(disk, hist) && disk.journal == Some(j) && j.phase == Applying && j.applied == ITEMS
      requires appliedAt != ""
      requires Requested(disk) && ReadPending(disk).op == op && j.auth == op.auth
      requires hist.betrayed
        || (!hist.done && Swapped(disk, hist) && disk.slots[8].dest.Absent? && disk.slots[9].dest.Absent?)
      modifies `disk, `calm, `hist
      ensures Inv(disk, hist)
      ensures hist.betrayed == old(hist).betrayed && hist.activations == old(hist).activations
      ensures Remembers(old(hist), hist, old(hist).base, old(hist).image, op.auth)
      ensures v in {Completed, SafelyRolledBack, Unsafe, Died}
      ensures v == Completed ==> disk.pending.None? && disk.journal.None?
      ensures v == Completed && !hist.betrayed ==> hist.done && hist.image == old(hist).image && AllImage(disk, hist)
      ensures calm && !hist.betrayed ==> v == Completed
      ensures calm ==> old(calm)
      ensures steady && old(calm) ==> calm
      ensures !hist.betrayed ==> CommittedInPlace(disk, hist)
      ensures hist.image == old(hist).image
    {
      hide Recoverable, Describes;
      var rolled := j.(phase := RolledBack, code := ApplyFailed);
      var o := WriteJournal(j.(phase := Committed, appliedAt := appliedAt));
      if o.Crashed? { return Died; }
      if o.Failed? {
        v := RollbackAndRecord(op.identity, rolled);
        return;
      }
      v := FinalizeCommitted(op.identity, appliedAt);
    }

    method ActivateAll(applying: Journal) returns (o: Outcome)
      requires Inv(disk, hist) && disk.journal == Some(applying)
      requires applying.phase == Applying && applying.applied == 0
      requires hist.betrayed || AllUntouched(disk.slots, hist.base)
      modifies `disk, `calm
      ensures Inv(disk, hist)
      ensures disk.journal.Some? && disk.journal.value == applying.(applied := disk.journal.value.applied)
      ensures disk == old(disk).(slots := disk.slots, journal := disk.journal)
      ensures o.Ok? ==> disk.journal.value.applied == ITEMS
      ensures o.Ok? ==> forall k :: 0 <= k < ITEMS ==>
        disk.slots[k] == Activated(old(disk.slots)[k], applying.originals[k], Install(k))
      ensures calm && AllActivatable(old(disk.slots), applying.originals) ==> o.Ok?
      ensures calm ==> old(calm)
      ensures steady && old(calm) ==> calm
    {
      var i := 0;
      while i < ITEMS
        invariant 0 <= i <= ITEMS
        invariant |disk.slots| == ITEMS
        invariant disk == old(disk).(slots := disk.slots, journal := Some(applying.(applied := i)))
        invariant Inv(disk, hist)
        invariant forall k :: 0 <= k < i ==>
          disk.slots[k] == Activated(old(disk.slots)[k], applying.originals[k], Install(k))
        invariant forall k :: i <= k < ITEMS ==> disk.slots[k] == old(disk.slots)[k]
        invariant calm ==> old(calm)
        invariant steady && old(calm) ==> calm
      {
        ghost var before := disk;
        o := ActivateItem(i, applying.originals[i]);
        if !hist.betrayed {
          ActivationKeeps(before, disk, hist, i);
        }
        if !o.Ok? { return; }
        ghost var moved := disk;
        o := WriteJournal(applying.(applied := i + 1));
        if !hist.betrayed {
          CountingKeeps(moved, disk, hist);
        }
        if !o.Ok? { return; }
        o := Check();
        if !o.Ok? { return; }
        i := i + 1;
      }
      o := Ok;
    }

    /** `opening` is what a snapshot will leave of the live database, `verification` what verifying a committed tree
        will find. */
    method Apply(image: seq<Tree>, appliedAt: string, opening: Opening, verification: Verification) returns (v: Verdict)
      requires Inv(disk, hist) && |image| == 7 && appliedAt != ""
      modifies `disk, `calm, `hist
      ensures Inv(disk, hist)
      ensures !old(hist).betrayed ==> v != ForeignJournal
      ensures v == Completed && !hist.betrayed ==> hist.done && AllImage(disk, hist)
      ensures v in {NothingPending, NotAuthorized} ==> disk == old(disk) && !Requested(disk)
      ensures calm && !hist.betrayed && old(Requested(disk)) ==> v in {Completed, SafelyRolledBack} && !Requested(disk)
      ensures calm && !hist.betrayed && old(Requested(disk) && disk.journal.None?) ==>
        v == Completed && hist.image == ImageOf(image)
      ensures ApplyStep(image, opening, verification, old(Now()), Now()) && (calm ==> old(calm))
      ensures steady && old(calm) && verification.outcome.Ok? ==> calm
    {
      if InPhase(disk, UNDERWAY) {
        SameIsSpared(disk.slots, disk.slots, disk.journal.value.originals);
      }
      hide Unsafely, Spared, CommittedInPlace, Trusts, AllCommitted, AllRecoverable, Describes, Destinations, Opened;
      var o := Check();
      if o.Crashed? { return Died; }
      if o.Failed? { return Unsafe; }
      var found := ReadPending(disk);
      if found.NotPending? { return NothingPending; }
      if found.Unreadable? { return Unsafe; }
      if found.op.state != ApplyRequested { return NotAuthorized; }
      if disk.journal.Some? {
        var retry;
        v, retry := ResumeInterrupted(found.op, verification);
        if !retry { return; }
      }
      v := Attempt(found.op, image, appliedAt, opening);
      if !hist.betrayed && old(disk).journal.None? && !Requested(disk) {
        EndsClean(image, opening, old(disk), old(hist), disk, hist, found.op.auth);
      }
    }

    // ----- the rest of the life of a gateway -----

    /** A verified upload becomes the one pending operation. Its candidate, rollback and
        journal paths carry a new restore id, so they do not exist yet. */
    method Stage(identity: nat) returns (o: Outcome)
      requires Inv(disk, hist)
      modifies `disk, `calm, `hist
      ensures Inv(disk, hist)
      ensures hist == old(hist).(done := hist.done)
      ensures forall i :: 0 <= i < ITEMS ==> disk.slots[i].dest == old(disk.slots)[i].dest
      ensures disk.slots != old(disk.slots) ==>
        old(disk.pending).None? && (hist.betrayed || NoRollback(old(disk.slots)))
      ensures o.Ok? ==> ReadPending(disk) == Found(Operation(identity, Staged, 0, NoCode, ""))
      ensures StageStep(identity, old(Now()), Now()) && (calm ==> old(calm))
      ensures steady && old(calm) ==> calm
    {
      if disk.pending.Some? {
        return Failed;
      }
      hist := hist.(done := false);
      var op := Operation(identity, Staged, 0, NoCode, "");
      var slots := disk.slots;
      disk := disk.(slots := seq(ITEMS, i requires 0 <= i < ITEMS => Slot(slots[i].dest, Absent, Absent)),
          journal := None);
      o := Step(Put(disk, OperationRecord, Some(op)), false);
      if !o.Ok? { return; }
      o := Step(Put(disk, PendingMarker, Some(op)), false);
    }

    /** The running gateway edits its own files; it runs only while no apply is requested. */
    method Serve(i: nat, content: Entry)
      requires Inv(disk, hist)
      modifies `disk, `hist
      ensures Inv(disk, hist) && ServeStep(i, content, old(Now()), Now())
    {
      if !Requested(disk) && i < ITEMS {
        disk := disk.(slots := disk.slots[i := disk.slots[i].(dest := content)]);
        hist := hist.(base := hist.base[i := content], image := hist.image[i := content]);
      }
    }

    /** Any schedule of calls, each of which may be cut short by a crash anywhere inside it, except in the events that
        the environment leaves alone. The trace starts at the present state, follows the events one by one and ends at
        the state that is left. */
    method Run(events: seq<Event>, undisturbed: seq<bool>) returns (ghost trace: seq<Snap>)
      requires Inv(disk, hist) && Schedule(events) && forall e :: e in events && e.Authorize? ==>
        e.token !in hist.issued
      requires |undisturbed| == |events|
      modifies this
      ensures |trace| == |events| + 1 && trace[0] == old(Now()) && trace[|events|] == Now()
      ensures forall k :: 0 <= k < |events| ==> Follows(trace, events, undisturbed, k)
      ensures forall k :: 0 <= k < |trace| && !trace[k].hist.betrayed ==> Sound(trace[k])
      ensures !old(hist).betrayed ==>
        forall k :: 0 <= k < |trace| && trace[k].hist.betrayed ==> exists i :: 0 <= i < k && UnsafeAt(trace, events, i)
      ensures old(!hist.betrayed && disk.journal.None?) ==>
        forall k :: 0 <= k < |trace| && !trace[k].hist.betrayed && !Requested(trace[k].disk) ==>
          Explained(Destinations(old(disk)), events, k, Destinations(trace[k].disk))
      ensures old(!hist.betrayed && CommittedInPlace(disk, hist)) && AllTrusted(trace, events) ==>
        forall k :: 0 <= k < |trace| ==> !trace[k].hist.betrayed && Sound(trace[k])
    {
      hide Inv, CommittedInPlace, AllTrusted, Explained, AllOrNothing, CopiesAreJournaled, StageStep, AuthorizeStep,
          DiscardStep, ApplyStep, ServeStep;
      trace := [Now()];
      if !hist.betrayed { InvariantMeaning(disk, hist); }
      var n := 0;
      while n < |events|
        invariant 0 <= n <= |events| && |trace| == n + 1 && trace[0] == old(Now()) && trace[n] == Now()
        invariant Inv(disk, hist)
        invariant forall k :: n <= k < |events| && events[k].Authorize? ==> events[k].token !in hist.issued
        invariant forall k :: 0 <= k < n ==> Follows(trace, events, undisturbed, k)
        invariant forall k :: 0 <= k < |trace| ==> Inv(trace[k].disk, trace[k].hist)
        invariant forall k :: 0 <= k < |trace| && !trace[k].hist.betrayed ==> Sound(trace[k])
      {
        Perform(events[n], undisturbed[n]);
        if !hist.betrayed { InvariantMeaning(disk, hist); }
        ghost var past := trace;
        trace := trace + [Now()];
        forall k | 0 <= k < n ensures Follows(trace, events, undisturbed, k) {
          assert Follows(past, events, undisturbed, k);
        }
        n := n + 1;
      }
      if !old(hist).betrayed {
        forall k | 0 <= k < |trace|
          && trace[k].hist.betrayed ensures exists i :: 0 <= i < k && UnsafeAt(trace, events, i) {
          GivenUpAfterUnsafe(trace, events, undisturbed, k);
        }
      }
      if old(!hist.betrayed && disk.journal.None?) {
        forall k | 0 <= k < |trace| && !trace[k].hist.betrayed && !Requested(trace[k].disk)
          ensures Explained(Destinations(old(disk)), events, k, Destinations(trace[k].disk))
        {
          DestinationsAreExplained(trace, events, undisturbed, k);
        }
      }
      if old(!hist.betrayed && CommittedInPlace(disk, hist)) && AllTrusted(trace, events) {
        forall k | 0 <= k < |trace| ensures !trace[k].hist.betrayed && Sound(trace[k]) {
          TrustedRunIsSound(trace, events, undisturbed, k);
        }
      }
    }

    method Perform(e: Event, undisturbed: bool)
      requires Inv(disk, hist) && Proper(e) && (e.Authorize? ==> e.token !in hist.issued)
      modifies this
      ensures Inv(disk, hist) && EventStep(e, old(Now()), Now()) && (undisturbed && !Refuses(e) ==> calm)
      ensures hist.issued == if e.Authorize? then old(hist).issued + {e.token} else old(hist).issued
    {
      calm, steady := true, undisturbed;
      match e {
        case Stage(identity) => var _ := Stage(identity);
        case Authorize(identity, token) => var _ := AuthorizeApply(identity, token);
        case Discard(identity) => var _ := Discard(identity);
        case Apply(image, at, opening, verification) => var _ := Apply(image, at, opening, verification);
        case Serve(i, content) => Serve(i, content);
      }
    }
  }

  /** All or nothing, no rollback copy without its journal, no authorization served twice. */
  ghost predicate Sound(s: Snap) {
    AllOrNothing(s.disk, s.hist) && CopiesAreJournaled(s.disk) && Distinct(s.hist.activations)
  }

  ghost predicate Follows(trace: seq<Snap>, events: seq<Event>, undisturbed: seq<bool>, k: nat)
    requires k < |events| == |undisturbed| && Schedule(events)
  {
    k + 1 < |trace| && EventStep(events[k], trace[k], trace[k + 1]) && (undisturbed[k] && !Refuses(events[k]) ==>
      trace[k + 1].calm)
  }

  /** The event comes with a verification that does not succeed. */
  predicate Refuses(e: Event) { e.Apply? && !e.verification.outcome.Ok? }

  /** No verification of the run refuses a committed tree that is the image. */
  ghost predicate AllTrusted(trace: seq<Snap>, events: seq<Event>) {
    forall k :: 0 <= k < |events| && k < |trace| && events[k].Apply? && Shape(trace[k].disk, trace[k].hist) ==>
      Trusts(trace[k].disk, trace[k].hist, events[k].verification)
  }

  /** The verdict of event i is unsafe. */
  ghost predicate UnsafeAt(trace: seq<Snap>, events: seq<Event>, i: nat) {
    i < |events| && i < |trace| && events[i].Apply? && Unsafely(events[i].verification, trace[i])
  }

  /** A run is given up only after an unsafe verdict. */
  lemma {:induction false} GivenUpAfterUnsafe(trace: seq<Snap>, events: seq<Event>, undisturbed: seq<bool>, k: nat)
    requires |trace| == |events| + 1 && |undisturbed| == |events| && Schedule(events) && k < |trace|
    requires forall i :: 0 <= i < |events| ==> Follows(trace, events, undisturbed, i)
    requires !trace[0].hist.betrayed
    ensures trace[k].hist.betrayed ==> exists i :: 0 <= i < k && UnsafeAt(trace, events, i)
  {
    hide Unsafely;
    if k > 0 {
      GivenUpAfterUnsafe(trace, events, undisturbed, k - 1);
      assert Follows(trace, events, undisturbed, k - 1);
      assert trace[k].hist.betrayed ==> trace[k - 1].hist.betrayed || UnsafeAt(trace, events, k - 1);
    }
  }

  lemma TrustedStep(e: Event, a: Snap, b: Snap)
    requires Proper(e) && EventStep(e, a, b) && Inv(a.disk, a.hist) && !a.hist.betrayed
    requires CommittedInPlace(a.disk, a.hist)
    requires Shape(b.disk, b.hist) && (e.Apply? ==> Trusts(a.disk, a.hist, e.verification))
    ensures !b.hist.betrayed && CommittedInPlace(b.disk, b.hist)
  {
    hide AllCommitted, AllRecoverable;
    if e.Apply? && InPhase(a.disk, {Committed}) && Requested(a.disk) {
      assert !a.hist.done;
      TrustedIsSafe(a.disk, a.hist, e.verification);
    }
  }

  /** If verification never refuses a committed tree that is the image, no state of the run is given up: all or nothing
      in every one. */
  lemma {:induction false} TrustedRunIsSound(trace: seq<Snap>, events: seq<Event>, undisturbed: seq<bool>, k: nat)
    requires |trace| == |events| + 1 && |undisturbed| == |events| && Schedule(events) && k < |trace|
    requires forall i :: 0 <= i < |events| ==> Follows(trace, events, undisturbed, i)
    requires forall i :: 0 <= i < |trace| ==> Inv(trace[i].disk, trace[i].hist)
    requires !trace[0].hist.betrayed && CommittedInPlace(trace[0].disk, trace[0].hist) && AllTrusted(trace, events)
    ensures !trace[k].hist.betrayed && CommittedInPlace(trace[k].disk, trace[k].hist) && Sound(trace[k])
  {
    hide Inv, EventStep, CommittedInPlace, Trusts;
    if k > 0 {
      TrustedRunIsSound(trace, events, undisturbed, k - 1);
      assert Follows(trace, events, undisturbed, k - 1);
      InvHasShape(trace[k - 1].disk, trace[k - 1].hist);
      InvHasShape(trace[k].disk, trace[k].hist);
      TrustedStep(events[k - 1], trace[k - 1], trace[k]);
    }
    InvariantMeaning(trace[k].disk, trace[k].hist);
  }

  /** The image of one of the first k applies. */
  ghost predicate Restored(events: seq<Event>, k: nat, contents: seq<Entry>) {
    exists i :: 0 <= i < k && i < |events| && events[i].Apply? && |events[i].image| == 7
      && contents == ImageOf(events[i].image)
  }

  /** What the ten paths may hold after the first k events, by the events alone: what they held at the start, the image
      of an apply, either with what the gateway wrote into it since and what snapshots left of its database. */
  ghost predicate Explained(first: seq<Entry>, events: seq<Event>, k: nat, contents: seq<Entry>)
    decreases k, 0
  {
    if k == 0 || k > |events| then contents == first
    else
      || Explained(first, events, k - 1, contents)
      || Restored(events, k, contents)
      || EditedFrom(first, events, k - 1, contents)
  }

  ghost predicate EditedFrom(first: seq<Entry>, events: seq<Event>, k: nat, contents: seq<Entry>)
    requires k < |events|
    decreases k, 1
  {
    exists before :: Explained(first, events, k, before) && Edited(events[k], before, contents)
  }

  predicate Edited(e: Event, before: seq<Entry>, after: seq<Entry>) {
    |before| == ITEMS &&
    match e
    case Serve(i, content) => i < ITEMS && after == before[i := content]
    case Apply(_, _, opening, _) => after == Opened(before, opening)
    case _ => false
  }

  /** The originals, and the image under way, have a source in the events. */
  ghost predicate Sourced(first: seq<Entry>, events: seq<Event>, k: nat, s: Snap) {
    !s.hist.betrayed ==>
      && Explained(first, events, k, s.hist.base)
      && (InPhase(s.disk, UNDERWAY) && !s.hist.done ==> Restored(events, k, s.hist.image))
  }

  lemma ExplainedGrows(first: seq<Entry>, events: seq<Event>, k: nat, before: seq<Entry>, after: seq<Entry>)
    requires k < |events| && Explained(first, events, k, before)
    requires after == before || Edited(events[k], before, after) || Restored(events, k + 1, after)
    ensures Explained(first, events, k + 1, after)
  {
    if Edited(events[k], before, after) { assert EditedFrom(first, events, k, after); }
  }

  lemma RestoredGrows(events: seq<Event>, k: nat, contents: seq<Entry>)
    requires k < |events|
    requires Restored(events, k, contents)
      || (events[k].Apply? && |events[k].image| == 7 && contents == ImageOf(events[k].image))
    ensures Restored(events, k + 1, contents)
  {}

  lemma UnderwayIsRequested(d: Disk, h: History)
    requires Inv(d, h) && !h.betrayed && InPhase(d, UNDERWAY)
    ensures h.done <==> !Requested(d)
  {}

  lemma SourcedStep(first: seq<Entry>, events: seq<Event>, k: nat, a: Snap, b: Snap)
    requires k < |events| && Proper(events[k]) && EventStep(events[k], a, b)
    requires Inv(a.disk, a.hist) && Inv(b.disk, b.hist) && Sourced(first, events, k, a)
    ensures Sourced(first, events, k + 1, b)
  {
    hide Inv, Explained, Restored;
    InvHasShape(a.disk, a.hist);
    if !b.hist.betrayed {
      assert !a.hist.betrayed;
      if InPhase(a.disk, UNDERWAY) { UnderwayIsRequested(a.disk, a.hist); }
      if Restored(events, k, a.hist.image) { RestoredGrows(events, k, a.hist.image); }
      if events[k].Apply? { RestoredGrows(events, k, ImageOf(events[k].image)); }
      ExplainedGrows(first, events, k, a.hist.base, b.hist.base);
    }
  }

  /** All or nothing by the inputs alone: with no request pending, the ten paths together hold what the events
      explain. */
  lemma {:induction false} DestinationsAreExplained(
    trace: seq<Snap>, events: seq<Event>, undisturbed: seq<bool>, k: nat)
    requires |trace| == |events| + 1 && |undisturbed| == |events| && Schedule(events) && k < |trace|
    requires forall i :: 0 <= i < |events| ==> Follows(trace, events, undisturbed, i)
    requires forall i :: 0 <= i < |trace| ==> Inv(trace[i].disk, trace[i].hist)
    requires !trace[0].hist.betrayed && trace[0].disk.journal.None?
    ensures Sourced(trace[0].hist.base, events, k, trace[k])
    ensures !trace[k].hist.betrayed && !Requested(trace[k].disk) ==>
      Explained(Destinations(trace[0].disk), events, k, Destinations(trace[k].disk))
  {
    hide EventStep, Explained, Restored;
    if k == 0 {
      ExplainedAtStart(trace[0].hist.base, events);
    } else {
      DestinationsAreExplained(trace, events, undisturbed, k - 1);
      assert Follows(trace, events, undisturbed, k - 1);
      SourcedStep(trace[0].hist.base, events, k - 1, trace[k - 1], trace[k]);
    }
    BaseIsHeld(trace[0].disk, trace[0].hist);
    if !trace[k].hist.betrayed && !Requested(trace[k].disk) {
      InvariantMeaning(trace[k].disk, trace[k].hist);
      BaseIsHeld(trace[k].disk, trace[k].hist);
    }
  }

  lemma ExplainedAtStart(first: seq<Entry>, events: seq<Event>)
    ensures Explained(first, events, 0, first)
  {}

  lemma InvHasShape(d: Disk, h: History)
    requires Inv(d, h)
    ensures Shape(d, h)
  {}
}
