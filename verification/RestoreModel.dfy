/**
 The durable state of one restore operation and the invariant that every
 filesystem step of the applier keeps.

 Ten managed paths are swapped. Each has a destination, a candidate (the restored
 content, staged beside it) and a rollback copy (the quarantined original).
 */
module RestoreModel {
  import opened Base

  const ITEMS: nat := 10

  /** Content of a managed path: relative name to bytes. */
  type Tree = map<string, string>

  datatype Entry = Absent | Present(tree: Tree)

  datatype Slot = Slot(dest: Entry, cand: Entry, roll: Entry)

  datatype Phase = Prepared | Applying | Committed | RolledBack

  datatype Journal = Journal(phase: Phase, applied: nat, auth: nat, originals: seq<bool>, code: Code, appliedAt: string)

  datatype OpState = Staged | ApplyRequested | Applied

  /** `identity` stands for the immutable fields; `auth` 0 is the empty authorization. */
  datatype Operation = Operation(identity: nat, state: OpState, auth: nat, error: Code, appliedAt: string)

  datatype Disk = Disk(
    slots: seq<Slot>,
    journal: Option<Journal>,
    pending: Option<Operation>,   // recovery/pending-restore.json
    record: Option<Operation>,    // restores/<id>/operation.json
    last: Option<Operation>)      // recovery/last-restore.json

  /** What the proofs remember about a run. `base` is the content the gateway itself
      left in the destinations, `image` the content a restore must leave there. */
  datatype History = History(
    base: seq<Entry>,
    image: seq<Entry>,
    issued: set<nat>,             // authorizations ever generated
    activations: seq<nat>,        // authorization of every entry into APPLYING
    done: bool,                   // the pending marker was removed by completion
    betrayed: bool)               // verification gave a verdict on a committed tree that was not safe

  /** Items 0..6 install a candidate; mihomo/active and the SQLite sidecars are only removed. */
  predicate Install(i: nat) { i < 7 }

  /** The SQLite files that opening the live database may recreate. */
  predicate Sidecar(i: nat) { i == 8 || i == 9 }

  /** The failure codes the applier writes; `NoCode` is the empty string. */
  datatype Code = NoCode | ApplyFailed | Interrupted | SnapshotFailed | PreparationFailed | JournalFailed

  predicate ValidOperation(op: Operation) {
    match op.state
    case Staged => op.auth == 0 && op.appliedAt == ""
    case ApplyRequested => op.auth != 0 && op.error == NoCode && op.appliedAt == ""
    case Applied => op.auth == 0 && op.error == NoCode && op.appliedAt != ""
  }

  predicate ValidJournal(j: Journal) {
    && j.applied <= ITEMS && |j.originals| == ITEMS
    && (j.phase == Committed ==> j.appliedAt != "")
    && (j.phase == RolledBack <==> j.code != NoCode)
  }

  datatype Lookup = NotPending | Unreadable | Found(op: Operation)

  /** The pending marker only points; operation.json is authoritative. */
  function ReadPending(d: Disk): Lookup {
    if d.pending.None? then NotPending
    else if !ValidOperation(d.pending.value) then Unreadable
    else if d.record.None? || !ValidOperation(d.record.value)
      || d.record.value.identity != d.pending.value.identity then Unreadable
    else Found(d.record.value)
  }

  predicate Requested(d: Disk) {
    ReadPending(d).Found? && ReadPending(d).op.state == ApplyRequested
  }

  // ----- one managed path -----

  /** What an interrupted deletion may leave of `before`. */
  predicate Shrunk(before: Entry, after: Entry) {
    after.Absent? || after == before ||
    (before.Present? && after.Present? && after.tree.Keys <= before.tree.Keys && forall k :: k in after.tree ==>
      after.tree[k] == before.tree[k])
  }

  /** Under an APPLYING journal the original is in the rollback copy, still in place, or was never there. */
  predicate Recoverable(s: Slot, b: Entry, install: bool) {
    || (s.roll.Present? && s.roll == b)
    || (s.roll.Absent? && b.Present? && s.dest == b)
    || (s.roll.Absent? && b.Absent? && (install && s.cand.Present? ==> s.dest.Absent?))
  }

  /** One iteration of rollbackItems that meets no error. */
  function RollbackSlot(s: Slot, original: bool, install: bool): Slot {
    var consumed := !original && (install ==> s.cand.Absent?);
    Slot(if s.roll.Present? then s.roll else if consumed then Absent else s.dest,
         if install then Absent else s.cand,
         Absent)
  }

  /** The original moved aside. */
  function Quarantined(s: Slot): Slot {
    Slot(Absent, s.cand, s.dest)
  }

  function Activated(s: Slot, original: bool, install: bool): Slot {
    var q := if original then Quarantined(s) else s;
    if install then Slot(q.cand, Absent, q.roll) else q
  }

  predicate Activatable(s: Slot, original: bool, install: bool) {
    s.roll.Absent? && (original ==> s.dest.Present?) && (install ==> s.cand.Present?)
  }

  predicate AllActivatable(slots: seq<Slot>, originals: seq<bool>) {
    |slots| == |originals| == ITEMS
    && forall k :: 0 <= k < ITEMS ==> Activatable(slots[k], originals[k], Install(k))
  }

  /** The content the ten destinations must hold after a restore of `image`. */
  function ImageOf(image: seq<Tree>): (r: seq<Entry>)
    requires |image| == 7
    ensures |r| == ITEMS && RemovesOnly(r)
    ensures forall i :: 0 <= i < 7 ==> r[i] == Present(image[i])
  {
    seq(ITEMS, i requires 0 <= i < ITEMS => if i < 7 then Present(image[i]) else Absent)
  }

  predicate CommittedSlot(s: Slot, b: Entry, m: Entry, i: nat) {
    && (Sidecar(i) || s.dest == m)
    && s.cand.Absent?
    && Shrunk(b, s.roll)
  }

  /** The copy of the original that a committed journal may be losing is still enough. */
  predicate OriginalKept(s: Slot, b: Entry) {
    b.Present? ==> s.roll == b || (s.roll.Absent? && s.dest == b)
  }

  // ----- all ten -----

  predicate Shape(d: Disk, h: History) {
    |d.slots| == ITEMS && |h.base| == ITEMS && |h.image| == ITEMS
  }

  predicate AllBase(d: Disk, h: History) requires Shape(d, h) {
    forall i :: 0 <= i < ITEMS ==> d.slots[i].dest == h.base[i]
  }

  predicate AllImage(d: Disk, h: History) requires Shape(d, h) {
    forall i :: 0 <= i < ITEMS ==> d.slots[i].dest == h.image[i]
  }

  predicate NoRollback(slots: seq<Slot>) {
    forall i :: 0 <= i < |slots| ==> slots[i].roll.Absent?
  }

  predicate NoCandidate(slots: seq<Slot>) {
    forall i :: 0 <= i < |slots| ==> slots[i].cand.Absent?
  }

  predicate AllRecoverable(slots: seq<Slot>, base: seq<Entry>) {
    |slots| == |base| == ITEMS && forall i :: 0 <= i < ITEMS ==> Recoverable(slots[i], base[i], Install(i))
  }

  predicate AllCommitted(d: Disk, h: History) requires Shape(d, h) {
    forall i :: 0 <= i < ITEMS ==> CommittedSlot(d.slots[i], h.base[i], h.image[i], i)
  }

  predicate RemovesOnly(image: seq<Entry>) {
    forall i :: 0 <= i < |image| && !Install(i) ==> image[i].Absent?
  }

  /** Delete-only items never have a candidate. */
  predicate CandidatesInPlace(slots: seq<Slot>) {
    forall i :: 0 <= i < |slots| && !Install(i) ==> slots[i].cand.Absent?
  }

  /** Nothing was moved yet, or everything was moved back. */
  predicate AllUntouched(slots: seq<Slot>, base: seq<Entry>) {
    |slots| == |base| == ITEMS && forall i :: 0 <= i < ITEMS ==> slots[i].dest == base[i] && slots[i].roll.Absent?
  }

  /** The journal's OriginalExists flags tell the truth about the originals. */
  predicate Describes(originals: seq<bool>, base: seq<Entry>) {
    |originals| == |base| == ITEMS && forall i :: 0 <= i < ITEMS ==> (originals[i] <==> base[i].Present?)
  }

  function RollbackAll(slots: seq<Slot>, originals: seq<bool>): (r: seq<Slot>)
    requires |slots| == |originals|
    ensures |r| == |slots|
    ensures forall i :: 0 <= i < |slots| ==> r[i] == RollbackSlot(slots[i], originals[i], Install(i))
  {
    seq(|slots|, i requires 0 <= i < |slots| => RollbackSlot(slots[i], originals[i], Install(i)))
  }

  predicate Distinct(s: seq<nat>) {
    forall i, j :: 0 <= i < j < |s| ==> s[i] != s[j]
  }

  /** Both operation files parse, agree on identity, and hold issued authorizations only. */
  predicate Records(d: Disk, h: History) {
    && (d.pending.Some? ==>
         d.record.Some? && d.pending.value.identity == d.record.value.identity && ValidOperation(d.pending.value))
    && (d.record.Some? ==>
          && ValidOperation(d.record.value) && d.record.value.state != Applied
          && (d.record.value.auth != 0 ==> d.record.value.auth in h.issued))
  }

  /** The journal is the operation's own: it carries the authorization that is being served. */
  predicate Serving(d: Disk, auth: nat) {
    Requested(d) && ReadPending(d).op.auth == auth
  }

  predicate JournalGood(d: Disk, h: History) requires Shape(d, h) {
    match d.journal
    case None =>
      AllBase(d, h) && NoRollback(d.slots) && (h.done ==> AllImage(d, h) && d.pending.None?)
      && (Requested(d) ==> ReadPending(d).op.auth !in h.activations)
    case Some(j) =>
      && j.auth in h.issued && j.auth != 0
      && match j.phase
         case Prepared =>
           !h.done && Serving(d, j.auth) && Describes(j.originals, h.base) && AllBase(d, h) && NoRollback(d.slots)
             && j.auth !in h.activations
         case Applying =>
           !h.done && Serving(d, j.auth) && Describes(j.originals, h.base) && AllRecoverable(d.slots, h.base)
             && j.auth in h.activations
         case Committed =>
           if h.done then d.pending.None? && AllBase(d, h) && AllImage(d, h) && NoRollback(d.slots)
           else Serving(d, j.auth) && Describes(j.originals, h.base) && RemovesOnly(h.image) && j.auth in h.activations
                && NoCandidate(d.slots) && (AllCommitted(d, h) || AllRecoverable(d.slots, h.base))
         case RolledBack =>
           && !h.done && AllBase(d, h) && NoRollback(d.slots)
           && (Requested(d) ==> ReadPending(d).op.auth == j.auth || ReadPending(d).op.auth !in h.activations)
  }

  predicate Good(d: Disk, h: History) requires Shape(d, h) {
    && JournalGood(d, h)
    && Distinct(h.activations)
    && (forall a :: a in h.activations ==> a in h.issued)
  }

  /** Holds between any two filesystem operations. */
  predicate Inv(d: Disk, h: History) {
    && Shape(d, h) && Records(d, h) && CandidatesInPlace(d.slots)
    && (d.journal.Some? ==> ValidJournal(d.journal.value))
    && (h.betrayed || Good(d, h))
  }

  /** A rollback may begin: the journal describes originals that are all still there. */
  predicate Unwindable(d: Disk, h: History) requires Shape(d, h) {
    d.journal.Some? && (d.journal.value.phase in {Prepared, Applying}
        || (d.journal.value.phase == Committed && !h.done && AllRecoverable(d.slots, h.base)))
  }

  /** Everything of the image is in place; the SQLite side files come and go. */
  predicate ImageInPlace(d: Disk, h: History) requires Shape(d, h) {
    forall i :: 0 <= i < ITEMS && !Sidecar(i) ==> d.slots[i].dest == h.image[i]
  }

  /** A committed tree that neither finalization nor rollback has begun to take apart. */
  predicate Intact(d: Disk, h: History) requires Shape(d, h) {
    ImageInPlace(d, h) && forall i :: 0 <= i < ITEMS && h.base[i].Present? ==> d.slots[i].roll == h.base[i]
  }

  /** The verdict of verification on a committed tree is safe: it left the tree in one of the two states from which the
      journal leads on, it refuses only what can be rolled back, and accepts only what is the image. */
  predicate Judged(d: Disk, h: History, o: Outcome) requires Shape(d, h) {
    && (AllCommitted(d, h) || AllRecoverable(d.slots, h.base))
    && (o.Failed? ==> AllRecoverable(d.slots, h.base))
    && (o.Ok? ==> ImageInPlace(d, h))
  }

  /** What one verification finds: its answer, and the side files it leaves when it does not finish well. */
  datatype Verification = Verification(outcome: Outcome, wal: Entry, shm: Entry)

  /** Opening the live database may recreate the side files; a success has removed them again. */
  function Verified(d: Disk, v: Verification): (e: Disk) requires |d.slots| == ITEMS
    ensures |e.slots| == ITEMS && e == d.(slots := e.slots)
    ensures forall i :: 0 <= i < ITEMS ==>
      e.slots[i] == d.slots[i].(dest := if Sidecar(i) then e.slots[i].dest else d.slots[i].dest)
    ensures v.outcome.Ok? ==> e.slots[8].dest.Absent? && e.slots[9].dest.Absent?
  {
    var wal := if v.outcome.Ok? then Absent else v.wal;
    var shm := if v.outcome.Ok? then Absent else v.shm;
    d.(slots := d.slots[8 := d.slots[8].(dest := wal)][9 := d.slots[9].(dest := shm)])
  }

  /** A remaining mihomo/active is refused in any case. */
  function Answer(d: Disk, v: Verification): Outcome requires |d.slots| == ITEMS {
    if v.outcome.Ok? && d.slots[7].dest.Present? then Failed else v.outcome
  }

  /** The verdict that verification is about to give on this tree is safe. */
  predicate SafeVerdict(d: Disk, h: History, v: Verification) requires Shape(d, h) {
    Judged(Verified(d, v), h, Answer(d, v))
  }

  /** When a verdict is safe: an acceptance of the image, a refusal while every original is kept, or a crash that spoils
      neither. */
  lemma SafeVerdictExactly(d: Disk, h: History, v: Verification)
    requires Inv(d, h) && !h.betrayed && !h.done && d.journal.Some? && d.journal.value.phase == Committed
    ensures Answer(d, v).Ok? ==> (SafeVerdict(d, h, v) <==> ImageInPlace(d, h))
    ensures Answer(d, v).Failed? ==>
        (SafeVerdict(d, h, v) <==> forall i :: 0 <= i < ITEMS ==> OriginalKept(Verified(d, v).slots[i], h.base[i]))
    ensures Answer(d, v).Crashed? && ImageInPlace(d, h) ==> SafeVerdict(d, h, v)
  {
    hide Shrunk;
    var e := Verified(d, v);
    assert forall i :: 0 <= i < ITEMS && h.base[i].Absent? ==> e.slots[i].roll.Absent? by { AbsentHasNoCopy(d, h); }
    if ImageInPlace(d, h) { InPlaceIsCommitted(d, h); }
  }

  lemma AbsentHasNoCopy(d: Disk, h: History)
    requires Inv(d, h) && !h.betrayed && !h.done && d.journal.Some? && d.journal.value.phase == Committed
    ensures forall i :: 0 <= i < ITEMS && h.base[i].Absent? ==> d.slots[i].roll.Absent?
  {}

  /** Verification that never refuses a committed tree is safe as long as the image is in place. */
  lemma TrustedIsSafe(d: Disk, h: History, v: Verification)
    requires Inv(d, h) && !h.betrayed && !h.done && d.journal.Some? && d.journal.value.phase == Committed
    requires ImageInPlace(d, h) && !v.outcome.Failed?
    ensures SafeVerdict(d, h, v) && !Answer(d, v).Failed?
  {
    assert d.slots[7].dest == h.image[7] && h.image[7].Absent?;
    hide Shrunk;
    SafeVerdictExactly(d, h, v);
  }

  /** The content of a managed path is there still, or its rollback copy is, as a copy or back in place; a path that was
      not there before the restore may go. */
  predicate SparedSlot(s: Slot, t: Slot, original: bool) {
    t.dest == s.dest || (s.roll.Present? && (t.dest == s.roll || t.roll == s.roll)) || !original
  }

  predicate Spared(slots: seq<Slot>, after: seq<Slot>, originals: seq<bool>) {
    |slots| == |after| == |originals| == ITEMS && forall i :: 0 <= i < ITEMS && !Sidecar(i) ==>
      SparedSlot(slots[i], after[i], originals[i])
  }

  /** Ten activated items: what the verification before COMMITTED finds. */
  predicate Swapped(d: Disk, h: History) requires Shape(d, h) {
    && RemovesOnly(h.image) && NoCandidate(d.slots) && ImageInPlace(d, h)
    && forall i :: 0 <= i < ITEMS ==> d.slots[i].roll == h.base[i]
  }

  lemma VerifyingKeeps(d: Disk, h: History, v: Verification)
    requires Inv(d, h) && !h.betrayed && d.journal.Some? && d.journal.value.phase == Applying && Swapped(d, h)
    ensures Inv(Verified(d, v), h) && Swapped(Verified(d, v), h)
  {}

  lemma VerifiedSpares(d: Disk, v: Verification, originals: seq<bool>)
    requires |d.slots| == |originals| == ITEMS
    ensures Spared(d.slots, Verified(d, v).slots, originals)
    ensures forall after :: Spared(Verified(d, v).slots, after, originals) ==> Spared(d.slots, after, originals)
  {}

  /** A safe verdict leads on: to the image where it accepts, to the originals where it refuses. */
  lemma SafeVerdictKeeps(d: Disk, h: History, v: Verification)
    requires Inv(d, h) && !h.betrayed && d.journal.Some? && d.journal.value.phase == Committed && Requested(d)
    requires SafeVerdict(d, h, v)
    ensures var e := Verified(d, v);
      && Inv(e, h) && !h.done && RemovesOnly(h.image) && (ImageInPlace(d, h) <==> ImageInPlace(e, h))
      && (Answer(d, v).Failed? ==> Unwindable(e, h))
      && (Answer(d, v).Ok? ==> AllImage(e, h))
    ensures ImageInPlace(d, h) && !v.outcome.Failed? ==> !Answer(d, v).Failed?
    ensures v.outcome.Ok? && !ImageInPlace(d, h) ==> Answer(d, v).Failed?
  {
    JudgedKeeps(d, Verified(d, v), h, Answer(d, v));
    if ImageInPlace(d, h) && !v.outcome.Failed? { TrustedIsSafe(d, h, v); }
  }

  /** Until finalization or a rollback takes it apart, a committed tree may be judged either way. */
  lemma IntactIsSafe(d: Disk, h: History, v: Verification)
    requires Inv(d, h) && !h.betrayed && !h.done && d.journal.Some? && d.journal.value.phase == Committed
    requires Intact(d, h)
    ensures SafeVerdict(d, h, v)
  {
    InPlaceIsCommitted(d, h);
  }

  /** A safe verdict keeps the invariant; the tree changes only in its side files. */
  lemma JudgedKeeps(d: Disk, e: Disk, h: History, o: Outcome)
    requires Inv(d, h) && !h.betrayed && d.journal.Some? && d.journal.value.phase == Committed && Requested(d)
    requires e == d.(slots := e.slots) && |e.slots| == ITEMS && Judged(e, h, o)
    requires forall i :: 0 <= i < ITEMS ==>
      e.slots[i] == d.slots[i].(dest := if Sidecar(i) then e.slots[i].dest else d.slots[i].dest)
    ensures Inv(e, h) && !h.done && RemovesOnly(h.image)
    ensures ImageInPlace(d, h) <==> ImageInPlace(e, h)
    ensures o.Failed? ==> Unwindable(e, h)
  {}

  /** What opening the live database before a restore leaves of it: the database and its side files. */
  datatype Opening = Opening(database: Entry, wal: Entry, shm: Entry)

  function Opened(contents: seq<Entry>, o: Opening): (r: seq<Entry>)
    requires |contents| == ITEMS
    ensures |r| == ITEMS
    ensures forall i :: 0 <= i < ITEMS && i != 1 && !Sidecar(i) ==> r[i] == contents[i]
    ensures r[1] == o.database && r[8] == o.wal && r[9] == o.shm
  {
    contents[1 := o.database][8 := o.wal][9 := o.shm]
  }

  /** What a call may do to the memory of a run: the originals stay, become what is `left`, or all at once the image by
      completion; activations grow only by the authorization served. */
  ghost predicate Remembers(h: History, k: History, left: seq<Entry>, image: seq<Entry>, auth: nat) {
    && k.issued == h.issued && (h.betrayed ==> k.betrayed) && |k.base| == |h.base|
    && (k.image == h.image || k.image == image)
    && (k.activations == h.activations || k.activations == h.activations + [auth])
    && (if k.betrayed then true else if k.done && !h.done then k.base == k.image
        else k.done == h.done && (k.base == h.base || k.base == left))
  }

  // ----- what rollback computes -----

  lemma UntouchedIsRecoverable(slots: seq<Slot>, base: seq<Entry>)
    ensures AllUntouched(slots, base) ==> AllRecoverable(slots, base)
  {
  }

  /** From every state an interruption can leave, a complete rollback leads to the originals and nothing else. */
  lemma RollbackRestores(slots: seq<Slot>, originals: seq<bool>, base: seq<Entry>)
    requires Describes(originals, base) && AllRecoverable(slots, base) && CandidatesInPlace(slots)
    ensures RollbackAll(slots, originals) == seq(ITEMS, i requires 0 <= i < ITEMS => Slot(base[i], Absent, Absent))
  {}

  /** A rollback that stopped anywhere leaves a journal that still describes the disk. */
  lemma PartialRollbackKeeps(d: Disk, e: Disk, h: History)
    requires Inv(d, h) && !h.betrayed && Unwindable(d, h)
    requires e == d.(slots := e.slots) && |e.slots| == ITEMS && CandidatesInPlace(e.slots)
    requires (NoCandidate(d.slots) ==> NoCandidate(e.slots))
    requires AllRecoverable(d.slots, h.base) ==> AllRecoverable(e.slots, h.base)
    requires AllUntouched(d.slots, h.base) ==> AllUntouched(e.slots, h.base)
    ensures Inv(e, h) && Unwindable(e, h)
  {
  }

  /** Recording ROLLED_BACK over the originals is safe. */
  lemma RolledBackKeeps(d: Disk, e: Disk, h: History, j: Journal)
    requires Inv(d, h) && !h.betrayed && Unwindable(d, h)
    requires AllUntouched(d.slots, h.base)
    requires ValidJournal(j) && j.phase == RolledBack && j.auth == d.journal.value.auth
    requires e == d || e == d.(journal := Some(j))
    ensures Inv(e, h)
  {
  }

  /** Any stage of one item's activation keeps that item recoverable. */
  lemma ActivationKeeps(d: Disk, e: Disk, h: History, i: nat)
    requires Inv(d, h) && !h.betrayed && d.journal.Some? && d.journal.value.phase == Applying && i < ITEMS
    requires d.slots[i].dest == h.base[i] && d.slots[i].roll.Absent?
    requires e == d.(slots := e.slots) && |e.slots| == ITEMS && e.slots == d.slots[i := e.slots[i]]
    requires var original := d.journal.value.originals[i];
      || e.slots[i] == d.slots[i]
      || (original && d.slots[i].dest.Present? && e.slots[i] == Quarantined(d.slots[i]))
      || (Activatable(d.slots[i], original, Install(i)) && e.slots[i] == Activated(d.slots[i], original, Install(i)))
    ensures Inv(e, h)
  {}

  lemma CountingKeeps(d: Disk, e: Disk, h: History)
    requires Inv(d, h) && !h.betrayed && d.journal.Some? && d.journal.value.phase == Applying
    requires e.journal.Some? && ValidJournal(e.journal.value)
    requires e == d.(journal := Some(d.journal.value.(applied := e.journal.value.applied)))
    ensures Inv(e, h)
  {
  }

  // ----- what the invariant means -----

  /** Once an operation is no longer APPLY_REQUESTED the ten destinations are all original, or all restored. */
  predicate AllOrNothing(d: Disk, h: History) {
    Shape(d, h) && (!Requested(d) ==> AllBase(d, h) && (h.done ==> AllImage(d, h)))
  }

  /** A rollback copy exists only under a journal that will still look for it. */
  predicate CopiesAreJournaled(d: Disk) {
    forall i :: 0 <= i < |d.slots| && d.slots[i].roll.Present? ==>
      d.journal.Some? && d.journal.value.phase in {Applying, Committed} && d.pending.Some?
  }

  lemma InvariantMeaning(d: Disk, h: History)
    requires Inv(d, h) && !h.betrayed
    ensures AllOrNothing(d, h)
    ensures CopiesAreJournaled(d)
    ensures Distinct(h.activations)
    // the "different apply authorization" branch has no reachable state
    ensures d.journal.Some? && d.journal.value.phase != RolledBack && Requested(d) ==>
      d.journal.value.auth == ReadPending(d).op.auth
  {
  }

  // ----- a committed journal whose verification is refused -----

  /** A committed tree can be rolled back exactly when no rollback copy was lost; the run then goes on as if the
      commit had not happened. */
  lemma KeptIsUnwindable(d: Disk, h: History)
    requires Inv(d, h) && !h.betrayed && !h.done && d.journal.Some? && d.journal.value.phase == Committed
    ensures Unwindable(d, h) <==> forall i :: 0 <= i < ITEMS ==> OriginalKept(d.slots[i], h.base[i])
  {}

  /** With the image in place the tree is as committed, whatever was rolled back and forth before. */
  lemma InPlaceIsCommitted(d: Disk, h: History)
    requires Inv(d, h) && !h.betrayed && !h.done && d.journal.Some? && d.journal.value.phase == Committed
    requires ImageInPlace(d, h)
    ensures AllCommitted(d, h)
  {}

  /** Rolling back a committed tree gives the originals exactly when no rollback copy was lost. */
  lemma CommittedRollbackExact(d: Disk, h: History)
    requires Inv(d, h) && !h.betrayed && !h.done && d.journal.Some? && d.journal.value.phase == Committed
    ensures var undone := d.(slots := RollbackAll(d.slots, d.journal.value.originals));
      AllBase(undone, h) <==> forall i :: 0 <= i < ITEMS ==> OriginalKept(d.slots[i], h.base[i])
  {}

  /** A committed disk whose finalization died after it deleted the first rollback copy. */
  function HalfFinalized(): (r: (Disk, History))
    ensures Inv(r.0, r.1) && !r.1.betrayed && !r.1.done
  {
    var before, after := Present(map["" := "old"]), Present(map["" := "new"]);
    var op := Operation(1, ApplyRequested, 7, NoCode, "");
    var slots := seq(ITEMS, i requires 0 <= i < ITEMS => Slot(if i < 7 then after
      else Absent, Absent, if i == 0 then Absent else before));
    (Disk(slots, Some(Journal(Committed, ITEMS, 7, seq(ITEMS, _ => true), NoCode, "t")), Some(op), Some(op), None),
     History(seq(ITEMS, _ => before), seq(ITEMS, i => if i < 7 then after else Absent), {7}, [7], false, false))
  }

  /** There the rollback mixes: the configuration stays restored while the database goes back. */
  lemma RefusedVerificationMixes()
    ensures var (d, h) := HalfFinalized();
      var undone := d.(slots := RollbackAll(d.slots, d.journal.value.originals));
      !AllBase(undone, h) && !AllImage(undone, h)
      && undone.slots[0].dest == h.image[0] != h.base[0] && undone.slots[1].dest == h.base[1] != h.image[1]
  {
    var (d, h) := HalfFinalized();
    assert h.image[0].tree[""] == "new" && h.base[0].tree[""] == "old";
    assert h.image[1].tree[""] == "new" && h.base[1].tree[""] == "old";
  }

  /** How that disk comes about: ten originals with their candidates, ten complete activations, COMMITTED, and the
      first removal of finalization. */
  lemma HalfFinalizedIsReached()
    ensures var (d, h) := HalfFinalized();
      var prepared := seq(ITEMS, i requires 0 <= i < ITEMS => Slot(h.base[i], h.image[i], Absent));
      var activated := seq(ITEMS,
          i requires 0 <= i < ITEMS => Activated(Slot(h.base[i], h.image[i], Absent), true, Install(i)));
      && (forall i :: 0 <= i < ITEMS ==> Activatable(prepared[i], true, Install(i)))
      && d.slots == activated[0 := activated[0].(roll := Absent)]
      && Inv(d.(slots := activated), h) && Intact(d.(slots := activated), h)
  {
    var (d, h) := HalfFinalized();
    var activated := seq(ITEMS,
        i requires 0 <= i < ITEMS => Activated(Slot(h.base[i], h.image[i], Absent), true, Install(i)));
    assert d.slots == activated[0 := activated[0].(roll := Absent)];
  }

  /** A committed disk whose rollback, after a refused verification, died half-way: items 2 to 6 are original again. */
  function HalfUndone(): (r: (Disk, History))
    ensures Inv(r.0, r.1) && !r.1.betrayed && !r.1.done && Unwindable(r.0, r.1)
  {
    var before, after := Present(map["" := "old"]), Present(map["" := "new"]);
    var op := Operation(1, ApplyRequested, 7, NoCode, "");
    var slots := seq(ITEMS, i requires 0 <= i < ITEMS =>
      if i < 2 then Slot(after, Absent, before) else if i < 7 then Slot(before, Absent, Absent)
        else Slot(Absent, Absent, Absent));
    (Disk(slots, Some(Journal(Committed, ITEMS, 7, seq(ITEMS, i => i < 7), NoCode, "t")), Some(op), Some(op), None),
     History(seq(ITEMS, i => if i < 7 then before else Absent), seq(ITEMS, i => if i < 7 then after
       else Absent), {7}, [7], false, false))
  }

  /** How that disk comes about: ten complete activations, COMMITTED, a refused verification, which the intact tree
      allows, and the rollback of the last eight items. */
  lemma HalfUndoneIsReached()
    ensures var (d, h) := HalfUndone();
      var activated := seq(ITEMS,
          i requires 0 <= i < ITEMS => Activated(Slot(h.base[i], h.image[i], Absent), i < 7, Install(i)));
      && (forall i :: 0 <= i < ITEMS ==> Activatable(Slot(h.base[i], h.image[i], Absent), i < 7, Install(i)))
      && Inv(d.(slots := activated), h) && Intact(d.(slots := activated), h)
      && SafeVerdict(d.(slots := activated), h, Verification(Failed, Absent, Absent))
      && d.slots == activated[..2] + RollbackAll(activated, d.journal.value.originals)[2..]
  {
    var (d, h) := HalfUndone();
    var activated := seq(ITEMS,
        i requires 0 <= i < ITEMS => Activated(Slot(h.base[i], h.image[i], Absent), i < 7, Install(i)));
    var undone := RollbackAll(activated, d.journal.value.originals);
    forall i | 0 <= i < ITEMS ensures d.slots[i] == (activated[..2] + undone[2..])[i] {}
    IntactIsSafe(d.(slots := activated), h, Verification(Failed, Absent, Absent));
  }

  /** Verification looks at the configuration, the database and mihomo/active. All three are those of the image here,
      so a second verification may accept, and finalization then makes the mixture permanent. */
  lemma AcceptedVerificationMixes()
    ensures var (d, h) := HalfUndone();
      && d.slots[0].dest == h.image[0] && d.slots[1].dest == h.image[1] && d.slots[7].dest.Absent?
      && !AllBase(d, h) && !AllImage(d, h) && d.slots[2].dest == h.base[2] != h.image[2]
      && !SafeVerdict(d, h, Verification(Ok, Absent, Absent))
  {
    var (d, h) := HalfUndone();
    assert h.image[2].tree[""] == "new" && h.base[2].tree[""] == "old";
    assert h.image[0].tree[""] == "new" && h.base[0].tree[""] == "old";
  }
}
