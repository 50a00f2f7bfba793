/** The management tunnel moves to a modem only on a handshake made through it:
    internal/dataplane/wireguard.go with internal/wireguard/selector.go. */
module WireGuard {
  import opened Base

  datatype Uplink = Uplink(interface: string, gateway: string, table: int, fwmark: int)

  datatype Reach = Reachable | Probing | Unreachable | OtherReach

  datatype Modem = Modem(
    id: string, enabled: bool, ready: bool, uplink: Uplink, reach: Reach, priority: int, display: int,
    stableSince: Option<int>, updatedAt: Option<int>)

  /** The configuration as far as it matters: its digest, whether the endpoint is a host name, the probe time-out. */
  datatype Config = Config(digest: string, hostname: bool, timeout: int)

  datatype Runtime = Runtime(
    current: string, candidate: string, probeStart: Option<int>, digest: string, routeModem: string, uplink: Uplink,
    endpoint: string, endpointExpires: Option<int>, lastSwitch: Option<int>)

  /** How a write ends: it takes effect, is lost with an error, or takes effect with an error. */
  datatype Fate = Takes | Lost | Late

  /** What one sync meets. `config` is None when there is no configuration file; `readable` when no read fails;
      `dropping` is the fate of dropping a stale candidate; `undisturbed` when nothing fails at all. */
  datatype Input = Input(
    config: Option<Config>, now: int, modems: seq<Modem>, handshake: Option<int>, resolved: Option<string>,
    readable: bool, dropping: Fate, undisturbed: bool)

  /** What the kernel tunnel was last completely set up for. */
  datatype Link = Link(modem: string, uplink: Uplink, digest: string)

  /** A recorded probe: the modem and the settings its routes were installed with, and when. */
  datatype Probe = Probe(modem: string, uplink: Uplink, digest: string, start: int)

  /** What one sync did; `calm` when none of its calls failed. */
  datatype Event = Event(input: Input, ok: bool, installed: Option<Probe>, confirmed: Option<string>, calm: bool)

  // ----- choosing a modem -----

  const MINUTE: int := 60

  const RECONNECT_STABLE: int := 3 * MINUTE

  const FAILBACK_COOLDOWN: int := 15 * MINUTE

  const BLOCKED_RETRY: int := 5 * MINUTE

  const DNS_CACHE: int := 5 * MINUTE

  const DNS_RETRY: int := MINUTE

  predicate Eligible(m: Modem) { m.enabled && m.ready && m.reach == Reachable }

  predicate Retryable(m: Modem, now: int) {
    && m.enabled && m.ready && m.reach != Probing && m.reach != Reachable
    && (m.reach == Unreachable ==> m.updatedAt.Some? && now - m.updatedAt.value >= BLOCKED_RETRY)
  }

  predicate Before(a: Modem, b: Modem) {
    a.priority < b.priority || (a.priority == b.priority && a.display < b.display)
  }

  /** m is the first of the least: what a stable sort puts in front. */
  ghost predicate IsFirst(items: seq<Modem>, m: Modem) {
    exists k :: 0 <= k < |items| && items[k] == m
      && (forall i :: 0 <= i < |items| ==> !Before(items[i], m))
      && (forall i :: 0 <= i < k ==> Before(m, items[i]))
  }

  lemma FirstIsUnique(items: seq<Modem>, a: Modem, b: Modem)
    requires IsFirst(items, a) && IsFirst(items, b)
    ensures a == b
  {
    var i :| 0 <= i < |items| && items[i] == a && forall j :: 0 <= j < i ==> Before(a, items[j]);
    var k :| 0 <= k < |items| && items[k] == b && forall j :: 0 <= j < k ==> Before(b, items[j]);
    assert !Before(items[i], b) && !Before(items[k], a);
  }

  lemma NoneIsFirst(m: Modem)
    ensures !IsFirst([], m)
  {}

  method First(items: seq<Modem>) returns (r: Option<Modem>)
    ensures r.None? <==> items == []
    ensures r.Some? ==> IsFirst(items, r.value) && r.value in items
  {
    if items == [] { return None; }
    var k := 0;
    for i := 1 to |items|
      invariant k < i
      invariant forall j :: 0 <= j < i ==> !Before(items[j], items[k])
      invariant forall j :: 0 <= j < k ==> Before(items[k], items[j])
    {
      if Before(items[i], items[k]) { k := i; }
    }
    r := Some(items[k]);
  }

  function Filter(items: seq<Modem>, keep: Modem -> bool): (r: seq<Modem>)
    ensures forall m :: m in r <==> m in items && keep(m)
  {
    if items == [] then []
    else if keep(items[0]) then [items[0]] + Filter(items[1..], keep)
    else Filter(items[1..], keep)
  }

  /** The first choice is not in charge, has been stable, and the last switch is long enough ago. */
  ghost predicate Overdue(modems: seq<Modem>, current: string, lastSwitch: Option<int>, now: int, m: Modem) {
    && IsFirst(Filter(modems, Eligible), m) && m.id != current
    && m.stableSince.Some? && now - m.stableSince.value >= RECONNECT_STABLE
    && (lastSwitch.None? || now - lastSwitch.value >= FAILBACK_COOLDOWN)
  }

  /** Stays with the current modem unless the preferred one has been stable and the last switch is long enough ago. */
  method SelectManagementModem(modems: seq<Modem>, current: string, lastSwitch: Option<int>, now: int)
    returns (r: Option<Modem>, changed: bool)
    ensures r.None? <==> forall m | m in modems :: !Eligible(m)
    ensures r.Some? ==> r.value in modems && Eligible(r.value)
    ensures r.Some? && (forall m | m in modems && Eligible(m) :: m.id != current) ==>
      changed && IsFirst(Filter(modems, Eligible), r.value)
    ensures r.Some? && changed && (exists m | m in modems :: Eligible(m) && m.id == current) ==>
        && IsFirst(Filter(modems, Eligible), r.value)
        && r.value.stableSince.Some? && now - r.value.stableSince.value >= RECONNECT_STABLE
        && (lastSwitch.None? || now - lastSwitch.value >= FAILBACK_COOLDOWN)
    ensures r.Some? && !changed ==> r.value.id == current
    ensures forall m :: Overdue(modems, current, lastSwitch, now, m) ==> r == Some(m) && changed
  {
    hide IsFirst, Eligible;
    var eligible := Filter(modems, Eligible);
    if |eligible| == 0 {
      forall m ensures !IsFirst(eligible, m) { NoneIsFirst(m); }
      return None, false;
    }
    var first := First(eligible);
    var preferred := first.value;
    forall m | IsFirst(eligible, m) ensures m == preferred { FirstIsUnique(eligible, m, preferred); }
    var currentModem: Option<Modem> := None;
    for i := 0 to |eligible|
      invariant currentModem.None? ==> forall j :: 0 <= j < i ==> eligible[j].id != current
      invariant currentModem.Some? ==> currentModem.value in eligible && currentModem.value.id == current
    {
      if currentModem.None? && eligible[i].id == current { currentModem := Some(eligible[i]); }
    }
    if currentModem.None? { return Some(preferred), preferred.id != current; }
    if currentModem.value.id == preferred.id { return currentModem, false; }
    var stable := preferred.stableSince.Some? && now - preferred.stableSince.value >= RECONNECT_STABLE;
    var cooldownDone := lastSwitch.None? || now - lastSwitch.value >= FAILBACK_COOLDOWN;
    if stable && cooldownDone { return Some(preferred), true; }
    return currentModem, false;
  }

  method NextManagementCandidate(modems: seq<Modem>, now: int) returns (r: Option<Modem>)
    ensures r.None? <==> forall m | m in modems :: !Retryable(m, now)
    ensures r.Some? ==>
      r.value in modems && Retryable(r.value, now) && IsFirst(Filter(modems, m => Retryable(m, now)), r.value)
  {
    hide IsFirst, Retryable;
    var ready := Filter(modems, m => Retryable(m, now));
    r := First(ready);
  }

  // ----- what a run of syncs keeps -----

  /** The modem stored under an id: the last one listed. */
  function Find(modems: seq<Modem>, id: string): Option<Modem> {
    if modems == [] then None
    else if modems[|modems| - 1].id == id then Some(modems[|modems| - 1])
    else Find(modems[..|modems| - 1], id)
  }

  predicate CanUse(modems: seq<Modem>, id: string, uplink: Uplink) {
    var m := Find(modems, id);
    m.Some? && m.value.enabled && m.value.ready && m.value.uplink == uplink
  }

  /** The stored candidate belongs to this configuration and to a modem as it is now. */
  predicate Fits(c: Config, modems: seq<Modem>, r: Runtime) {
    c.digest == r.digest && CanUse(modems, r.candidate, r.uplink)
  }

  /** The sync saw the configuration and the modem settings of the probe. */
  predicate SeesSame(input: Input, p: Probe) {
    input.config.Some? && input.config.value.digest == p.digest && CanUse(input.modems, p.modem, p.uplink)
  }

  function ProbeOf(r: Runtime): Probe {
    Probe(r.candidate, r.uplink, r.digest, if r.probeStart.Some? then r.probeStart.value else 0)
  }

  function LinkOf(p: Probe): Link { Link(p.modem, p.uplink, p.digest) }

  /** The modem in charge: a runtime without one falls back on the state repository. */
  function InCharge(r: Runtime, management: string): string { if r.current != "" then r.current else management }

  /** The sync read configuration and modems, and could have dropped a candidate they do not fit. */
  predicate Saw(e: Event) {
    e.input.config.Some? && (e.ok || e.input.undisturbed || (e.input.readable && !e.input.dropping.Lost?))
  }

  /** Nothing was installed strictly between k and m, and each sync that could tell saw the same settings. */
  ghost predicate Undisturbed(history: seq<Event>, k: nat, m: nat, p: Probe) {
    forall i :: k < i < m && i < |history| ==>
      history[i].installed.None? && (Saw(history[i]) ==> SeesSame(history[i].input, p))
  }

  ghost predicate ProbedAt(history: seq<Event>, k: nat, m: nat, p: Probe) {
    k < m <= |history| && history[k].installed == Some(p) && Undisturbed(history, k, m, p)
  }

  ghost predicate Probed(history: seq<Event>, m: nat, p: Probe) { exists k :: ProbedAt(history, k, m, p) }

  /** A sync after the first m is entitled to confirm the modem: an earlier sync had installed and recorded a
      probe of it, the handshake is strictly later than its start, and the settings are still those of the probe. */
  ghost predicate Entitled(history: seq<Event>, m: nat, input: Input, id: string) {
    exists p :: Probed(history, m, p) && p.modem == id && input.handshake.Some? && input.handshake.value > p.start
      && SeesSame(input, p)
  }

  ghost predicate Justified(history: seq<Event>, m: nat)
    requires m < |history| && history[m].confirmed.Some?
  {
    Entitled(history, m, history[m].input, history[m].confirmed.value)
  }

  ghost predicate AllJustified(history: seq<Event>) {
    forall m :: 0 <= m < |history| && history[m].confirmed.Some? ==> Justified(history, m)
  }

  ghost predicate WasConfirmed(history: seq<Event>, id: string) {
    exists m :: 0 <= m < |history| && history[m].confirmed == Some(id)
  }

  datatype State = State(runtime: Runtime, management: string, kernel: Option<Link>)

  ghost predicate Inv(s: State, history: seq<Event>) {
    && AllJustified(history)
    && (s.runtime.candidate != "" ==>
         s.runtime.probeStart.Some? && s.kernel == Some(LinkOf(ProbeOf(s.runtime)))
           && Probed(history, |history|, ProbeOf(s.runtime)))
    && (s.runtime.current != "" ==> WasConfirmed(history, s.runtime.current))
    && (s.management != "" ==> WasConfirmed(history, s.management))
  }

  /** The sync reads everything, but what it drops is lost. */
  predicate Hidden(input: Input) {
    input.config.Some? && !input.undisturbed && input.readable && input.dropping.Lost?
  }

  /** What one sync may do. */
  ghost predicate Step(s: State, t: State, e: Event) {
    // the probe: dropped, kept under the same settings, or begun anew
    && (|| t.runtime.candidate == ""
        || (&& t.runtime.candidate == s.runtime.candidate && ProbeOf(t.runtime) == ProbeOf(s.runtime)
            && t.runtime.probeStart == s.runtime.probeStart && t.kernel == s.kernel && e.installed.None?
            && (Saw(e) ==> SeesSame(e.input, ProbeOf(s.runtime))))
        || (&& e.installed == Some(ProbeOf(t.runtime)) && t.runtime.probeStart.Some?
               && t.kernel == Some(LinkOf(ProbeOf(t.runtime)))))
    // a probe begins now, under the configuration at hand, on a ready modem
    && (e.installed.Some? ==>
         && e.installed.value.start == e.input.now
         && e.input.config.Some? && e.installed.value.digest == e.input.config.value.digest
         && ReadyAs(e.input.modems, e.installed.value.modem, e.installed.value.uplink))
    // a stale candidate whose dropping is lost stays
    && (Hidden(e.input) && s.runtime.candidate != "" && !SeesSame(e.input, ProbeOf(s.runtime)) ==> !e.ok && t == s)
    // the confirmation
    && (e.confirmed.Some? ==>
         && s.runtime.candidate != "" && e.confirmed.value == s.runtime.candidate
         && e.input.handshake.Some? && s.runtime.probeStart.Some?
         && e.input.handshake.value > s.runtime.probeStart.value
         && SeesSame(e.input, ProbeOf(s.runtime)))
    // the modem in charge: kept, given up, or the confirmed one
    && (|| t.runtime.current in {s.runtime.current, InCharge(s.runtime, s.management), ""}
           || Some(t.runtime.current) == e.confirmed)
    && (|| t.management in {s.management, ""} || Some(t.management) == e.confirmed)
    && (|| InCharge(t.runtime, t.management) in {InCharge(s.runtime, s.management), ""}
        || Some(InCharge(t.runtime, t.management)) == e.confirmed)
  }

  /** What a sync achieves when none of its calls fails. */
  ghost predicate Progress(s: State, t: State, e: Event) {
    var r := s.runtime;
    // a later handshake under unchanged settings confirms the candidate, an earlier one is waited for
    && (r.candidate != "" && SeesSame(e.input, ProbeOf(r)) && Shakes(e.input, r) ==>
         e.ok && e.confirmed == Some(r.candidate) && t.management == r.candidate && t.runtime.current == r.candidate
           && t.runtime.candidate == "")
    && (r.candidate != "" && SeesSame(e.input, ProbeOf(r)) && !Shakes(e.input, r)
           && e.input.now - ProbeOf(r).start < e.input.config.value.timeout ==>
         e.ok && t == s)
    // a candidate past its time-out is given up
    && (TimedOut(e.input, r) ==> t.runtime.candidate == "" || e.installed.Some?)
    // without a candidate, an unsettled tunnel is probed at once if there is a modem to probe it with
    && (Free(e.input, r) && SomeChoice(e.input) && Unsettled(e.input.config.value, Loaded(s)) ==>
         e.ok && e.installed.Some? && t.runtime.candidate == e.installed.value.modem)
    // and so is the first choice once it is overdue
    && (forall m: Modem :: Free(e.input, r) && Due(e.input, Loaded(s), m) ==>
         e.ok && e.installed.Some? && t.runtime.candidate == e.installed.value.modem == m.id
           && e.installed.value.uplink == m.uplink)
  }

  ghost predicate Due(input: Input, r: Runtime, m: Modem) {
    m.id != "" && Overdue(input.modems, r.current, r.lastSwitch, input.now, m)
  }

  /** The runtime as a sync loads it. */
  function Loaded(s: State): Runtime { s.runtime.(current := InCharge(s.runtime, s.management)) }

  /** The tunnel is set up for other settings, or runs through another modem than the one in charge. */
  predicate Unsettled(c: Config, r: Runtime) { c.digest != r.digest || r.routeModem != r.current }

  /** No candidate is awaited, and a probe can be prepared. */
  predicate Free(input: Input, r: Runtime) {
    input.config.Some? && input.resolved.Some? && (r.candidate == "" || TimedOut(input, r))
  }

  predicate TimedOut(input: Input, r: Runtime) {
    && r.candidate != "" && SeesSame(input, ProbeOf(r)) && !Shakes(input, r)
    && input.now - ProbeOf(r).start >= input.config.value.timeout
  }

  /** The handshake is strictly later than the start of the probe. */
  predicate Shakes(input: Input, r: Runtime) { input.handshake.Some? && input.handshake.value > ProbeOf(r).start }

  lemma ProbedGrows(history: seq<Event>, p: Probe, e: Event, m: nat)
    requires Probed(history, m, p) && m <= |history|
    ensures Probed(history + [e], m, p)
  {
    var k :| ProbedAt(history, k, m, p);
    assert ProbedAt(history + [e], k, m, p);
  }

  lemma ConfirmedGrows(history: seq<Event>, e: Event, id: string)
    requires WasConfirmed(history, id) || e.confirmed == Some(id)
    ensures WasConfirmed(history + [e], id)
  {
    var more := history + [e];
    if e.confirmed == Some(id) {
      assert more[|history|].confirmed == Some(id);
    } else {
      var m :| 0 <= m < |history| && history[m].confirmed == Some(id);
      assert more[m].confirmed == Some(id);
    }
  }

  lemma EntitledGrows(history: seq<Event>, e: Event, m: nat, input: Input, id: string)
    requires m <= |history| && Entitled(history, m, input, id)
    ensures Entitled(history + [e], m, input, id)
  {
    hide Probed, SeesSame;
    var p :| Probed(history, m, p) && p.modem == id && input.handshake.Some? && input.handshake.value > p.start
      && SeesSame(input, p);
    ProbedGrows(history, p, e, m);
  }

  lemma JustifiedGrows(history: seq<Event>, e: Event)
    requires AllJustified(history)
    requires e.confirmed.Some? ==> Entitled(history, |history|, e.input, e.confirmed.value)
    ensures AllJustified(history + [e])
  {
    hide Entitled;
    var more := history + [e];
    forall m | 0 <= m < |more| && more[m].confirmed.Some? ensures Justified(more, m) {
      if m < |history| { assert Justified(history, m); }
      EntitledGrows(history, e, m, more[m].input, more[m].confirmed.value);
    }
  }

  lemma ProbeContinues(history: seq<Event>, p: Probe, e: Event)
    requires Probed(history, |history|, p) && e.installed.None?
    requires Saw(e) ==> SeesSame(e.input, p)
    ensures Probed(history + [e], |history| + 1, p)
  {
    hide SeesSame;
    var more := history + [e];
    var k :| ProbedAt(history, k, |history|, p);
    assert ProbedAt(more, k, |more|, p);
  }

  lemma ProbeBegins(history: seq<Event>, p: Probe, e: Event)
    requires e.installed == Some(p)
    ensures Probed(history + [e], |history| + 1, p)
  {
    assert ProbedAt(history + [e], |history|, |history| + 1, p);
  }

  lemma StepKeeps(s: State, t: State, history: seq<Event>, e: Event)
    requires Inv(s, history) && Step(s, t, e)
    ensures Inv(t, history + [e])
  {
    hide Probed, SeesSame, WasConfirmed, AllJustified;
    if e.confirmed.Some? { assert Entitled(history, |history|, e.input, e.confirmed.value); }
    JustifiedGrows(history, e);
    if t.runtime.candidate != "" {
      if e.installed == Some(ProbeOf(t.runtime)) {
        ProbeBegins(history, ProbeOf(t.runtime), e);
      } else {
        ProbeContinues(history, ProbeOf(s.runtime), e);
      }
    }
    if s.runtime.current != "" { ConfirmedGrows(history, e, s.runtime.current); }
    if s.management != "" { ConfirmedGrows(history, e, s.management); }
    if e.confirmed.Some? { ConfirmedGrows(history, e, e.confirmed.value); }
  }

  /** The endpoint's expiry, which only host names have. */
  predicate RefreshDue(c: Config, r: Runtime, now: int) {
    c.hostname && (r.endpointExpires.None? || r.endpointExpires.value <= now)
  }

  predicate ReadyAs(modems: seq<Modem>, id: string, uplink: Uplink) {
    exists m | m in modems :: m.enabled && m.ready && m.id == id && m.uplink == uplink
  }

  predicate SomeChoice(input: Input) {
    (forall m | m in input.modems :: m.id != "")
      && exists m | m in input.modems :: Eligible(m) || Retryable(m, input.now)
  }

  class Backend {
    var s: State
    var steady: bool            // no call will fail in the sync at hand
    const isPublic: string -> bool
    ghost var history: seq<Event>

    constructor (isPublic: string -> bool)
      ensures s == State(Runtime("", "", None, "", "", Uplink("", "", 0, 0), "", None, None), "", None)
      ensures history == [] && Inv(s, history)
    {
      s := State(Runtime("", "", None, "", "", Uplink("", "", 0, 0), "", None, None), "", None);
      this.isPublic, steady := isPublic, false;
      history := [];
    }

    /** Reads, kernel commands and writes that may fail. */
    method Exec() returns (ok: bool)
      ensures steady ==> ok
    {
      ok := *;
      if steady { ok := true; }
    }

    /** Runtime.Put: a failed write may have been committed. */
    method Put(r: Runtime) returns (ok: bool)
      modifies this`s
      ensures s.runtime == r || (!ok && s.runtime == old(s.runtime))
      ensures s.management == old(s.management) && s.kernel == old(s.kernel)
      ensures steady ==> ok
    {
      ok := *;
      if steady { ok := true; }
      var took := *;
      if ok || took { s := s.(runtime := r); }
    }

    method SetManagementModem(id: string) returns (ok: bool)
      modifies this`s
      ensures s.management == id || (!ok && s.management == old(s.management))
      ensures s.runtime == old(s.runtime) && s.kernel == old(s.kernel)
      ensures steady ==> ok
    {
      ok := *;
      if steady { ok := true; }
      var took := *;
      if ok || took { s := s.(management := id); }
    }

    /** The write that drops a candidate. */
    method Drop(r: Runtime, fate: Fate) returns (ok: bool)
      modifies this`s
      ensures s == if steady || !fate.Lost? then old(s).(runtime := r) else old(s)
      ensures ok <==> steady || fate.Takes?
    {
      if steady || !fate.Lost? { s := s.(runtime := r); }
      ok := steady || fate.Takes?;
    }

    /** Drops a stored candidate whose configuration or modem changed. */
    method DropStale(c: Config, input: Input, loaded: Runtime) returns (ok: bool, r: Runtime)
      requires loaded == s.runtime.(current := InCharge(s.runtime, s.management))
      modifies this`s
      ensures s.management == old(s.management) && s.kernel == old(s.kernel)
      ensures s.runtime == old(s.runtime) || (s.runtime == loaded.(candidate := "", probeStart := None))
      ensures ok ==> r.current == loaded.current && r.digest == loaded.digest && r.uplink == loaded.uplink
      ensures ok ==> r.lastSwitch == loaded.lastSwitch && r.routeModem == loaded.routeModem
      ensures ok ==> r.endpoint == loaded.endpoint && r.endpointExpires == loaded.endpointExpires
      ensures ok && r.candidate == "" ==> s.runtime.candidate == ""
      ensures ok && r.candidate != "" ==> s.runtime == old(s.runtime) && r == loaded
      ensures loaded.candidate == "" || Fits(c, input.modems, loaded) ==> ok && r == loaded && s == old(s)
      ensures loaded.candidate != "" && !Fits(c, input.modems, loaded) ==>
        if steady || !input.dropping.Lost? then s.runtime.candidate == "" && (ok ==> r.candidate == "")
        else !ok && s == old(s)
      ensures steady ==> ok
    {
      r := loaded;
      if r.candidate != "" && r.digest != c.digest {
        var found := Find(input.modems, r.candidate);
        if found.Some? && found.value.enabled && found.value.ready {
          var marked := Exec();
          if !marked && input.dropping.Lost? { return false, r; }
        }
        r := r.(candidate := "", probeStart := None);
        ok := Drop(r, input.dropping);
        if !ok { return; }
      }
      if r.candidate != "" && !CanUse(input.modems, r.candidate, r.uplink) {
        r := r.(candidate := "", probeStart := None);
        ok := Drop(r, input.dropping);
        if !ok { return; }
      }
      ok := true;
    }

    /** The candidate under probe: confirmed by a later handshake, awaited, or given up. */
    method Settle(c: Config, input: Input, loaded: Runtime) returns (ok: bool,
        done: bool, r: Runtime, ghost confirmed: Option<string>, ghost calm: bool)
      requires loaded == s.runtime.(current := InCharge(s.runtime, s.management)) && loaded.candidate != ""
      modifies this`s
      ensures s.kernel == old(s.kernel)
      ensures confirmed.None? ==> s.management == old(s.management)
      ensures confirmed.Some? ==> done && confirmed == Some(loaded.candidate)
      ensures confirmed.Some? ==> s.management == old(s.management) || Some(s.management) == confirmed
      ensures confirmed.Some? ==>
        loaded.probeStart.Some? && Shakes(input, loaded)
      ensures s.runtime == old(s.runtime) || s.runtime.candidate == ""
      ensures s.runtime.current in {old(s.runtime.current), loaded.current} || Some(s.runtime.current) == confirmed
      ensures confirmed.Some? ==> s.runtime == old(s.runtime) || Some(s.runtime.current) == confirmed
      ensures confirmed.None? && s.runtime != old(s.runtime) ==> s.runtime.current == loaded.current
      ensures loaded.probeStart.Some? && Shakes(input, loaded) ==>
        done
      ensures !done ==> calm && ok && confirmed.None? && s.runtime == r && r.candidate == ""
      ensures !done ==> r.current == loaded.current && r.digest == loaded.digest
      ensures !done ==> r.routeModem == loaded.routeModem && r.lastSwitch == loaded.lastSwitch
      ensures calm && loaded.probeStart.Some? && Shakes(input, loaded) ==>
          ok && confirmed == Some(loaded.candidate) && s.management == loaded.candidate
      ensures calm && loaded.probeStart.Some? && Shakes(input, loaded) ==>
          s.runtime.current == loaded.candidate && s.runtime.candidate == "" && s.runtime.lastSwitch == Some(input.now)
      ensures calm && loaded.probeStart.Some? && !Shakes(input, loaded) ==>
          (done <==> input.now - loaded.probeStart.value < c.timeout) && (done ==> ok && s.runtime == old(s.runtime))
      ensures steady ==> calm
    {
      r, confirmed, calm, done := loaded, None, false, true;
      if r.probeStart.None? { return false, true, r, None, true; }
      if input.handshake.Some? && input.handshake.value > r.probeStart.value {
        ok := Exec();       // reachability REACHABLE
        if !ok { return; }
        confirmed := Some(r.candidate);
        r := r.(current := r.candidate, candidate := "", probeStart := None, lastSwitch := Some(input.now));
        ok := SetManagementModem(r.current);
        if !ok { return; }
        ok := Put(r);
        calm := ok;
        return;
      }
      if input.now - r.probeStart.value < c.timeout { return true, true, r, None, true; }
      ok := Exec();         // reachability BLOCKED
      if !ok { return; }
      r := r.(candidate := "", probeStart := None);
      ok := Put(r);
      if ok { done, calm := false, true; }
    }

    /** The modem to use: the selected one, else the next to try. `kept` when that is the current one. */
    method Choose(input: Input, r: Runtime) returns (candidate: Option<Modem>, kept: bool)
      ensures candidate.Some? ==>
        candidate.value.id != "" && candidate.value in input.modems && candidate.value.enabled && candidate.value.ready
      ensures SomeChoice(input) ==> candidate.Some?
      ensures kept ==> candidate.Some? && candidate.value.id == r.current
      ensures forall m :: Due(input, r, m) ==> candidate == Some(m)
    {
      hide IsFirst;
      var moved;
      candidate, moved := SelectManagementModem(input.modems, r.current, r.lastSwitch, input.now);
      if candidate.Some? && candidate.value.id != "" { return candidate, !moved || candidate.value.id == r.current; }
      candidate := NextManagementCandidate(input.modems, input.now);
      if candidate.Some? && candidate.value.id == "" { candidate := None; }
      kept := false;
    }

    /** Installs the routes of a modem and records that its probe begins. */
    method Install(c: Config, now: int, m: Modem, endpoint: string, loaded: Runtime)
      returns (ok: bool, ghost installed: Option<Probe>)
      requires s.runtime.candidate == "" && m.id != ""
      modifies this`s
      ensures s.management == old(s.management)
      ensures s.runtime == old(s.runtime) || s.runtime.current == loaded.current
      ensures s.runtime.candidate != "" ==> installed == Some(ProbeOf(s.runtime))
      ensures s.runtime.candidate != "" ==> s.runtime.probeStart.Some? && s.kernel == Some(LinkOf(ProbeOf(s.runtime)))
      ensures installed.Some? ==> installed.value == Probe(m.id, m.uplink, c.digest, now)
      ensures ok ==> installed.Some? && s.runtime.candidate == m.id && s.runtime.current == loaded.current
      ensures steady ==> ok
    {
      installed := None;
      ok := Exec();         // configure the tunnel
      s := s.(kernel := None);
      if !ok { return; }
      ok := Exec();         // switch the uplink routes
      if !ok { return; }
      s := s.(kernel := Some(Link(m.id, m.uplink, c.digest)));
      ok := Exec();         // reachability PROBING
      if !ok { return; }
      var r := loaded.(candidate := m.id, endpoint := endpoint,
              endpointExpires := if c.hostname then Some(now + DNS_CACHE) else None,
              probeStart := Some(now), digest := c.digest, routeModem := m.id, uplink := m.uplink);
      installed := Some(ProbeOf(r));
      ok := Put(r);
    }

    /** Keeps the current modem, gives it up, or installs the routes of a modem and begins to probe it. */
    method StartProbe(c: Config, input: Input, loaded: Runtime)
      returns (ok: bool, ghost installed: Option<Probe>, ghost calm: bool)
      requires s.runtime.candidate == "" && loaded.candidate == ""
      requires loaded.current == InCharge(s.runtime, s.management)
      modifies this`s
      ensures s.management == old(s.management) || s.management == ""
      ensures s.runtime.current in {old(s.runtime.current), loaded.current, ""}
      ensures InCharge(s.runtime, s.management) in {loaded.current, ""}
      ensures s.runtime.candidate != "" ==> installed == Some(ProbeOf(s.runtime))
      ensures s.runtime.candidate != "" ==> s.runtime.probeStart.Some? && s.kernel == Some(LinkOf(ProbeOf(s.runtime)))
      ensures installed.Some? ==> installed.value.start == input.now && installed.value.digest == c.digest
      ensures installed.Some? ==> ReadyAs(input.modems, installed.value.modem, installed.value.uplink)
      // with no failing call, an unsettled tunnel is probed at once, and so is an overdue first choice
      ensures calm && input.resolved.Some? && SomeChoice(input) && Unsettled(c, loaded) ==>
          ok && installed.Some? && s.runtime.candidate == installed.value.modem && s.runtime.current == loaded.current
      ensures forall m :: calm && input.resolved.Some? && Due(input, loaded, m) ==>
          ok && installed.Some? && s.runtime.candidate == installed.value.modem == m.id
            && installed.value.uplink == m.uplink
      ensures steady ==> calm
    {
      hide SomeChoice, IsFirst;
      var r := loaded;
      installed, calm := None, false;
      var changed := r.digest != c.digest;
      var candidate, kept := Choose(input, r);
      if kept && r.routeModem == r.current && !changed && !RefreshDue(c, r, input.now) && isPublic(r.endpoint) {
        ok := Exec();       // authorize the endpoint
        return ok, None, ok;
      }
      if candidate.None? {
        ok := SetManagementModem("");
        if !ok { return; }
        ok := Put(r.(current := ""));
        return ok, None, ok;
      }
      var m := candidate.value;
      var settled := !changed && m.id == r.current && r.routeModem == r.current;
      if input.resolved.None? {
        if settled && c.hostname && isPublic(r.endpoint) {
          ok := Exec();     // authorize the endpoint
          if !ok { return; }
          ok := Put(r.(endpointExpires := Some(input.now + DNS_RETRY)));
          return ok, None, ok;
        }
        var marked := Exec();
        return false, None, marked;
      }
      ok := Exec();         // authorize the endpoint
      if !ok { return; }
      if settled && input.resolved.value == r.endpoint {
        ok := Put(r.(endpointExpires := Some(input.now + DNS_CACHE)));
        return ok, None, ok;
      }
      ok, installed := Install(c, input.now, m, input.resolved.value, r);
      calm := ok;
    }

    /** One sync, from the stored runtime to the stored runtime. */
    method SyncWireGuard(input: Input) returns (ok: bool, ghost calm: bool)
      requires Inv(s, history)
      modifies this
      ensures Inv(s, history)
      ensures |history| == |old(history)| + 1 && old(history) <= history
      ensures var e := history[|old(history)|];
        e.input == input && e.ok == ok && e.calm == calm && (input.undisturbed ==>
          calm) && Step(old(s), s, e) && (calm ==> Progress(old(s), s, e))
    {
      hide Probed, WasConfirmed, AllJustified, Eligible, Retryable;
      var before := s;
      steady := input.undisturbed;
      ghost var installed, confirmed;
      ok, installed, confirmed, calm := Synchronize(input);
      ghost var e := Event(input, ok, installed, confirmed, calm);
      StepKeeps(before, s, history, e);
      history := history + [e];
    }

    method Synchronize(input: Input)
      returns (ok: bool, ghost installed: Option<Probe>, ghost confirmed: Option<string>, ghost calm: bool)
      requires s.runtime.candidate != "" ==> s.runtime.probeStart.Some?
      requires steady == input.undisturbed
      modifies this`s
      ensures Step(old(s), s, Event(input, ok, installed, confirmed, calm))
      ensures calm ==> Progress(old(s), s, Event(input, ok, installed, confirmed, calm))
      ensures steady ==> calm
    {
      hide SomeChoice, CanUse, ReadyAs;
      installed, confirmed, calm := None, None, false;
      var loadable := Exec();
      if !loadable && !input.readable { return false, None, None, false; }
      if input.config.None? { return true, None, None, true; }
      var c := input.config.value;
      if !input.readable && !steady { return false, None, None, false; }
      var r := s.runtime.(current := InCharge(s.runtime, s.management));
      ok, r := DropStale(c, input, r);
      if !ok { return; }
      if r.candidate != "" {
        var done;
        ok, done, r, confirmed, calm := Settle(c, input, r);
        if done { return; }
      }
      ok, installed, calm := StartProbe(c, input, r);
    }

    /** Over every run from an empty runtime the states follow the inputs, each confirmation is justified, and whoever
        is in charge was confirmed. */
    method Run(inputs: seq<Input>) returns (ghost states: seq<State>)
      requires Inv(s, history) && history == []
      modifies this
      ensures |history| == |inputs| && |states| == |inputs| + 1 && states[0] == old(s) && states[|inputs|] == s
      ensures forall k :: 0 <= k < |inputs| ==> Follows(states, history, inputs, k)
      ensures AllJustified(history)
      ensures forall k :: 0 <= k < |states| ==> InChargeIsConfirmed(states[k], history)
    {
      hide AllJustified, Step, Progress, WasConfirmed, Probed, InChargeIsConfirmed;
      states := [s];
      InvMeans(s, history);
      for i := 0 to |inputs|
        invariant Inv(s, history) && |history| == i && |states| == i + 1 && states[0] == old(s) && states[i] == s
        invariant forall k :: 0 <= k < i ==> Follows(states, history, inputs, k)
        invariant forall k :: 0 <= k < |states| ==> InChargeIsConfirmed(states[k], history)
      {
        ghost var past, pastHistory := states, history;
        var ok, calm := SyncWireGuard(inputs[i]);
        states := states + [s];
        InvMeans(s, history);
        forall k | 0 <= k < |past| ensures InChargeIsConfirmed(states[k], history) {
          ConfirmationLasts(past[k], pastHistory, history);
        }
        forall k | 0 <= k < i ensures Follows(states, history, inputs, k) {
          assert Follows(past, pastHistory, inputs, k);
        }
      }
    }
  }

  ghost predicate Follows(states: seq<State>, history: seq<Event>, inputs: seq<Input>, k: nat) {
    k < |inputs| && k < |history| && k + 1 < |states| && history[k].input == inputs[k]
    && (inputs[k].undisturbed ==> history[k].calm) && Step(states[k], states[k + 1], history[k])
    && (history[k].calm ==> Progress(states[k], states[k + 1], history[k]))
  }

  ghost predicate InChargeIsConfirmed(s: State, history: seq<Event>) {
    InCharge(s.runtime, s.management) != "" ==> WasConfirmed(history, InCharge(s.runtime, s.management))
  }

  lemma InvMeans(s: State, history: seq<Event>)
    requires Inv(s, history)
    ensures AllJustified(history) && InChargeIsConfirmed(s, history)
  {}

  lemma ConfirmationLasts(s: State, before: seq<Event>, after: seq<Event>)
    requires before <= after && InChargeIsConfirmed(s, before)
    ensures InChargeIsConfirmed(s, after)
  {}

  /** A failed sync can hide a change: the write of the dropped candidate is lost, and when the old configuration is
      back, the next sync confirms. */
  method FailedSyncCanHideAChange() returns (b: Backend)
    ensures fresh(b) && |b.history| == 3 && b.history[0].installed.Some?
    ensures !b.history[1].ok && b.history[1].input.readable && b.history[1].input.dropping.Lost?
    ensures b.history[1].input.config.Some? && !SeesSame(b.history[1].input, b.history[0].installed.value)
    ensures b.history[2].confirmed == Some(b.history[0].installed.value.modem) && b.s.management == "m"
  {
    hide Probed, WasConfirmed, AllJustified, Overdue;
    var m := Modem("m", true, true, Uplink("wwan0", "10.0.0.1", 300, 1), OtherReach, 1, 1, None, None);
    var before := Config("a", false, 60);
    b := new Backend(_ => true);
    assert [m][0] == m && Retryable(m, 10);
    assert CanUse([m], "m", m.uplink);
    var ok, calm := b.SyncWireGuard(Input(Some(before), 10, [m], None, Some("1.2.3.4"), true, Takes, true));
    ok, calm := b.SyncWireGuard(Input(Some(Config("b", false, 60)), 20, [m], None, None, true, Lost, false));
    ok, calm := b.SyncWireGuard(Input(Some(before), 30, [m], Some(25), None, true, Takes, true));
  }
}
