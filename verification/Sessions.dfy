/** Users and their sessions: internal/auth/management.go and internal/auth/service.go. */
module Sessions {
  import opened Base

  datatype User = User(name: string, hash: string, enabled: bool, mustChange: bool)

  datatype Session = Session(user: string, revoked: bool, expires: int)

  type Users = map<string, User>

  type Table = map<string, Session>

  datatype Code =
    | Done | NotFound | InvalidSession | InvalidCredentials | NoChanges | SelfMutation | LastEnabledUser
    | MustBeDisabled | NameExists | CredentialsChanged | Refused | Faulted

  /** What a run leaves behind: sessions ended by force, and sessions that were let in. */
  datatype Entry = Killed(ids: set<string>) | Passed(id: string) | Other

  function EnabledUsers(users: Users): set<string> { set id | id in users && users[id].enabled }

  function SessionsOf(sessions: Table, user: string): set<string> {
    set id | id in sessions && sessions[id].user == user
  }

  /** UPDATE sessions SET revoked_at for the given ids. */
  function Revoke(sessions: Table, ids: set<string>): Table {
    map id | id in sessions :: if id in ids then sessions[id].(revoked := true) else sessions[id]
  }

  ghost predicate NamesAreUnique(users: Users, fold: string -> string) {
    forall a, b | a in users && b in users && a != b :: fold(users[a].name) != fold(users[b].name)
  }

  predicate NameTaken(users: Users, fold: string -> string, name: string, except: string) {
    exists id | id in users :: id != except && fold(users[id].name) == fold(name)
  }

  predicate Live(sessions: Table, id: string) { id in sessions && !sessions[id].revoked }

  /** Every session that is not revoked belongs to an enabled user. */
  ghost predicate Owned(users: Users, sessions: Table) {
    forall id | id in sessions :: sessions[id].user in users && (!sessions[id].revoked ==>
      users[sessions[id].user].enabled)
  }

  /** A session once ended by force never lives again, and was not let in afterwards. */
  ghost predicate StaysDead(sessions: Table, history: seq<Entry>, i: int)
    requires 0 <= i < |history| && history[i].Killed?
  {
    && (forall id | id in history[i].ids :: !Live(sessions, id))
    && (forall j :: i < j < |history| && history[j].Passed? ==> history[j].id !in history[i].ids)
  }

  ghost predicate AllStayDead(sessions: Table, history: seq<Entry>) {
    forall i :: 0 <= i < |history| && history[i].Killed? ==> StaysDead(sessions, history, i)
  }

  ghost predicate Issued(sessions: Table, history: seq<Entry>, issued: set<string>) {
    && sessions.Keys <= issued
    && (forall i :: 0 <= i < |history| && history[i].Killed? ==> history[i].ids <= issued)
  }

  /** No session lives in `after` that did not live in `before`, other than a newly issued one. */
  ghost predicate OnlyEnds(before: Table, after: Table, issued: set<string>) {
    forall id | Live(after, id) :: Live(before, id) || id !in issued
  }

  lemma HistoryGrows(before: Table, after: Table, history: seq<Entry>, e: Entry, issued: set<string>)
    requires AllStayDead(before, history) && Issued(before, history, issued) && OnlyEnds(before, after, issued)
    requires e.Killed? ==> forall id | id in e.ids :: !Live(after, id)
    requires e.Passed? ==> Live(before, e.id)
    ensures AllStayDead(after, history + [e])
  {}

  lemma RevokeEnds(sessions: Table, ids: set<string>, issued: set<string>)
    ensures OnlyEnds(sessions, Revoke(sessions, ids), issued)
    ensures Revoke(sessions, ids).Keys == sessions.Keys
    ensures forall id | id in ids :: !Live(Revoke(sessions, ids), id)
    ensures forall id | id !in ids :: Live(Revoke(sessions, ids), id) == Live(sessions, id)
  {}

  datatype Event =
    | Bootstrap(hash: string)
    | Login(name: string, password: string, token: string, now: int)
    | Authenticate(token: string, now: int)
    | End(token: string)
    | Create(id: string, name: string, hash: string)
    | Update(actor: string, id: string, newName: Option<string>, enabled: Option<bool>)
    | Delete(actor: string, id: string)
    | ChangePassword(user: string, session: string, seenHash: string, newHash: string)
    | Reset(actor: string, id: string, hash: string)

  datatype State = State(users: Users, sessions: Table, issued: set<string>)

  /** What is fixed about a service: how names and passwords compare, and how long a session lasts. */
  datatype Rules = Rules(fold: string -> string, verify: (string, string) -> bool, lifetime: nat)

  ghost predicate BootstrapStep(hash: string, a: State, b: State, c: Code, e: Entry) {
    && e == Other && b == a.(users := b.users) && (c == Done || c == Refused || c == Faulted)
    && (c == Done ==> a.users == map[] && b.users == map["admin" := User("admin", hash, true, true)])
    && (c != Done ==> b.users == a.users) && (c == Refused ==> a.users != map[])
  }

  ghost predicate LoginStep(rules: Rules, name: string, password: string, token: string, now: int, a: State, b: State,
      c: Code, e: Entry) {
    && e == Other && b.users == a.users && (c == Done || c == InvalidCredentials || c == Faulted)
    && (c != Done ==> b == a)
    && (c == Done ==> token !in a.issued && b.issued == a.issued + {token} && token in b.sessions)
    && (c == Done ==> b.sessions == a.sessions[token := Session(b.sessions[token].user, false, now + rules.lifetime)])
    && (c == Done ==> MayEnter(a.users, rules, name, password, b.sessions[token].user))
    && (c == InvalidCredentials ==> forall u :: !MayEnter(a.users, rules, name, password, u))
  }

  ghost predicate AuthenticateStep(token: string, now: int, a: State, b: State, c: Code, e: Entry) {
    && b == a && c in {Done, InvalidSession, Faulted}
    && (c != Faulted ==> (c == Done <==> Live(a.sessions, token) && a.sessions[token].expires > now))
    && e == if c == Done then Passed(token) else Other
  }

  ghost predicate EndStep(token: string, a: State, b: State, c: Code, e: Entry) {
    && (c == Done || c == NotFound || c == Faulted) && (c == NotFound ==> !Live(a.sessions, token))
    && (if c == Done then Live(a.sessions, token) && Ended(a, b, {token}, e) && b.users == a.users
         else b == a && e == Other)
  }

  /** The sessions with these ids, and no others, are ended and recorded as ended. */
  ghost predicate Ended(a: State, b: State, ids: set<string>, e: Entry) {
    b.sessions == Revoke(a.sessions, ids) && b.issued == a.issued && e == Killed(ids)
  }

  ghost predicate CreateStep(rules: Rules, id: string, name: string,
      hash: string, a: State, b: State, c: Code, e: Entry) {
    && e == Other && b == a.(users := b.users) && (c == Done || c == NameExists || c == Faulted)
    && (c == Done ==> id !in a.users && !NameTaken(a.users,
        rules.fold, name, id) && b.users == a.users[id := User(name, hash, true, true)])
    && (c != Done ==> b == a) && (c == NameExists ==> id in a.users || NameTaken(a.users, rules.fold, name, id))
  }

  ghost predicate UpdateStep(rules: Rules,
      actor: string, id: string, name: Option<string>, enabled: Option<bool>, a: State, b: State, c: Code, e: Entry) {
    && (c != Done ==> b == a && e == Other)
    && (c == Done ==> id in a.users && (name.Some? || enabled.Some?) && b.users == a.users[id := Changed(a.users[id],
        name, enabled)])
    && (c == Done && Disables(a.users, b.users, id) ==>
         id != actor && |EnabledUsers(a.users)| > 1 && Ended(a, b, SessionsOf(a.sessions, id), e))
    && (c == Done && !Disables(a.users, b.users, id) ==> b.sessions == a.sessions && b.issued == a.issued && e == Other)
    && (c == LastEnabledUser ==> EnabledUsers(a.users) == {id} && enabled == Some(false))
    && (c == SelfMutation ==> id == actor && id in a.users && a.users[id].enabled && enabled == Some(false))
    && (c == NotFound ==> id !in a.users)
    && (c == NameExists ==> name.Some? && NameTaken(a.users, rules.fold, name.value, id))
    && (c == NoChanges <==> name.None? && enabled.None?)
    && c in {Done, LastEnabledUser, SelfMutation, NotFound, NameExists, NoChanges, Faulted}
  }

  predicate Disables(a: Users, b: Users, id: string) { id in a && id in b && a[id].enabled && !b[id].enabled }

  ghost predicate DeleteStep(actor: string, id: string, a: State, b: State, c: Code, e: Entry) {
    && e == Other && b.issued == a.issued && (c != Done ==> b == a)
    && (c == Done ==> id in a.users && !a.users[id].enabled && id != actor)
    && (c == Done ==> b.users == a.users - {id} && b.sessions == a.sessions - SessionsOf(a.sessions, id))
    && (c == MustBeDisabled ==> id in a.users && a.users[id].enabled) && (c == SelfMutation <==> id == actor)
    && (c == NotFound ==> id !in a.users)
    && c in {Done, MustBeDisabled, SelfMutation, NotFound, Faulted}
  }

  ghost predicate ChangeStep(user: string, session: string, seenHash: string, newHash: string, a: State, b: State,
      c: Code, e: Entry) {
    && (c == Done || c == CredentialsChanged || c == Faulted) && (c != Done ==> b == a && e == Other)
    && (c == Done ==> user in a.users && a.users[user].enabled && a.users[user].hash == seenHash)
    && (c == Done ==> b.users == a.users[user := a.users[user].(hash := newHash, mustChange := false)])
    && (c == Done ==> Ended(a, b, SessionsOf(a.sessions, user) - {session}, e))
    && (c == CredentialsChanged ==> user !in a.users || !a.users[user].enabled || a.users[user].hash != seenHash)
  }

  ghost predicate ResetStep(actor: string, id: string, hash: string, a: State, b: State, c: Code, e: Entry) {
    && (c != Done ==> b == a && e == Other) && (c == SelfMutation <==> id == actor)
    && (c == NotFound ==> id !in a.users)
    && (c == Done ==>
         id in a.users && id != actor && b.users == a.users[id := a.users[id].(hash := hash, mustChange := true)])
    && (c == Done ==> Ended(a, b, SessionsOf(a.sessions, id), e))
    && c in {Done, SelfMutation, NotFound, Faulted}
  }

  ghost predicate Step(rules: Rules, event: Event, a: State, b: State, c: Code, e: Entry) {
    match event
    case Bootstrap(hash) => BootstrapStep(hash, a, b, c, e)
    case Login(name, password, token, now) => LoginStep(rules, name, password, token, now, a, b, c, e)
    case Authenticate(token, now) => AuthenticateStep(token, now, a, b, c, e)
    case End(token) => EndStep(token, a, b, c, e)
    case Create(id, name, hash) => CreateStep(rules, id, name, hash, a, b, c, e)
    case Update(actor, id, name, enabled) => UpdateStep(rules, actor, id, name, enabled, a, b, c, e)
    case Delete(actor, id) => DeleteStep(actor, id, a, b, c, e)
    case ChangePassword(user, session, seenHash, newHash) => ChangeStep(user, session, seenHash, newHash, a, b, c, e)
    case Reset(actor, id, hash) => ResetStep(actor, id, hash, a, b, c, e)
  }

  class Service {
    var users: Users
    var sessions: Table
    const rules: Rules
    /** Every token ever issued: the model's form of "random tokens do not repeat". */
    var issued: set<string>
    ghost var history: seq<Entry>
    var steady: bool            // the database will not fail in the call at hand

    ghost predicate Valid()
      reads this
    {
      && NamesAreUnique(users, rules.fold)
      && (users != map[] ==> EnabledUsers(users) != {})
      && Owned(users, sessions)
      && AllStayDead(sessions, history) && Issued(sessions, history, issued)
    }

    constructor (rules: Rules)
      ensures Valid() && users == map[] && sessions == map[] && history == []
    {
      this.rules := rules;
      users, sessions, history, issued, steady := map[], map[], [], {}, false;
    }

    ghost function Now(): State
      reads this
    {
      State(users, sessions, issued)
    }

    /** The statements of a transaction and its commit may fail: then it is rolled back. */
    method Commit() returns (ok: bool)
      ensures steady ==> ok
    {
      ok := *;
      if steady { ok := true; }
    }

    /** Ends an operation that left users and sessions alone. */
    ghost method Note(e: Entry)
      requires Valid() && (e.Killed? ==> e.ids == {}) && (e.Passed? ==> Live(sessions, e.id))
      modifies this`history
      ensures Valid() && history == old(history) + [e]
    {
      HistoryGrows(sessions, sessions, history, e, issued);
      history := history + [e];
    }

    method CreateBootstrapAdmin(hash: string) returns (c: Code)
      requires Valid()
      modifies `users, `sessions, `issued, `history
      ensures Valid() && Grew(old(history), history)
      ensures BootstrapStep(hash, old(Now()), Now(), c, history[|old(history)|])
      ensures steady ==> c != Faulted
    {
      Note(Other);
      if |users| != 0 { return Refused; }
      var ok := Commit();
      if !ok { return Faulted; }
      assert users == map[];
      users := map["admin" := User("admin", hash, true, true)];
      assert "admin" in EnabledUsers(users);
      c := Done;
    }

    /** Issues a session to an enabled user with the right password, and to nobody else. */
    method Login(name: string, password: string, token: string, now: int) returns (c: Code)
      requires Valid()
      modifies `users, `sessions, `issued, `history
      ensures Valid() && Grew(old(history), history)
      ensures LoginStep(rules, name, password, token, now, old(Now()), Now(), c, history[|old(history)|])
      ensures steady && token !in old(issued) ==> c != Faulted
    {
      Note(Other);
      var ok := Commit();
      if !ok || token in issued { return Faulted; }
      var found := Lookup(name);
      if found.None? { return InvalidCredentials; }
      var u := found.value;
      if !users[u].enabled || !rules.verify(password, users[u].hash) { return InvalidCredentials; }
      ghost var before := sessions;
      sessions := sessions[token := Session(u, false, now + rules.lifetime)];
      issued := issued + {token};
      assert AllStayDead(sessions, history) by { EndingKeepsDead(before, sessions, history, old(issued)); }
      c := Done;
    }

    /** The user of a name, whatever its case. */
    method Lookup(name: string) returns (r: Option<string>)
      requires NamesAreUnique(users, rules.fold)
      ensures r.None? ==> forall u | u in users :: rules.fold(users[u].name) != rules.fold(name)
      ensures r.Some? ==> r.value in users && rules.fold(users[r.value].name) == rules.fold(name)
      ensures r.Some? ==> forall u | u in users && u != r.value :: rules.fold(users[u].name) != rules.fold(name)
    {
      var rest := users.Keys;
      while rest != {}
        invariant rest <= users.Keys
        invariant forall u | u in users && u !in rest :: rules.fold(users[u].name) != rules.fold(name)
        decreases rest
      {
        var u :| u in rest;
        if rules.fold(users[u].name) == rules.fold(name) { return Some(u); }
        rest := rest - {u};
      }
      r := None;
    }

    /** Lets a session in exactly when it lives, has not expired and its user is enabled. */
    method Authenticate(token: string, now: int) returns (c: Code, user: Option<string>)
      requires Valid()
      modifies this`history
      ensures Valid() && Grew(old(history), history)
      ensures c in {Done, InvalidSession, Faulted} && (c == Done <==> user.Some?)
      ensures history[|old(history)|] == if c == Done then Passed(token) else Other
      ensures c != Faulted ==> (c == Done <==> Live(sessions, token) && sessions[token].expires > now)
      ensures c == Done ==> user.value == sessions[token].user && user.value in users && users[user.value].enabled
      ensures steady ==> c != Faulted
    {
      var ok := Commit();             // the read may fail
      if !ok { Note(Other); return Faulted, None; }
      if !Live(sessions, token) || !users[sessions[token].user].enabled { Note(Other); return InvalidSession, None; }
      if sessions[token].expires <= now { Note(Other); return InvalidSession, None; }
      Note(Passed(token));
      return Done, Some(sessions[token].user);
    }

    /** Revokes the given sessions in one statement. */
    method RevokeAll(ids: set<string>)
      requires Valid() && ids <= sessions.Keys
      modifies this`sessions, this`history
      ensures Valid() && sessions == Revoke(old(sessions), ids) && history == old(history) + [Killed(ids)]
    {
      RevokeEnds(sessions, ids, issued);
      HistoryGrows(sessions, Revoke(sessions, ids), history, Killed(ids), issued);
      sessions := Revoke(sessions, ids);
      history := history + [Killed(ids)];
    }

    /** Logging out, and an administrator ending any session. */
    method RevokeSession(token: string) returns (c: Code)
      requires Valid()
      modifies this`sessions, this`history
      ensures Valid() && Grew(old(history), history)
      ensures EndStep(token, old(Now()), Now(), c, history[|old(history)|])
      ensures steady ==> c != Faulted
    {
      var ok := Commit();
      if !ok { Note(Other); return Faulted; }
      if !Live(sessions, token) { Note(Other); return NotFound; }
      RevokeAll({token});
      c := Done;
    }

    method CreateUser(id: string, name: string, hash: string) returns (c: Code)
      requires Valid()
      modifies `users, `sessions, `issued, `history
      ensures Valid() && Grew(old(history), history)
      ensures CreateStep(rules, id, name, hash, old(Now()), Now(), c, history[|old(history)|])
      ensures steady ==> c != Faulted
    {
      Note(Other);
      var ok := Commit();
      if !ok { return Faulted; }
      if id in users || NameTaken(users, rules.fold, name, id) { return NameExists; }
      users := users[id := User(name, hash, true, true)];
      assert id in EnabledUsers(users);
      c := Done;
    }

    /** Renames, enables or disables a user; disabling ends all their sessions in the same transaction. */
    method UpdateUser(actor: string, id: string, name: Option<string>, enabled: Option<bool>) returns (c: Code)
      requires Valid()
      modifies `users, `sessions, `issued, `history
      ensures Valid() && Grew(old(history), history)
      ensures UpdateStep(rules, actor, id, name, enabled, old(Now()), Now(), c, history[|old(history)|])
      ensures steady ==> c != Faulted
    {
      hide NamesAreUnique, Owned, AllStayDead, Issued, Revoke, SessionsOf, EnabledUsers, NameTaken, Live;
      if name.None? && enabled.None? { Note(Other); return NoChanges; }
      var ok := Commit();
      if !ok { Note(Other); return Faulted; }
      if id !in users { Note(Other); return NotFound; }
      var current := users[id];
      var next := Changed(current, name, enabled);
      if !next.enabled && current.enabled {
        if id == actor { Note(Other); return SelfMutation; }
        if |EnabledUsers(users)| <= 1 {
          OnlyEnabled(users, id);
          Note(Other);
          return LastEnabledUser;
        }
      }
      if name.Some? && NameTaken(users, rules.fold, name.value, id) { Note(Other); return NameExists; }
      UpdateKeepsUsers(users, rules.fold, id, next);
      if current.enabled && !next.enabled {
        RevokedAreNotLive(sessions, id);
        RevokeAll(SessionsOf(sessions, id));
      } else {
        if !next.enabled { NoneLive(users, sessions, id); }
        Note(Other);
      }
      UpdateKeepsOwned(users, sessions, id, next);
      users := users[id := next];
      c := Done;
    }

    /** Deletes a disabled user with all their sessions. */
    method DeleteUser(actor: string, id: string) returns (c: Code)
      requires Valid()
      modifies `users, `sessions, `issued, `history
      ensures Valid() && Grew(old(history), history)
      ensures DeleteStep(actor, id, old(Now()), Now(), c, history[|old(history)|])
      ensures steady ==> c != Faulted
    {
      hide NamesAreUnique, Owned, AllStayDead, Issued, SessionsOf, EnabledUsers;
      Note(Other);
      if id == actor { return SelfMutation; }
      var ok := Commit();
      if !ok { return Faulted; }
      if id !in users { return NotFound; }
      if users[id].enabled { return MustBeDisabled; }
      DeleteKeeps(users, sessions, rules.fold, id, history, issued);
      users := users - {id};
      sessions := sessions - SessionsOf(sessions, id);
      c := Done;
    }

    /** The transaction that ends a password change. `seenHash` is the hash that an earlier read, outside the
        transaction, had verified: anything may have happened in between. */
    method ChangePassword(user: string, session: string, seenHash: string, newHash: string) returns (c: Code)
      requires Valid()
      modifies `users, `sessions, `issued, `history
      ensures Valid() && Grew(old(history), history)
      ensures ChangeStep(user, session, seenHash, newHash, old(Now()), Now(), c, history[|old(history)|])
      ensures steady ==> c != Faulted
    {
      hide NamesAreUnique, Owned, AllStayDead, Issued, Revoke, SessionsOf, EnabledUsers, NameTaken, Live;
      var ok := Commit();
      if !ok { Note(Other); return Faulted; }
      if user !in users || !users[user].enabled || users[user].hash != seenHash {
        Note(Other); return CredentialsChanged;
      }
      RevokedAreNotLive(sessions, user);
      RevokeAll(SessionsOf(sessions, user) - {session});
      var next := users[user := users[user].(hash := newHash, mustChange := false)];
      UpdateKeepsUsers(users, rules.fold, user, next[user]);
      UpdateKeepsOwned(users, sessions, user, next[user]);
      users := next;
      c := Done;
    }

    method ResetPassword(actor: string, id: string, hash: string) returns (c: Code)
      requires Valid()
      modifies `users, `sessions, `issued, `history
      ensures Valid() && Grew(old(history), history)
      ensures ResetStep(actor, id, hash, old(Now()), Now(), c, history[|old(history)|])
      ensures steady ==> c != Faulted
    {
      hide NamesAreUnique, Owned, AllStayDead, Issued, Revoke, SessionsOf, EnabledUsers, NameTaken, Live;
      if id == actor { Note(Other); return SelfMutation; }
      var ok := Commit();
      if !ok { Note(Other); return Faulted; }
      if id !in users { Note(Other); return NotFound; }
      RevokedAreNotLive(sessions, id);
      RevokeAll(SessionsOf(sessions, id));
      var next := users[id := users[id].(hash := hash, mustChange := true)];
      UpdateKeepsUsers(users, rules.fold, id, next[id]);
      UpdateKeepsOwned(users, sessions, id, next[id]);
      users := next;
      c := Done;
    }

    method Serve(e: Event, undisturbed: bool) returns (c: Code)
      requires Valid()
      modifies this
      ensures Valid() && Grew(old(history), history)
      ensures Step(rules, e, old(Now()), Now(), c, history[|old(history)|])
      ensures undisturbed && (e.Login? ==> e.token !in old(issued)) ==> c != Faulted
    {
      hide NamesAreUnique, Owned, AllStayDead, Issued, EnabledUsers, BootstrapStep, LoginStep, EndStep, CreateStep,
          UpdateStep, DeleteStep, ChangeStep, ResetStep;
      steady := undisturbed;
      match e {
        case Bootstrap(hash) => { c := CreateBootstrapAdmin(hash); }
        case Login(name, password, token, now) => { c := Login(name, password, token, now); }
        case Authenticate(token, now) => { var user; c, user := Authenticate(token, now); }
        case End(token) => { c := RevokeSession(token); }
        case Create(id, name, hash) => { c := CreateUser(id, name, hash); }
        case Update(actor, id, name, enabled) => { c := UpdateUser(actor, id, name, enabled); }
        case Delete(actor, id) => { c := DeleteUser(actor, id); }
        case ChangePassword(user, session, seenHash,
            newHash) => { c := ChangePassword(user, session, seenHash, newHash); }
        case Reset(actor, id, hash) => { c := ResetPassword(actor, id, hash); }
      }
    }

    /** Over every run the states follow the events, each event leaves its entry, users stay sound in every state, and
        no session that a disable, a password change, a reset or a revocation ended is ever let in again. */
    method Run(events: seq<Event>, undisturbed: seq<bool>) returns (codes: seq<Code>, ghost states: seq<State>)
      requires Valid() && |undisturbed| == |events|
      modifies this
      ensures |codes| == |events| && |states| == |events| + 1 && states[0] == old(Now()) && states[|events|] == Now()
      ensures |history| == |old(history)| + |events| && old(history) <= history
      ensures forall k :: 0 <= k < |events| ==>
        Follows(rules, events, undisturbed, states, codes, history[|old(history)|..], k)
      ensures forall k :: 0 <= k < |states| ==> SoundUsers(states[k])
      ensures NeverBack(history)
    {
      hide Valid, Step, SoundUsers;
      codes, states := [], [Now()];
      ghost var base := |history|;
      assert SoundUsers(Now()) by { ValidIsSound(); }
      for i := 0 to |events|
        invariant Valid() && |codes| == i && |states| == i + 1 && states[0] == old(Now()) && states[i] == Now()
        invariant |history| == base + i && old(history) <= history
        invariant forall k :: 0 <= k < i ==> Follows(rules, events, undisturbed, states, codes, history[base..], k)
        invariant forall k :: 0 <= k < |states| ==> SoundUsers(states[k])
      {
        ghost var pastStates, pastCodes, pastHistory := states, codes, history;
        var c := Serve(events[i], undisturbed[i]);
        codes, states := codes + [c], states + [Now()];
        assert SoundUsers(Now()) by { ValidIsSound(); }
        forall k | 0 <= k < i ensures Follows(rules, events, undisturbed, states, codes, history[base..], k) {
          assert Follows(rules, events, undisturbed, pastStates, pastCodes, pastHistory[base..], k);
        }
        assert history[base..][i] == history[|pastHistory|];
      }
      assert NeverBack(history) by { ValidIsBack(); }
    }

    lemma ValidIsSound()
      requires Valid()
      ensures SoundUsers(Now())
    {}

    lemma ValidIsBack()
      requires Valid()
      ensures NeverBack(history)
    {
      DeadAreNotLetIn(sessions, history);
    }
  }

  ghost predicate Grew(before: seq<Entry>, after: seq<Entry>) { |after| == |before| + 1 && before <= after }

  ghost predicate Follows(rules: Rules, events: seq<Event>, undisturbed: seq<bool>, states: seq<State>,
      codes: seq<Code>, entries: seq<Entry>, k: nat) {
    && k < |events| && k < |undisturbed| && k < |codes| && k < |entries| && k + 1 < |states|
    && (undisturbed[k] && (events[k].Login? ==> events[k].token !in states[k].issued) ==> codes[k] != Faulted)
    && Step(rules, events[k], states[k], states[k + 1], codes[k], entries[k])
  }

  /** Once there is a user there is an enabled one, and every live session belongs to an enabled user. */
  ghost predicate SoundUsers(s: State) {
    (s.users != map[] ==>
      EnabledUsers(s.users) != {}) && forall id | Live(s.sessions, id) :: s.sessions[id].user in EnabledUsers(s.users)
  }

  ghost predicate NeverBack(history: seq<Entry>) {
    forall i, j :: 0 <= i < j < |history| && history[i].Killed? && history[j].Passed? ==>
      history[j].id !in history[i].ids
  }

  lemma DeadAreNotLetIn(sessions: Table, history: seq<Entry>)
    requires AllStayDead(sessions, history)
    ensures NeverBack(history)
  {}

  function Changed(u: User, name: Option<string>, enabled: Option<bool>): User {
    u.(name := if name.Some? then name.value else u.name, enabled := if enabled.Some? then enabled.value else u.enabled)
  }

  predicate MayEnter(users: Users, rules: Rules, name: string, password: string, u: string) {
    u in users && users[u].enabled && rules.fold(users[u].name) == rules.fold(name)
      && rules.verify(password, users[u].hash)
  }

  lemma EndingKeepsDead(before: Table, after: Table, history: seq<Entry>, issued: set<string>)
    requires AllStayDead(before, history) && Issued(before, history, issued) && OnlyEnds(before, after, issued)
    ensures AllStayDead(after, history)
  {}

  lemma OnlyEnabled(users: Users, id: string)
    requires id in users && users[id].enabled && |EnabledUsers(users)| <= 1
    ensures EnabledUsers(users) == {id}
  {
    assert |EnabledUsers(users) - {id}| == 0;
  }

  lemma AnotherRemains(s: set<string>, x: string)
    requires |s| > 1
    ensures s - {x} != {}
  {
    if x in s { assert |s - {x}| == |s| - 1; } else { assert s - {x} == s; }
  }

  /** A new row for one user keeps the table sound: the name is free, and someone is enabled. */
  lemma UpdateKeepsUsers(users: Users, fold: string -> string, id: string, next: User)
    requires NamesAreUnique(users, fold) && id in users
    requires (next.name == users[id].name || !NameTaken(users, fold, next.name, id))
    requires next.enabled || !users[id].enabled || |EnabledUsers(users)| > 1
    requires EnabledUsers(users) != {}
    ensures NamesAreUnique(users[id := next], fold) && EnabledUsers(users[id := next]) != {}
  {
    var after := users[id := next];
    forall a, b | a in after && b in after && a != b ensures fold(after[a].name) != fold(after[b].name) {
      if a != id && b != id { assert fold(users[a].name) != fold(users[b].name); }
      if a == id { assert fold(users[b].name) != fold(users[a].name); }
      if b == id { assert fold(users[a].name) != fold(users[b].name); }
    }
    if next.enabled {
      assert id in EnabledUsers(after);
    } else {
      if users[id].enabled { AnotherRemains(EnabledUsers(users), id); } else { assert id !in EnabledUsers(users); }
      assert EnabledUsers(users) - {id} != {};
      var other :| other in EnabledUsers(users) - {id};
      assert other in EnabledUsers(after);
    }
  }

  lemma UpdateKeepsOwned(users: Users, sessions: Table, id: string, next: User)
    requires Owned(users, sessions) && id in users
    requires (next.enabled || forall s | s in SessionsOf(sessions, id) :: !Live(sessions, s))
    ensures Owned(users[id := next], sessions)
  {
    forall s | s in sessions ensures sessions[s].user in users && (!sessions[s].revoked ==>
      users[id := next][sessions[s].user].enabled) {
      if sessions[s].user == id { assert s in SessionsOf(sessions, id); }
    }
  }

  lemma NoneLive(users: Users, sessions: Table, id: string)
    requires Owned(users, sessions) && id in users && !users[id].enabled
    ensures forall s | s in SessionsOf(sessions, id) :: !Live(sessions, s)
  {}

  lemma RevokedAreNotLive(sessions: Table, id: string)
    ensures SessionsOf(sessions, id) <= sessions.Keys
    ensures var after := Revoke(sessions, SessionsOf(sessions, id));
      forall s | s in SessionsOf(after, id) :: !Live(after, s)
  {}

  lemma DeleteKeeps(users: Users, sessions: Table, fold: string -> string, id: string, history: seq<Entry>,
      issued: set<string>)
    requires NamesAreUnique(users, fold) && EnabledUsers(users) != {} && Owned(users, sessions)
    requires AllStayDead(sessions, history) && Issued(sessions, history, issued) && id in users && !users[id].enabled
    ensures NamesAreUnique(users - {id}, fold) && EnabledUsers(users - {id}) != {}
    ensures var kept := sessions - SessionsOf(sessions, id);
      Owned(users - {id}, kept) && AllStayDead(kept, history) && Issued(kept, history, issued)
  {}
}
