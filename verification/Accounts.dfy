/**
 Accounts, sessions and roles.  Logins check the account in one call and create the
 session in another; administrators suspend, restore, grant and revoke; password
 resets and e-mail changes revoke sessions.  One event is one port call.
 */
module Accounts {
  import opened Wrappers

  type UserId = nat
  type SessionId = nat
  type CallId = nat

  /** The all-zero id that callers pass to keep no session. */
  const NO_SESSION: SessionId := 0

  const INACTIVE_IDLE := 30 * 86400
  const ABSOLUTE_CAP := 90 * 86400
  const LAST_SEEN_REFRESH := 300

  datatype AccountState = PendingEmailVerification | Active | Suspended | Deleted

  datatype Role = UserRole | Moderator | Admin

  datatype Session = Session(user: UserId, lastSeenAt: int, expiresAt: int, revoked: bool)

  /** `logins` holds the login calls that have passed every check, `purged` the ids of
      accounts whose row is gone; ids are not used twice. */
  datatype World = World(
    clock: int,
    users: map<UserId, AccountState>,
    roles: set<(UserId, Role)>,
    sessions: map<SessionId, Session>,
    minted: set<SessionId>,
    logins: map<CallId, UserId>,
    purged: set<UserId>)

  datatype Event =
    | Tick(seconds: nat)
    | Register(user: UserId)
    | CheckLogin(call: CallId, user: UserId)
    | CreateSession(call: CallId, id: SessionId)
    | Touch(id: SessionId)
    | Logout(id: SessionId)
    | PurgeSession(id: SessionId)
    | SetState(user: UserId, state: AccountState)
    | ConfirmEmail(user: UserId)
    | RevokeAllExcept(user: UserId, keep: SessionId)
    | Grant(user: UserId, role: Role)
    | RevokeRole(user: UserId, role: Role)
    | EraseAccount(user: UserId)
    | PurgeAccount(user: UserId)

  function Initial(clock: int): World {
    World(clock, map[], {}, map[], {}, map[], {})
  }

  predicate MayUseAccount(state: AccountState) {
    state == PendingEmailVerification || state == Active
  }

  predicate Expired(w: World, s: Session) {
    w.clock > s.expiresAt || w.clock - s.lastSeenAt > INACTIVE_IDLE
  }

  /** What `resolve_session` answers for a raw session id. */
  predicate Resolves(w: World, id: SessionId) {
    && id in w.sessions && !w.sessions[id].revoked && !Expired(w, w.sessions[id])
    && w.sessions[id].user in w.users && MayUseAccount(w.users[w.sessions[id].user])
  }

  function Admins(w: World): set<UserId> {
    set pair | pair in w.roles && pair.1 == Admin :: pair.0
  }

  function RevokeSessions(sessions: map<SessionId, Session>, user: UserId, keep: SessionId): map<SessionId, Session> {
    map id | id in sessions ::
      if sessions[id].user == user && id != keep then sessions[id].(revoked := true) else sessions[id]
  }

  function SessionsWithout(sessions: map<SessionId, Session>, user: UserId): map<SessionId, Session> {
    map id | id in sessions && sessions[id].user != user :: sessions[id]
  }

  function RolesWithout(roles: set<(UserId, Role)>, user: UserId): set<(UserId, Role)> {
    set pair | pair in roles && pair.0 != user
  }

  /** The last administrator can be neither demoted nor erased. */
  predicate LastAdmin(w: World, user: UserId) {
    Admins(w) == {user}
  }

  function Apply(w: World, e: Event): World {
    match e
    case Tick(seconds) => w.(clock := w.clock + seconds)
    case Register(user) =>
      if user in w.users || user in w.purged then w else w.(users := w.users[user := PendingEmailVerification])
    case CheckLogin(call, user) =>
      if user in w.users && MayUseAccount(w.users[user]) then w.(logins := w.logins[call := user]) else w
    case CreateSession(call, id) =>
      if call !in w.logins || id in w.minted || w.logins[call] !in w.users then w
      else
        w.(sessions := w.sessions[id := Session(w.logins[call], w.clock, w.clock + ABSOLUTE_CAP, false)],
           minted := w.minted + {id}, logins := w.logins - {call})
    case Touch(id) =>
      if id in w.sessions && !w.sessions[id].revoked && w.clock <= w.sessions[id].expiresAt
         && w.clock - INACTIVE_IDLE < w.sessions[id].lastSeenAt < w.clock - LAST_SEEN_REFRESH
      then w.(sessions := w.sessions[id := w.sessions[id].(lastSeenAt := w.clock)])
      else w
    case Logout(id) =>
      if id in w.sessions then w.(sessions := w.sessions[id := w.sessions[id].(revoked := true)]) else w
    case PurgeSession(id) =>
      if id in w.sessions && Expired(w, w.sessions[id]) then w.(sessions := w.sessions - {id}) else w
    case SetState(user, state) =>
      if user in w.users then w.(users := w.users[user := state]) else w
    case ConfirmEmail(user) =>
      if user in w.users then w.(users := w.users[user := Active]) else w
    case RevokeAllExcept(user, keep) => w.(sessions := RevokeSessions(w.sessions, user, keep))
    case Grant(user, role) =>
      if user in w.users then w.(roles := w.roles + {(user, role)}) else w
    case RevokeRole(user, role) =>
      if role == Admin && LastAdmin(w, user) then w else w.(roles := w.roles - {(user, role)})
    case EraseAccount(user) =>
      if user !in w.users || LastAdmin(w, user) then w
      else
        w.(users := w.users[user := Deleted],
           roles := RolesWithout(w.roles, user),
           sessions := SessionsWithout(w.sessions, user))
    case PurgeAccount(user) =>
      if user !in w.users || w.users[user] != Deleted then w
      else
        w.(users := w.users - {user}, purged := w.purged + {user},
           roles := RolesWithout(w.roles, user),
           sessions := SessionsWithout(w.sessions, user))
  }

  function Run(w: World, events: seq<Event>): World
    decreases |events|
  {
    if events == [] then w else Run(Apply(w, events[0]), events[1..])
  }

  // ---------------------------------------------------------------------------
  // Sessions
  // ---------------------------------------------------------------------------

  /** The id has been used, and its session is revoked or gone. */
  predicate Dead(w: World, id: SessionId) {
    id in w.minted && (id in w.sessions ==> w.sessions[id].revoked)
  }

  ghost predicate Inv(w: World) {
    forall id | id in w.sessions :: id in w.minted
  }

  lemma DeadStep(w: World, e: Event, id: SessionId)
    requires Dead(w, id)
    ensures Dead(Apply(w, e), id)
  {
  }

  lemma {:induction false} DeadForever(w: World, events: seq<Event>, id: SessionId)
    requires Dead(w, id)
    ensures Dead(Run(w, events), id) && !Resolves(Run(w, events), id)
    decreases |events|
  {
    if events != [] {
      DeadStep(w, events[0], id);
      DeadForever(Apply(w, events[0]), events[1..], id);
    }
  }

  lemma StepKeepsInv(w: World, e: Event)
    requires Inv(w)
    ensures Inv(Apply(w, e))
  {
  }

  lemma {:induction false} RunKeepsInv(w: World, events: seq<Event>)
    requires Inv(w)
    ensures Inv(Run(w, events))
    decreases |events|
  {
    if events != [] {
      StepKeepsInv(w, events[0]);
      RunKeepsInv(Apply(w, events[0]), events[1..]);
    }
  }

  /** A session that exists stays its owner's, or dies. */
  predicate OwnedOrDead(w: World, id: SessionId, user: UserId) {
    Dead(w, id) || (id in w.minted && id in w.sessions && w.sessions[id].user == user)
  }

  lemma OwnerStep(w: World, e: Event, id: SessionId, user: UserId)
    requires OwnedOrDead(w, id, user)
    ensures OwnedOrDead(Apply(w, e), id, user)
  {
  }

  lemma {:induction false} OwnerForever(w: World, events: seq<Event>, id: SessionId, user: UserId)
    requires OwnedOrDead(w, id, user)
    ensures OwnedOrDead(Run(w, events), id, user)
    decreases |events|
  {
    if events != [] {
      OwnerStep(w, events[0], id, user);
      OwnerForever(Apply(w, events[0]), events[1..], id, user);
    }
  }

  lemma {:induction false} RunAppend(w: World, first: seq<Event>, second: seq<Event>)
    ensures Run(w, first + second) == Run(Run(w, first), second)
    decreases |first|
  {
    if first == [] {
      assert first + second == second;
    } else {
      assert (first + second)[1..] == first[1..] + second;
      RunAppend(Apply(w, first[0]), first[1..], second);
    }
  }

  lemma RunSnoc(w: World, events: seq<Event>, e: Event)
    ensures Run(w, events + [e]) == Apply(Run(w, events), e)
  {
    RunAppend(w, events, [e]);
    RunOne(Run(w, events), e);
  }

  lemma RunOne(w: World, e: Event)
    ensures Run(w, [e]) == Apply(w, e)
  {
    assert [e][1..] == [];
  }

  lemma RevocationKills(w: World, user: UserId, id: SessionId)
    requires OwnedOrDead(w, id, user) && id != NO_SESSION
    ensures Dead(Apply(w, RevokeAllExcept(user, NO_SESSION)), id)
  {
  }

  /** A session whose login finished before its owner's sessions are revoked never
      resolves afterwards: not after a restore, not after anything. */
  lemma RevokedSessionsNeverResolve(w: World, before: seq<Event>, after: seq<Event>, id: SessionId)
    requires Inv(w) && id in w.sessions
    requires id != NO_SESSION
    ensures !Resolves(Run(w, before + [RevokeAllExcept(w.sessions[id].user, NO_SESSION)] + after), id)
  {
    var user := w.sessions[id].user;
    var revoke := RevokeAllExcept(user, NO_SESSION);
    RunAppend(w, before + [revoke], after);
    RunSnoc(w, before, revoke);
    OwnerForever(w, before, id, user);
    RevocationKills(Run(w, before), user, id);
    DeadForever(Run(w, before + [revoke]), after, id);
  }

  /** The event ends this session of the user other than by revoking all. */
  predicate Ends(e: Event, user: UserId, id: SessionId) {
    || (e.Logout? && e.id == id) || (e.EraseAccount? && e.user == user)
    || (e.RevokeAllExcept? && e.user == user && e.keep != id)
  }

  /** The session is the user's, if there is one, and lives as long as it has not expired. */
  predicate Living(w: World, user: UserId, id: SessionId) {
    id in w.sessions ==> w.sessions[id].user == user && !w.sessions[id].revoked
  }

  /** Only this call of this user creates the session. */
  predicate OfLogin(e: Event, call: CallId, user: UserId, id: SessionId) {
    && (e.CreateSession? && e.id == id ==> e.call == call)
    && (e.CheckLogin? && e.call == call ==> e.user == user)
  }

  predicate LoginOf(w: World, call: CallId, user: UserId) {
    call in w.logins ==> w.logins[call] == user
  }

  lemma LivingStep(w: World, e: Event, call: CallId, user: UserId, id: SessionId)
    requires Inv(w) && Living(w, user, id) && LoginOf(w, call, user)
    requires OfLogin(e, call, user, id) && !Ends(e, user, id)
    ensures Living(Apply(w, e), user, id) && LoginOf(Apply(w, e), call, user)
  {
  }

  lemma {:induction false} LivingForever(w: World, events: seq<Event>, call: CallId, user: UserId, id: SessionId)
    requires Inv(w) && Living(w, user, id) && LoginOf(w, call, user)
    requires forall e | e in events :: OfLogin(e, call, user, id) && !Ends(e, user, id)
    ensures Living(Run(w, events), user, id)
    ensures LoginOf(Run(w, events), call, user)
    decreases |events|
  {
    if events != [] {
      StepKeepsInv(w, events[0]);
      LivingStep(w, events[0], call, user, id);
      LivingForever(Apply(w, events[0]), events[1..], call, user, id);
    }
  }

  lemma LoginStep(w: World, e: Event, call: CallId, user: UserId, id: SessionId)
    requires (id in w.minted ==> OwnedOrDead(w, id, user)) && LoginOf(w, call, user)
    requires OfLogin(e, call, user, id)
    ensures id in Apply(w, e).minted ==> OwnedOrDead(Apply(w, e), id, user)
    ensures LoginOf(Apply(w, e), call, user)
  {
    if id in w.minted { OwnerStep(w, e, id, user); }
  }

  lemma {:induction false} LoginKeepsItsOwner(w: World, events: seq<Event>, call: CallId, user: UserId, id: SessionId)
    requires (id in w.minted ==> OwnedOrDead(w, id, user)) && LoginOf(w, call, user)
    requires forall e | e in events :: OfLogin(e, call, user, id)
    ensures id in Run(w, events).minted ==> OwnedOrDead(Run(w, events), id, user)
    ensures LoginOf(Run(w, events), call, user)
    decreases |events|
  {
    if events != [] {
      LoginStep(w, events[0], call, user, id);
      LoginKeepsItsOwner(Apply(w, events[0]), events[1..], call, user, id);
    }
  }

  /** The session itself is in order: only its age and its owner's state can keep it from
      resolving. */
  predicate Usable(w: World, user: UserId, id: SessionId) {
    id in w.sessions && !Expired(w, w.sessions[id]) && user in w.users && MayUseAccount(w.users[user])
  }

  /** The exact reach of a revocation.  A login writes its session at any time around it.
      Afterwards, while its account may be used and its time is not up, the session resolves
      if and only if it was not there yet when the others were revoked. */
  lemma RevocationCatchesIffCreated(w: World, before: seq<Event>, after: seq<Event>, call: CallId, user: UserId, id: SessionId)
    requires Inv(w) && id !in w.minted && id != NO_SESSION && LoginOf(w, call, user)
    requires forall e | e in before :: OfLogin(e, call, user, id)
    requires forall e | e in after :: OfLogin(e, call, user, id) && !Ends(e, user, id)
    ensures
      var created := id in Run(w, before).minted;
      var end := Run(w, before + [RevokeAllExcept(user, NO_SESSION)] + after);
      && (Dead(Run(w, before + [RevokeAllExcept(user, NO_SESSION)]), id) <==> created)
      && (Usable(end, user, id) ==> (Resolves(end, id) <==> !created))
  {
    var revoke := RevokeAllExcept(user, NO_SESSION);
    var w1 := Run(w, before);
    var w2 := Apply(w1, revoke);
    RunAppend(w, before + [revoke], after);
    RunSnoc(w, before, revoke);
    RunKeepsInv(w, before);
    LoginKeepsItsOwner(w, before, call, user, id);
    if id in w1.minted {
      RevocationKills(w1, user, id);
      DeadForever(w2, after, id);
    } else {
      StepKeepsInv(w1, revoke);
      LivingForever(w2, after, call, user, id);
    }
  }

  /** Of the sessions a user has when all but one are revoked, exactly the kept one still
      resolves in any later state in which it otherwise could.  Since callers that keep none
      pass the all-zero id, only a session with that very id would escape them. */
  lemma SurvivesIffKept(w: World, after: seq<Event>, user: UserId, keep: SessionId, id: SessionId)
    requires Inv(w) && id in w.sessions && w.sessions[id].user == user && !w.sessions[id].revoked
    requires forall e | e in after :: !Ends(e, user, id) && !(e.CreateSession? && e.id == id)
    ensures
      var end := Run(w, [RevokeAllExcept(user, keep)] + after);
      Usable(end, user, id) ==> (Resolves(end, id) <==> id == keep)
  {
    var revoke := RevokeAllExcept(user, keep);
    var w1 := Apply(w, revoke);
    RunAppend(w, [revoke], after);
    RunOne(w, revoke);
    StepKeepsInv(w, revoke);
    if id == keep {
      StaysLiving(w1, after, user, id);
    } else {
      DeadForever(w1, after, id);
    }
  }

  lemma {:induction false} StaysLiving(w: World, events: seq<Event>, user: UserId, id: SessionId)
    requires Inv(w) && Living(w, user, id)
    requires forall e | e in events :: !Ends(e, user, id) && !(e.CreateSession? && e.id == id)
    ensures Living(Run(w, events), user, id)
    decreases |events|
  {
    if events != [] {
      StepKeepsInv(w, events[0]);
      assert Living(Apply(w, events[0]), user, id);
      StaysLiving(Apply(w, events[0]), events[1..], user, id);
    }
  }

  /** Such logins exist: one that passed its checks before a suspension and creates its
      session after the revocation resolves as soon as the account is restored. */
  lemma StraddlingLoginSurvives(w: World, call: CallId, user: UserId, id: SessionId)
    requires user in w.users && MayUseAccount(w.users[user]) && id !in w.minted
    ensures
      var suspended := Run(w, [CheckLogin(call, user), SetState(user, Suspended)]
                              + [RevokeAllExcept(user, NO_SESSION), CreateSession(call, id)]);
      !Resolves(suspended, id) && Resolves(Apply(suspended, SetState(user, Active)), id)
  {
    var suspended := Apply(Apply(w, CheckLogin(call, user)), SetState(user, Suspended));
    RunAppend(w, [CheckLogin(call, user), SetState(user, Suspended)],
              [RevokeAllExcept(user, NO_SESSION), CreateSession(call, id)]);
    RunTwo(w, CheckLogin(call, user), SetState(user, Suspended));
    RunTwo(suspended, RevokeAllExcept(user, NO_SESSION), CreateSession(call, id));
    LateSessionResolves(suspended, call, user, id);
  }

  lemma LateSessionResolves(w: World, call: CallId, user: UserId, id: SessionId)
    requires user in w.users && w.users[user] == Suspended && id !in w.minted
    requires call in w.logins && w.logins[call] == user
    ensures
      var late := Apply(Apply(w, RevokeAllExcept(user, NO_SESSION)), CreateSession(call, id));
      !Resolves(late, id) && Resolves(Apply(late, SetState(user, Active)), id)
  {
  }

  lemma RunTwo(w: World, a: Event, b: Event)
    ensures Run(w, [a, b]) == Apply(Apply(w, a), b)
  {
    assert [a, b][1..] == [b] && [b][1..] == [];
    assert Run(w, [a, b]) == Run(Apply(w, a), [b]);
  }

  /** The event makes the account usable. */
  predicate Lifts(e: Event, user: UserId) {
    e == ConfirmEmail(user) || (e.SetState? && e.user == user && MayUseAccount(e.state))
  }

  predicate UsableNow(w: World, user: UserId) {
    user in w.users && MayUseAccount(w.users[user])
  }

  /** The account is there and unusable, or it was purged. */
  predicate Locked(w: World, user: UserId) {
    if user in w.users then !MayUseAccount(w.users[user]) else user in w.purged
  }

  lemma SuspensionStep(w: World, e: Event, user: UserId)
    requires Locked(w, user)
    ensures UsableNow(Apply(w, e), user) <==> Lifts(e, user) && user in w.users
    ensures UsableNow(Apply(w, e), user) || Locked(Apply(w, e), user)
  {
  }

  /** After the first `n` events the account can be used. */
  predicate UsableAfter(w: World, events: seq<Event>, user: UserId, n: nat) {
    n <= |events| && UsableNow(Run(w, events[..n]), user)
  }

  /** The event lifts the suspension of an account that has not been purged. */
  predicate LiftedAt(w: World, events: seq<Event>, user: UserId, i: nat) {
    i < |events| && Lifts(events[i], user) && user in Run(w, events[..i]).users
  }

  lemma RunNext(w: World, events: seq<Event>, i: nat)
    requires i < |events|
    ensures Run(w, events[..i + 1]) == Apply(Run(w, events[..i]), events[i])
  {
    assert events[..i + 1] == events[..i] + [events[i]];
    RunSnoc(w, events[..i], events[i]);
  }

  lemma {:induction false} SomethingLifted(w: World, events: seq<Event>, user: UserId, n: nat)
    requires Locked(w, user) && n <= |events|
    ensures UsableAfter(w, events, user, n) ==> exists i: nat :: LiftedAt(w, events, user, i)
    ensures (exists i: nat :: LiftedAt(w, events, user, i)) || Locked(Run(w, events[..n]), user)
  {
    if n == 0 {
      assert events[..0] == [];
    } else {
      SomethingLifted(w, events, user, n - 1);
      RunNext(w, events, n - 1);
      if Locked(Run(w, events[..n - 1]), user) {
        SuspensionStep(Run(w, events[..n - 1]), events[n - 1], user);
        assert UsableAfter(w, events, user, n) ==> LiftedAt(w, events, user, n - 1);
      }
    }
  }

  /** A suspension is lifted by a restore, or by confirming an e-mail address, which sets the
      account active without looking at its state, and by nothing else: the account is
      usable at some moment of a run if and only if one of these meets it before it is
      purged. */
  lemma SuspensionLiftedOnlyBy(w: World, events: seq<Event>, user: UserId)
    requires user in w.users && !MayUseAccount(w.users[user])
    ensures (exists n: nat :: UsableAfter(w, events, user, n)) <==> exists i: nat :: LiftedAt(w, events, user, i)
  {
    if n: nat :| UsableAfter(w, events, user, n) { SomethingLifted(w, events, user, n); }
    if i: nat :| LiftedAt(w, events, user, i) {
      RunNext(w, events, i);
      assert UsableAfter(w, events, user, i + 1);
    }
  }

  // ---------------------------------------------------------------------------
  // Coming and going
  // ---------------------------------------------------------------------------

  /** Who may log in and use an account: not only an active one, also one whose address is
      still to be confirmed. */
  lemma MayUseMeans(state: AccountState)
    ensures MayUseAccount(state) <==> state == PendingEmailVerification || state == Active
    ensures !MayUseAccount(state) <==> state == Suspended || state == Deleted
  {
  }

  /** A new account waits for its address to be confirmed; an id is registered once. */
  lemma RegisterMeans(w: World, user: UserId)
    ensures
      var w' := Apply(w, Register(user));
      && w' == w.(users := w'.users)
      && w'.users == (if user in w.users || user in w.purged then w.users else w.users[user := PendingEmailVerification])
  {
  }

  /** An erased account is deleted and has no role and no session left, and nobody else is
      touched; only the sole administrator is refused. */
  lemma ErasureMeans(w: World, user: UserId)
    ensures user !in w.users || Admins(w) == {user} ==> Apply(w, EraseAccount(user)) == w
    ensures user in w.users && Admins(w) != {user} ==>
      var w' := Apply(w, EraseAccount(user));
      && w'.users == w.users[user := Deleted]
      && (forall pair :: pair in w'.roles <==> pair in w.roles && pair.0 != user)
      && (forall id :: id in w'.sessions <==> id in w.sessions && w.sessions[id].user != user)
      && (forall id | id in w'.sessions :: w'.sessions[id] == w.sessions[id])
      && w' == w.(users := w'.users, roles := w'.roles, sessions := w'.sessions)
  {
  }

  /** A purge takes a deleted account's row away with its roles and sessions. */
  lemma PurgeMeans(w: World, user: UserId)
    ensures !(user in w.users && w.users[user] == Deleted) ==> Apply(w, PurgeAccount(user)) == w
    ensures user in w.users && w.users[user] == Deleted ==>
      var w' := Apply(w, PurgeAccount(user));
      && w'.users == w.users - {user} && w'.purged == w.purged + {user}
      && (forall pair :: pair in w'.roles <==> pair in w.roles && pair.0 != user)
      && (forall id :: id in w'.sessions <==> id in w.sessions && w.sessions[id].user != user)
      && (forall id | id in w'.sessions :: w'.sessions[id] == w.sessions[id])
  {
  }

  /** Logging out ends the one session; a session is only purged once its time is up: 90 days
      after the login, or after 30 days without use. */
  lemma SessionsEnd(w: World, id: SessionId)
    requires id in w.sessions
    ensures
      var s, w' := w.sessions[id], Apply(w, Logout(id));
      w'.sessions == w.sessions[id := s.(revoked := true)]
    ensures
      var s, w' := w.sessions[id], Apply(w, PurgeSession(id));
      w'.sessions == if w.clock > s.expiresAt || w.clock - s.lastSeenAt > 2_592_000 then w.sessions - {id} else w.sessions
  {
  }

  // ---------------------------------------------------------------------------
  // Roles
  // ---------------------------------------------------------------------------

  /** A purge takes the roles of a deleted account with it, without counting administrators. */
  predicate PurgesLastAdmin(w: World, e: Event) {
    e.PurgeAccount? && e.user in w.users && w.users[e.user] == Deleted && Admins(w) == {e.user}
  }

  /** The locked guards of demotion and erasure leave an administrator; a purge need not. */
  lemma AdminStep(w: World, e: Event)
    requires Admins(w) != {}
    ensures Admins(Apply(w, e)) == {} <==> PurgesLastAdmin(w, e)
  {
    var w' := Apply(w, e);
    if PurgesLastAdmin(w, e) {
      assert forall user | (user, Admin) in w'.roles :: user in Admins(w);
    } else {
      var kept := if (e.RevokeRole? || e.EraseAccount? || e.PurgeAccount?) && Admins(w) != {e.user}
                  then OtherAdmin(w, e.user) else SomeAdmin(w);
      assert (kept, Admin) in w'.roles && kept in Admins(w');
    }
  }

  ghost function SomeAdmin(w: World): (user: UserId)
    requires Admins(w) != {}
    ensures (user, Admin) in w.roles
  {
    var user :| user in Admins(w); user
  }

  ghost function OtherAdmin(w: World, than: UserId): (user: UserId)
    requires Admins(w) != {} && Admins(w) != {than}
    ensures (user, Admin) in w.roles && user != than
  {
    var user :| user in Admins(w) && user != than; user
  }

  predicate AdminsGoneAfter(w: World, events: seq<Event>, n: nat) {
    n <= |events| && Admins(Run(w, events[..n])) == {}
  }

  predicate LastAdminPurgedAt(w: World, events: seq<Event>, i: nat) {
    i < |events| && PurgesLastAdmin(Run(w, events[..i]), events[i])
  }

  lemma {:induction false} SomethingPurged(w: World, events: seq<Event>, n: nat)
    requires Admins(w) != {} && AdminsGoneAfter(w, events, n)
    ensures exists i: nat :: LastAdminPurgedAt(w, events, i)
  {
    assert events[..0] == [];
    if n > 0 {
      RunNext(w, events, n - 1);
      if AdminsGoneAfter(w, events, n - 1) {
        SomethingPurged(w, events, n - 1);
      } else {
        AdminStep(Run(w, events[..n - 1]), events[n - 1]);
        assert LastAdminPurgedAt(w, events, n - 1);
      }
    }
  }

  /** Where there is an administrator, there is a moment without one in a run of grants,
      demotions, erasures and purges if and only if a purge meets a deleted account that is
      the only administrator. */
  lemma AdminsVanishIff(w: World, events: seq<Event>)
    requires Admins(w) != {}
    ensures (exists n: nat :: AdminsGoneAfter(w, events, n)) <==> exists i: nat :: LastAdminPurgedAt(w, events, i)
  {
    if n: nat :| AdminsGoneAfter(w, events, n) { SomethingPurged(w, events, n); }
    if i: nat :| LastAdminPurgedAt(w, events, i) {
      RunNext(w, events, i);
      AdminStep(Run(w, events[..i]), events[i]);
      assert AdminsGoneAfter(w, events, i + 1);
    }
  }

  ghost predicate NoDeletedAdmin(w: World) {
    forall user | user in Admins(w) :: user in w.users && w.users[user] != Deleted
  }

  /** Nobody grants the role to a deleted account, or marks an account deleted but by erasing it. */
  predicate RolesGoToTheLiving(w: World, events: seq<Event>)
    decreases |events|
  {
    events == [] ||
    (&& (events[0].Grant? && events[0].user in w.users ==> w.users[events[0].user] != Deleted)
     && (events[0].SetState? ==> events[0].state != Deleted)
     && RolesGoToTheLiving(Apply(w, events[0]), events[1..]))
  }

  lemma LivingAdminStep(w: World, e: Event)
    requires NoDeletedAdmin(w) && RolesGoToTheLiving(w, [e])
    ensures NoDeletedAdmin(Apply(w, e))
  {
    var w' := Apply(w, e);
    forall user | user in Admins(w') ensures user in w'.users && w'.users[user] != Deleted {
      assert (user, Admin) in w'.roles;
      if (user, Admin) in w.roles { assert user in Admins(w); }
    }
  }

  /** As long as the role only goes to accounts that are not deleted, there always is an
      administrator, however grants, demotions, erasures and purges interleave. */
  lemma {:induction false} AdminsNeverVanish(w: World, events: seq<Event>)
    requires Admins(w) != {} && NoDeletedAdmin(w) && RolesGoToTheLiving(w, events)
    ensures Admins(Run(w, events)) != {} && NoDeletedAdmin(Run(w, events))
    decreases |events|
  {
    if events != [] {
      AdminStep(w, events[0]);
      LivingAdminStep(w, events[0]);
      AdminsNeverVanish(Apply(w, events[0]), events[1..]);
    }
  }

  /** And otherwise it can happen: the role is granted to a deleted account, the other
      administrator steps down, and the account is purged. */
  lemma LastAdminCanVanish(w: World, admin: UserId, deleted: UserId)
    requires Admins(w) == {admin} && deleted != admin && deleted in w.users && w.users[deleted] == Deleted
    ensures Admins(Run(w, [Grant(deleted, Admin), RevokeRole(admin, Admin)] + [PurgeAccount(deleted)])) == {}
  {
    var granted := Apply(w, Grant(deleted, Admin));
    var demoted := Apply(granted, RevokeRole(admin, Admin));
    RunSnoc(w, [Grant(deleted, Admin), RevokeRole(admin, Admin)], PurgeAccount(deleted));
    RunTwo(w, Grant(deleted, Admin), RevokeRole(admin, Admin));
    assert (deleted, Admin) in granted.roles && deleted in Admins(granted);
    assert Admins(demoted) == {deleted} by {
      assert (deleted, Admin) in demoted.roles;
      forall user | user in Admins(demoted) ensures user == deleted {
        assert (user, Admin) in demoted.roles;
        assert (user, Admin) in w.roles ==> user in Admins(w);
      }
    }
    AdminStep(demoted, PurgeAccount(deleted));
  }
}
