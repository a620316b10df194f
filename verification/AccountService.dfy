/** The authentication service's use cases, interleaved with arbitrary other calls. */
module AccountService {
  import opened Wrappers
  import opened Interference
  import opened Accounts

  datatype Error =
    | InvalidCredentials | RateLimited | TokenInvalid | WeakPassword | EmailTaken | Unauthorized
    | RefuseLastAdmin | Storage | AuditFailed

  /** An event that does not use this call's slot, nor the session id it is to mint. */
  predicate Foreign(e: Event, call: CallId, id: SessionId) {
    && !((e.CheckLogin? || e.CreateSession?) && e.call == call)
    && !(e.CreateSession? && e.id == id)
  }

  ghost predicate AllForeign(others: nat -> seq<Event>, call: CallId, id: SessionId) {
    forall i: nat, e | e in others(i) :: Foreign(e, call, id)
  }

  lemma {:induction false} ForeignRunKeepsLogin(w: World, events: seq<Event>, call: CallId, id: SessionId)
    requires forall e | e in events :: Foreign(e, call, id)
    requires id !in w.minted
    ensures id !in Run(w, events).minted
    ensures call in w.logins ==> call in Run(w, events).logins && Run(w, events).logins[call] == w.logins[call]
    decreases |events|
  {
    if events != [] {
      assert Foreign(events[0], call, id);
      ForeignRunKeepsLogin(Apply(w, events[0]), events[1..], call, id);
    }
  }

  /** Every session the user owned before is dead after. */
  ghost predicate AllEnded(before: World, after: World, user: UserId) {
    forall id | id in before.sessions && before.sessions[id].user == user && id != NO_SESSION :: Dead(after, id)
  }

  lemma RevocationEndsAll(before: World, events: seq<Event>, user: UserId)
    requires Inv(before)
    ensures AllEnded(before, Apply(Run(before, events), RevokeAllExcept(user, NO_SESSION)), user)
  {
    forall id | id in before.sessions && before.sessions[id].user == user && id != NO_SESSION
      ensures Dead(Apply(Run(before, events), RevokeAllExcept(user, NO_SESSION)), id)
    {
      OwnerForever(before, events, id, user);
    }
  }

  /** Sessions that have ended stay ended, whatever follows. */
  lemma EndedStay(before: World, after: World, events: seq<Event>, user: UserId)
    requires AllEnded(before, after, user)
    ensures AllEnded(before, Run(after, events), user)
  {
    forall id | id in before.sessions && before.sessions[id].user == user && id != NO_SESSION
      ensures Dead(Run(after, events), id)
    {
      DeadForever(after, events, id);
    }
  }

  class Service {
    var clock: int
    var users: map<UserId, AccountState>
    var roles: set<(UserId, Role)>
    var sessions: map<SessionId, Session>
    var minted: set<SessionId>
    var logins: map<CallId, UserId>
    /** Ids of accounts whose row is gone. */
    var purged: set<UserId>
    ghost var origin: World
    ghost var past: seq<Event>

    function View(): World
      reads this
    {
      World(clock, users, roles, sessions, minted, logins, purged)
    }

    ghost predicate Valid()
      reads this
    {
      origin == Initial(origin.clock) && View() == Run(origin, past)
    }

    lemma Reached()
      requires Valid()
      ensures Inv(View())
    {
      RunKeepsInv(origin, past);
    }

    constructor (clock: int)
      ensures Valid() && View() == Initial(clock) && past == []
    {
      this.clock := clock;
      users, roles, sessions, minted, logins, purged := map[], {}, map[], {}, map[], {};
      origin, past := Initial(clock), [];
    }

    ghost method Record(e: Event, before: World)
      requires origin == Initial(origin.clock)
      requires before == Run(origin, past) && View() == Apply(before, e)
      modifies this`past
      ensures Valid() && past == old(past) + [e]
    {
      RunSnoc(origin, past, e);
      past := past + [e];
    }

    method Others(events: seq<Event>)
      requires Valid()
      modifies this
      ensures Valid() && origin == old(origin) && past == old(past) + events
      ensures View() == Run(old(View()), events)
    {
      RunAppend(origin, past, events);
      var w := Run(View(), events);
      clock, users, roles := w.clock, w.users, w.roles;
      sessions, minted, logins, purged := w.sessions, w.minted, w.logins, w.purged;
      past := past + events;
    }

    // -------------------------------------------------------------------------
    // Ports
    // -------------------------------------------------------------------------

    /** Read the account a verified credential belongs to; a state that may not log in
        is refused. */
    method FindForLogin(call: CallId, user: UserId) returns (ok: bool)
      requires Valid()
      modifies this
      ensures Valid() && origin == old(origin) && past == old(past) + [CheckLogin(call, user)]
      ensures ok <==> user in users && MayUseAccount(users[user])
      ensures View() == if ok then old(View()).(logins := old(logins)[call := user]) else old(View())
    {
      ok := user in users && MayUseAccount(users[user]);
      if ok {
        logins := logins[call := user];
      }
      Record(CheckLogin(call, user), old(View()));
    }

    /** Insert the session; the account's row must still be there. */
    method CreateSessionRow(call: CallId, id: SessionId) returns (ok: bool)
      requires Valid() && call in logins && id !in minted
      modifies this
      ensures Valid() && origin == old(origin) && past == old(past) + [CreateSession(call, id)]
      ensures ok <==> old(logins[call]) in old(users)
      ensures !ok ==> View() == old(View())
      ensures ok ==>
        && sessions == old(sessions)[id := Session(old(logins[call]), clock, clock + ABSOLUTE_CAP, false)]
        && minted == old(minted) + {id} && logins == old(logins) - {call}
        && clock == old(clock) && users == old(users) && roles == old(roles)
    {
      ok := logins[call] in users;
      if ok {
        sessions := sessions[id := Session(logins[call], clock, clock + ABSOLUTE_CAP, false)];
        minted := minted + {id};
        logins := logins - {call};
      }
      Record(CreateSession(call, id), old(View()));
    }

    method SetAccountState(user: UserId, state: AccountState)
      requires Valid()
      modifies this
      ensures Valid() && origin == old(origin) && past == old(past) + [SetState(user, state)]
      ensures users == if user in old(users) then old(users)[user := state] else old(users)
      ensures View() == old(View()).(users := users)
    {
      if user in users {
        users := users[user := state];
      }
      Record(SetState(user, state), old(View()));
    }

    method ConfirmEmailOf(user: UserId)
      requires Valid()
      modifies this
      ensures Valid() && origin == old(origin) && past == old(past) + [ConfirmEmail(user)]
      ensures users == if user in old(users) then old(users)[user := Active] else old(users)
      ensures View() == old(View()).(users := users)
    {
      if user in users {
        users := users[user := Active];
      }
      Record(ConfirmEmail(user), old(View()));
    }

    /** `UPDATE sessions SET revoked_at = now() WHERE user_id = ... AND id != keep`. */
    method RevokeAll(user: UserId, keep: SessionId)
      requires Valid()
      modifies this
      ensures Valid() && origin == old(origin) && past == old(past) + [RevokeAllExcept(user, keep)]
      ensures View() == Apply(old(View()), RevokeAllExcept(user, keep))
    {
      sessions := map id | id in sessions ::
        if sessions[id].user == user && id != keep then sessions[id].(revoked := true) else sessions[id];
      Record(RevokeAllExcept(user, keep), old(View()));
    }

    /** Find a live session by its raw id, refreshing when it was last seen. */
    method ResolveRow(id: SessionId) returns (owner: Option<UserId>)
      requires Valid()
      modifies this
      ensures Valid() && origin == old(origin) && past == old(past) + [Touch(id)]
      ensures users == old(users) && roles == old(roles) && clock == old(clock)
      ensures owner == if id in old(sessions) && !old(sessions)[id].revoked && !Expired(old(View()), old(sessions)[id])
                       then Some(old(sessions)[id].user) else None
      ensures owner.None? ==> sessions == old(sessions)
      ensures owner.Some? ==>
        var s := old(sessions)[id];
        sessions == old(sessions)[id :=
          s.(lastSeenAt := if clock - 2_592_000 < s.lastSeenAt < clock - 300 then clock else s.lastSeenAt)]
    {
      owner := None;
      if id in sessions && !sessions[id].revoked
         && clock <= sessions[id].expiresAt && clock - sessions[id].lastSeenAt <= INACTIVE_IDLE {
        owner := Some(sessions[id].user);
        if clock - INACTIVE_IDLE < sessions[id].lastSeenAt < clock - LAST_SEEN_REFRESH {
          sessions := sessions[id := sessions[id].(lastSeenAt := clock)];
        }
      }
      Record(Touch(id), old(View()));
    }

    /** Delete a role row, locking the administrator rows and counting them first. */
    method RevokeRoleGuarded(user: UserId, role: Role) returns (r: Result<bool, Error>)
      requires Valid()
      modifies this
      ensures Valid() && origin == old(origin) && past == old(past) + [RevokeRole(user, role)]
      ensures View() == old(View()).(roles := roles)
      ensures r.Failure? <==> role == Admin && Admins(old(View())) == {user}
      ensures r.Failure? ==> r.error == RefuseLastAdmin && roles == old(roles)
      ensures r.Success? ==> roles == old(roles) - {(user, role)} && (r.value <==> (user, role) in old(roles))
    {
      var admins := Admins(View());
      if role == Admin && |admins| <= 1 && user in admins {
        assert admins == {user} by { SingletonWith(admins, user); }
        r := Failure(RefuseLastAdmin);
      } else {
        assert admins == {user} ==> |admins| == 1;
        r := Success((user, role) in roles);
        roles := roles - {(user, role)};
      }
      Record(RevokeRole(user, role), old(View()));
    }

    /** Insert the role row; the account's row must be there, its state is not asked. */
    method GrantRoleRow(user: UserId, role: Role) returns (ok: bool)
      requires Valid()
      modifies this
      ensures Valid() && origin == old(origin) && past == old(past) + [Grant(user, role)]
      ensures ok <==> user in old(users)
      ensures View() == old(View()).(roles := if ok then old(roles) + {(user, role)} else old(roles))
    {
      ok := user in users;
      if ok {
        roles := roles + {(user, role)};
      }
      Record(Grant(user, role), old(View()));
    }

    // -------------------------------------------------------------------------
    // Use cases
    // -------------------------------------------------------------------------

    /** Sign in.  `identity` is what the e-mail and password lookup found. */
    method Login(call: CallId, allowed: bool, identity: Option<UserId>, passwordOk: bool, id: SessionId,
                 audited: bool, others: nat -> seq<Event>)
      returns (r: Result<SessionId, Error>)
      requires Valid() && id !in minted && call !in logins
      requires AllForeign(others, call, id)
      modifies this
      ensures Valid() && origin == old(origin) && old(past) <= past
      ensures !allowed ==> r == Failure(RateLimited) && View() == old(View())
      ensures allowed && (identity.None? || !passwordOk) ==> r == Failure(InvalidCredentials) && View() == old(View())
      ensures r.Success? || r == Failure(AuditFailed) ==>
        && (r.Success? ==> r.value == id)
        && identity.Some? && id in minted && OwnedOrDead(View(), id, identity.value)
      ensures r.Failure? && r.error != AuditFailed ==> id !in sessions
      ensures Quiet(others) && r.Success? ==> Resolves(View(), id)
      ensures Quiet(others) && allowed && identity.Some? && passwordOk ==>
        r == if identity.value in old(users) && MayUseAccount(old(users)[identity.value]) then
               (if audited then Success(id) else Failure(AuditFailed))
             else Failure(InvalidCredentials)
      ensures Quiet(others) && allowed && identity.Some? && passwordOk ==>
        if identity.value in old(users) && old(users)[identity.value] in {PendingEmailVerification, Active} then
          && r == (if audited then Success(id) else Failure(AuditFailed))
          && sessions == old(sessions)[id := Session(identity.value, old(clock), old(clock) + 7_776_000, false)]
        else r == Failure(InvalidCredentials) && sessions == old(sessions)
    {
      assert id !in sessions by { Reached(); }
      if !allowed {
        return Failure(RateLimited);
      }
      if identity.None? || !passwordOk {
        return Failure(InvalidCredentials);
      }
      Others(others(0));
      ForeignRunKeepsLogin(old(View()), others(0), call, id);
      assert id !in sessions by { Reached(); }
      var ok := FindForLogin(call, identity.value);
      if !ok {
        return Failure(InvalidCredentials);
      }
      ghost var checked := View();
      Others(others(1));
      ForeignRunKeepsLogin(checked, others(1), call, id);
      assert id !in sessions by { Reached(); }
      ok := CreateSessionRow(call, id);
      if !ok {
        return Failure(Storage);
      }
      ghost var created := View();
      Others(others(2));
      OwnerForever(created, others(2), id, identity.value);
      r := if audited then Success(id) else Failure(AuditFailed);
    }

    /** Suspend an account and end its sessions. */
    method SuspendUser(actorIsAdmin: bool, target: UserId, audited: bool, others: nat -> seq<Event>)
      returns (r: Result<(), Error>)
      requires Valid()
      modifies this
      ensures Valid() && origin == old(origin) && old(past) <= past
      ensures !actorIsAdmin ==> r == Failure(Unauthorized) && View() == old(View())
      ensures actorIsAdmin ==>
        && AllEnded(old(View()), View(), target)
        && r == if audited then Success(()) else Failure(AuditFailed)
      ensures Quiet(others) && actorIsAdmin ==>
        && users == (if target in old(users) then old(users)[target := Suspended] else old(users))
        && (target in users ==> forall id | id in sessions && sessions[id].user == target :: !Resolves(View(), id))
    {
      if !actorIsAdmin {
        return Failure(Unauthorized);
      }
      Reached();
      ghost var start := View();
      SetAccountState(target, Suspended);
      ghost var suspended := View();
      Others(others(1));
      RevocationEndsAll(suspended, others(1), target);
      RevokeAll(target, NO_SESSION);
      assert AllEnded(start, View(), target);
      ghost var revoked := View();
      Others(others(2));
      EndedStay(start, revoked, others(2), target);
      r := if audited then Success(()) else Failure(AuditFailed);
    }

    method RestoreUser(actorIsAdmin: bool, target: UserId, audited: bool, others: nat -> seq<Event>)
      returns (r: Result<(), Error>)
      requires Valid()
      modifies this
      ensures Valid() && origin == old(origin) && old(past) <= past
      ensures !actorIsAdmin ==> r == Failure(Unauthorized) && View() == old(View())
      ensures actorIsAdmin ==>
        && old(past) + [SetState(target, Active)] <= past
        && r == if audited then Success(()) else Failure(AuditFailed)
      ensures Quiet(others) && actorIsAdmin ==>
        View() == old(View()).(users := if target in old(users) then old(users)[target := Active] else old(users))
    {
      if !actorIsAdmin {
        return Failure(Unauthorized);
      }
      SetAccountState(target, Active);
      Others(others(0));
      r := if audited then Success(()) else Failure(AuditFailed);
    }

    /** Set a new password through an e-mailed token (`owner` is whose token it was), and
        end every session. */
    method ResetPassword(owner: Option<UserId>, strong: bool, audited: bool, others: nat -> seq<Event>)
      returns (r: Result<(), Error>)
      requires Valid()
      modifies this
      ensures Valid() && origin == old(origin) && old(past) <= past
      ensures owner.None? ==> r == Failure(TokenInvalid) && View() == old(View())
      ensures owner.Some? && !strong ==> r == Failure(WeakPassword) && View() == old(View())
      ensures owner.Some? && strong ==>
        && AllEnded(old(View()), View(), owner.value)
        && r == if audited then Success(()) else Failure(AuditFailed)
    {
      if owner.None? {
        return Failure(TokenInvalid);
      }
      if !strong {
        return Failure(WeakPassword);
      }
      Reached();
      ghost var start := View();
      Others(others(1));
      RevocationEndsAll(start, others(1), owner.value);
      RevokeAll(owner.value, NO_SESSION);
      ghost var revoked := View();
      Others(others(2));
      EndedStay(start, revoked, others(2), owner.value);
      r := if audited then Success(()) else Failure(AuditFailed);
    }

    /** Confirm an address.  When that changes the account's address, every session ends. */
    method VerifyEmail(owner: Option<UserId>, changesEmail: bool, addressFree: bool, audited: bool,
                       others: nat -> seq<Event>)
      returns (r: Result<(), Error>)
      requires Valid()
      modifies this
      ensures Valid() && origin == old(origin) && old(past) <= past
      ensures r.Success? && changesEmail ==> owner.Some? && AllEnded(old(View()), View(), owner.value)
      ensures Quiet(others) ==>
        if owner.None? || owner.value !in old(users) then r == Failure(TokenInvalid) && users == old(users)
        else if !addressFree then r == Failure(EmailTaken) && users == old(users)
        else users == old(users)[owner.value := Active] && r == if audited then Success(()) else Failure(AuditFailed)
      ensures Quiet(others) && !changesEmail ==> sessions == old(sessions)
    {
      if owner.None? {
        return Failure(TokenInvalid);
      }
      ghost var start := View();
      assert Inv(start) by { Reached(); }
      Others(others(0));
      if owner.value !in users {
        return Failure(TokenInvalid);
      }
      if !addressFree {
        return Failure(EmailTaken);
      }
      ghost var confirm := [ConfirmEmail(owner.value)];
      RunSnoc(start, others(0), ConfirmEmail(owner.value));
      ConfirmEmailOf(owner.value);
      if changesEmail {
        EndSessions(start, others(0) + confirm, owner.value, others(1));
      }
      ghost var ended := View();
      Others(others(2));
      if changesEmail { EndedStay(start, ended, others(2), owner.value); }
      r := if audited then Success(()) else Failure(AuditFailed);
    }

    /** Revoke all sessions of a user, after whatever else went on since `start`. */
    method EndSessions(ghost start: World, ghost since: seq<Event>, user: UserId, events: seq<Event>)
      requires Valid() && Inv(start) && View() == Run(start, since)
      modifies this
      ensures Valid() && origin == old(origin) && old(past) <= past
      ensures AllEnded(start, View(), user)
      ensures events == [] ==> users == old(users)
    {
      RunAppend(start, since, events);
      Others(events);
      RevocationEndsAll(start, since + events, user);
      RevokeAll(user, NO_SESSION);
    }

    /** Whom a raw session id stands for. */
    method ResolveSession(id: SessionId, others: nat -> seq<Event>) returns (r: Option<UserId>)
      requires Valid()
      modifies this
      ensures Valid() && origin == old(origin) && old(past) <= past
      ensures Dead(old(View()), id) ==> r.None?
      ensures Quiet(others) ==> (r.Some? <==> Resolves(old(View()), id))
      ensures Quiet(others) ==>
        (r.Some? <==>
          && id in old(sessions) && !old(sessions)[id].revoked
          && old(clock) <= old(sessions)[id].expiresAt && old(clock) - old(sessions)[id].lastSeenAt <= 2_592_000
          && old(sessions)[id].user in old(users)
          && old(users)[old(sessions)[id].user] in {PendingEmailVerification, Active})
      ensures r.Some? ==>
        && id in old(sessions) && r.value == old(sessions)[id].user
        && r.value in users && users[r.value] in {PendingEmailVerification, Active}
      ensures Quiet(others) && r.Some? ==>
        var s := old(sessions)[id];
        sessions == old(sessions)[id :=
          s.(lastSeenAt := if clock - 2_592_000 < s.lastSeenAt < clock - 300 then clock else s.lastSeenAt)]
    {
      r := ResolveRow(id);
      if r.None? {
        return;
      }
      Others(others(0));
      if r.value !in users || !MayUseAccount(users[r.value]) {
        r := None;
      }
    }

    method GrantRole(actorIsAdmin: bool, target: UserId, role: Role, audited: bool, others: nat -> seq<Event>)
      returns (r: Result<(), Error>)
      requires Valid()
      modifies this
      ensures Valid() && origin == old(origin) && old(past) <= past
      ensures !actorIsAdmin || role == UserRole ==> r == Failure(Unauthorized) && View() == old(View())
      ensures actorIsAdmin && role != UserRole ==>
        && old(past) + [Grant(target, role)] <= past
        && r == if target !in old(users) then Failure(Storage) else if audited then Success(()) else Failure(AuditFailed)
      ensures Quiet(others) && actorIsAdmin && role != UserRole ==>
        roles == if target in old(users) then old(roles) + {(target, role)} else old(roles)
    {
      if !actorIsAdmin || role == UserRole {
        return Failure(Unauthorized);
      }
      var ok := GrantRoleRow(target, role);
      if !ok {
        return Failure(Storage);
      }
      Others(others(0));
      r := if audited then Success(()) else Failure(AuditFailed);
    }

    /** Take a role away, unless that would leave no administrator. */
    method TakeRole(actorIsAdmin: bool, target: UserId, role: Role, audited: bool, others: nat -> seq<Event>)
      returns (r: Result<(), Error>, ghost taken: World)
      requires Valid()
      modifies this
      ensures Valid() && origin == old(origin) && old(past) <= past
      ensures !actorIsAdmin || role == UserRole ==> r == Failure(Unauthorized) && View() == old(View())
      ensures actorIsAdmin && role != UserRole ==>
        && old(past) + [RevokeRole(target, role)] <= past
        && taken == Run(origin, old(past) + [RevokeRole(target, role)])
        && if role == Admin && Admins(old(View())) == {target} then r == Failure(RefuseLastAdmin) && taken.roles == old(roles)
           else
             && taken.roles == old(roles) - {(target, role)}
             && r == if (target, role) in old(roles) && !audited then Failure(AuditFailed) else Success(())
      ensures actorIsAdmin && role != UserRole && Admins(old(View())) != {} ==> Admins(taken) != {}
      ensures Quiet(others) && actorIsAdmin && role != UserRole ==> View() == taken
    {
      taken := View();
      if !actorIsAdmin || role == UserRole {
        return Failure(Unauthorized), taken;
      }
      if Admins(View()) != {} { AdminStep(View(), RevokeRole(target, role)); }
      var removed := RevokeRoleGuarded(target, role);
      taken := View();
      if removed.Failure? {
        return Failure(RefuseLastAdmin), taken;
      }
      if !removed.value {
        return Success(()), taken;
      }
      Others(others(0));
      r := if audited then Success(()) else Failure(AuditFailed);
    }
  }

  lemma SingletonWith(s: set<UserId>, x: UserId)
    requires |s| <= 1 && x in s
    ensures s == {x}
  {
    assert |s - {x}| == 0;
  }
}
