/**
 Tokens and sessions over whole runs. Every write of AuthService and UsersService is one step;
 `tick` counts the steps that changed something, and the marks of a user remember at which tick
 the events happened that tokens and sessions must not outlive.
 */
module Accounts {
  import opened Clock
  import opened Wrappers
  import opened Lockout
  import opened Users

  type SessionId = nat

  datatype Purpose = Invite | Reset

  const INVITE_TOKEN_LIFETIME: int := 48 * 60 * MINUTE
  const RESET_TOKEN_LIFETIME: int := 60 * MINUTE

  datatype Token = Token(user: UserId, purpose: Purpose, issuedAt: nat, expiresAt: Time, used: bool)

  datatype Session = Session(user: UserId, createdAt: nat, expiresAt: Time, lastSeenAt: Time, revoked: bool)

  /**
   When the user last used a token, was disabled, changed address, was reset, and ended sessions
   other than `kept`.
   */
  datatype Marks = Marks(use: nat, disable: nat, email: nat, reset: nat, ended: nat, kept: Option<SessionId>)

  const NO_MARKS: Marks := Marks(0, 0, 0, 0, 0, None)

  /** `issued` is every token ever drawn at random, `applied` those whose account write was made, in order. */
  datatype State = State(users: map<UserId, User>, tokens: map<string, Token>, sessions: map<SessionId, Session>,
                         tick: nat, marks: map<UserId, Marks>, issued: set<string>, applied: seq<string>)

  datatype Step =
    | Login(email: string, password: string, now: Time, expiresAt: Time, session: SessionId)
    | Logout(session: SessionId)
    | EndSession(actor: UserId, actorIsAdmin: bool, session: SessionId)
    | EndOtherSessions(user: UserId, current: SessionId)
    | ChangePassword(user: UserId, was: string, next: string, session: SessionId)
    | InviteUser(email: string, name: string, role: Role, user: UserId, raw: string, now: Time)
    | AcceptInvite(raw: string, password: string, now: Time)
    | SendPasswordReset(email: string, raw: string, now: Time)
    | ResetPassword(raw: string, password: string, now: Time)
    | UpdateUser(actor: UserId, target: UserId, input: Input)
    | RemoveUser(actor: UserId, target: UserId)
    | Touch(session: SessionId, now: Time)

  /** New rows get new ids, and a random token is never drawn twice. */
  predicate Enabled(s: State, step: Step) {
    match step
    case Login(_, _, _, _, session) => session !in s.sessions
    case InviteUser(_, _, _, user, raw, _) => user !in s.users && raw !in s.issued
    case SendPasswordReset(_, raw, _) => raw !in s.issued
    case _ => true
  }

  // ---- the steps ------------------------------------------------------------------------

  ghost function ByEmail(users: map<UserId, User>, email: string): Option<UserId> {
    if exists id :: id in users && users[id].email == email
    then var id :| id in users && users[id].email == email; Some(id)
    else None
  }

  function Revoke(sessions: map<SessionId, Session>, gone: set<SessionId>): map<SessionId, Session> {
    map i | i in sessions :: if i in gone then sessions[i].(revoked := true) else sessions[i]
  }

  function SessionsOf(sessions: map<SessionId, Session>, user: UserId): set<SessionId> {
    set i | i in sessions && sessions[i].user == user
  }

  /** `DELETE ... WHERE user_id = user AND used_at IS NULL`. */
  function DropUnused(tokens: map<string, Token>, user: UserId): map<string, Token> {
    map r | r in tokens && (tokens[r].user != user || tokens[r].used) :: tokens[r]
  }

  predicate CanSignIn(u: User, now: Time) {
    u.status == Active && !IsBruteForceLocked(u.counters, now)
  }

  function WithUser(s: State, id: UserId, u: User): State {
    s.(users := s.users[id := u])
  }

  function OpenSession(s: State, id: UserId, expiresAt: Time, now: Time, session: SessionId): State {
    s.(sessions := s.sessions[session := Session(id, s.tick + 1, expiresAt, now, false)], tick := s.tick + 1)
  }

  function AddUser(s: State, id: UserId, u: User): State {
    s.(users := s.users[id := u], marks := s.marks[id := NO_MARKS])
  }

  function LoginAs(s: State, id: UserId, password: string, now: Time, expiresAt: Time, session: SessionId): State
    requires id in s.users
  {
    var u := s.users[id];
    if !CanSignIn(u, now) then s
    else if u.password != Some(password) then WithUser(s, id, u.(counters := WrongPassword(u.counters, now)))
    else OpenSession(WithUser(s, id, u.(counters := SignedIn(u.counters))), id, expiresAt, now, session)
  }

  function MarksOf(marks: map<UserId, Marks>, id: UserId): Marks {
    if id in marks then marks[id] else NO_MARKS
  }

  function EndOthers(s: State, user: UserId, current: SessionId): State {
    s.(sessions := Revoke(s.sessions, SessionsOf(s.sessions, user) - {current}),
       tick := s.tick + 1,
       marks := if user !in s.users then s.marks
                else s.marks[user := MarksOf(s.marks, user).(ended := s.tick + 1, kept := Some(current))])
  }

  function Issue(s: State, raw: string, token: Token): State {
    s.(tokens := s.tokens[raw := token], tick := s.tick + 1, issued := s.issued + {raw})
  }

  function IssueInvite(s: State, row: User, user: UserId, raw: string, now: Time): State {
    Issue(AddUser(s, user, row), raw, Token(user, Invite, s.tick + 1, now + INVITE_TOKEN_LIFETIME, false))
  }

  /** Only an active account gets a reset link. */
  function IssueReset(s: State, id: UserId, raw: string, now: Time): State
    requires id in s.users
  {
    if s.users[id].status != Active then s
    else Issue(s, raw, Token(id, Reset, s.tick + 1, now + RESET_TOKEN_LIFETIME, false))
  }

  function StatusFor(purpose: Purpose): Status {
    if purpose == Invite then Invited else Active
  }

  predicate Consumable(s: State, raw: string, purpose: Purpose, now: Time) {
    && raw in s.tokens
    && s.tokens[raw].purpose == purpose && !s.tokens[raw].used && s.tokens[raw].expiresAt > now
    && s.tokens[raw].user in s.users
    && s.users[s.tokens[raw].user].status == StatusFor(purpose)
  }

  /** Spend the token, drop the user's other outstanding ones, set the password and unlock. */
  function Consume(s: State, raw: string, password: string): State
    requires raw in s.tokens && s.tokens[raw].user in s.users
  {
    var id := s.tokens[raw].user;
    var u := s.users[id];
    s.(users := s.users[id := u.(password := Some(password), status := Active, counters := Unlocked(u.counters))],
       tokens := DropUnused(s.tokens[raw := s.tokens[raw].(used := true)], id),
       tick := s.tick + 1,
       marks := s.marks[id := MarksOf(s.marks, id).(use := s.tick + 1)],
       applied := s.applied + [raw])
  }

  function RevokeForReset(s: State, id: UserId): State {
    s.(sessions := Revoke(s.sessions, SessionsOf(s.sessions, id)),
       marks := s.marks[id := MarksOf(s.marks, id).(reset := s.tick)])
  }

  function Update(s: State, target: UserId, input: Input): State
    requires target in s.users
  {
    var u := s.users[target];
    Saved(s, target, Changed(u, input), Disables(u, input), ChangesEmail(u, input))
  }

  /** The row is written, and what a disable or a new address voids is dropped. */
  function Saved(s: State, target: UserId, row: User, disabling: bool, moving: bool): State {
    var t, m := s.tick + 1, MarksOf(s.marks, target);
    s.(users := s.users[target := row],
       sessions := if disabling then Revoke(s.sessions, SessionsOf(s.sessions, target)) else s.sessions,
       tokens := if disabling || moving then DropUnused(s.tokens, target) else s.tokens,
       tick := t,
       marks := s.marks[target := m.(disable := if disabling then t else m.disable,
                                     email := if moving then t else m.email)])
  }

  /** Deleting a user deletes its tokens and sessions with it. */
  function Remove(s: State, target: UserId): State {
    s.(users := s.users - {target},
       tokens := (map r | r in s.tokens && s.tokens[r].user != target :: s.tokens[r]),
       sessions := (map i | i in s.sessions && s.sessions[i].user != target :: s.sessions[i]),
       tick := s.tick + 1,
       marks := s.marks - {target})
  }

  ghost function Apply(s: State, step: Step): State {
    match step
    case Login(email, password, now, expiresAt, session) =>
      var found := ByEmail(s.users, email);
      if found.None? then s else LoginAs(s, found.value, password, now, expiresAt, session)
    case Logout(session) => s.(sessions := Revoke(s.sessions, {session}))
    case EndSession(actor, actorIsAdmin, session) =>
      if session in s.sessions && (s.sessions[session].user == actor || actorIsAdmin)
      then s.(sessions := Revoke(s.sessions, {session})) else s
    case EndOtherSessions(user, current) => EndOthers(s, user, current)
    case ChangePassword(user, was, next, session) =>
      if user in s.users && s.users[user].password == Some(was)
      then EndOthers(WithUser(s, user, s.users[user].(password := Some(next))), user, session)
      else s
    case InviteUser(email, name, role, user, raw, now) =>
      if ByEmail(s.users, email).Some? then s
      else
        IssueInvite(s, User(name, email, role, Invited, None, Counters(0, 0, None, None)), user, raw, now)
    case AcceptInvite(raw, password, now) => if Consumable(s, raw, Invite, now) then Consume(s, raw, password) else s
    case SendPasswordReset(email, raw, now) =>
      var found := ByEmail(s.users, email);
      if found.None? then s else IssueReset(s, found.value, raw, now)
    case ResetPassword(raw, password, now) =>
      if Consumable(s, raw, Reset, now) then RevokeForReset(Consume(s, raw, password), s.tokens[raw].user) else s
    case UpdateUser(actor, target, input) =>
      if UpdateRefusal(s.users, actor, target, input).Some? then s else Update(s, target, input)
    case RemoveUser(actor, target) =>
      if RemoveRefusal(s.users, actor, target).Some? then s else Remove(s, target)
    case Touch(session, now) =>
      if session !in s.sessions then s
      else s.(sessions := s.sessions[session := s.sessions[session].(lastSeenAt := now)])
  }

  // ---- the invariant --------------------------------------------------------------------

  ghost predicate MarksBefore(m: Marks, tick: nat) {
    m.use <= tick && m.disable <= tick && m.email <= tick && m.reset <= tick && m.ended <= tick
  }

  /** An outstanding token is newer than anything that should have voided it, and fits the account's status. */
  ghost predicate TokenOk(s: State, raw: string, t: Token) {
    && raw in s.issued
    && t.user in s.users && t.user in s.marks
    && t.issuedAt <= s.tick
    && (!t.used ==>
          && s.marks[t.user].use < t.issuedAt && s.marks[t.user].disable < t.issuedAt
          && s.marks[t.user].email < t.issuedAt
          && s.users[t.user].status == StatusFor(t.purpose))
  }

  /** A session that was not revoked belongs to an active account and is newer than what should have ended it. */
  ghost predicate SessionOk(s: State, id: SessionId, e: Session) {
    && e.user in s.users && e.user in s.marks
    && e.createdAt <= s.tick
    && (!e.revoked ==>
          && s.users[e.user].status == Active
          && s.marks[e.user].disable < e.createdAt && s.marks[e.user].reset < e.createdAt
          && (s.marks[e.user].ended < e.createdAt || s.marks[e.user].kept == Some(id)))
  }

  /** No token was applied twice, and none that was applied can be used again. */
  ghost predicate AppliedOk(s: State) {
    && (forall i, j | 0 <= i < j < |s.applied| :: s.applied[i] != s.applied[j])
    && (forall raw | raw in s.applied :: raw in s.issued && (raw in s.tokens ==> s.tokens[raw].used))
  }

  ghost predicate UsersOk(s: State) {
    && EmailsUnique(s.users)
    && s.marks.Keys == s.users.Keys
    && (forall id | id in s.users :: InRange(s.users[id].counters) && MarksBefore(s.marks[id], s.tick))
  }

  ghost predicate TokensOk(s: State) {
    forall raw | raw in s.tokens :: TokenOk(s, raw, s.tokens[raw])
  }

  ghost predicate SessionsOk(s: State) {
    forall id | id in s.sessions :: SessionOk(s, id, s.sessions[id])
  }

  ghost predicate Inv(s: State) {
    UsersOk(s) && TokensOk(s) && SessionsOk(s) && AppliedOk(s)
  }

  // ---- every step keeps it --------------------------------------------------------------

  /** Rows that were in order stay so while users keep their status and nothing new is marked. */
  lemma SameRows(s: State, s': State)
    requires Inv(s) && s'.tick >= s.tick && s'.marks == s.marks && s.issued <= s'.issued
    requires forall id | id in s.users :: id in s'.users && s'.users[id].status == s.users[id].status
    ensures forall raw | raw in s.tokens :: TokenOk(s', raw, s.tokens[raw])
    ensures forall id | id in s.sessions :: SessionOk(s', id, s.sessions[id])
  {
  }

  /** Neither the counters nor the password of a row matter to tokens and sessions. */
  lemma WithUserKeeps(s: State, id: UserId, u: User)
    requires Inv(s) && id in s.users && u.email == s.users[id].email && u.status == s.users[id].status
    requires InRange(u.counters)
    ensures Inv(WithUser(s, id, u))
  {
    SameRows(s, WithUser(s, id, u));
  }

  lemma OpenSessionKeeps(s: State, id: UserId, expiresAt: Time, now: Time, session: SessionId)
    requires Inv(s) && id in s.users && s.users[id].status == Active && session !in s.sessions
    ensures Inv(OpenSession(s, id, expiresAt, now, session))
  {
  }

  lemma LoginKeeps(s: State, id: UserId, password: string, now: Time, expiresAt: Time, session: SessionId)
    requires Inv(s) && id in s.users && session !in s.sessions
    ensures Inv(LoginAs(s, id, password, now, expiresAt, session))
  {
    var u := s.users[id];
    StaysInRange(u.counters, now);
    if CanSignIn(u, now) {
      if u.password != Some(password) {
        WithUserKeeps(s, id, u.(counters := WrongPassword(u.counters, now)));
      } else {
        WithUserKeeps(s, id, u.(counters := SignedIn(u.counters)));
        OpenSessionKeeps(WithUser(s, id, u.(counters := SignedIn(u.counters))), id, expiresAt, now, session);
      }
    }
  }

  lemma RevokeKeeps(s: State, gone: set<SessionId>)
    requires Inv(s)
    ensures Inv(s.(sessions := Revoke(s.sessions, gone)))
  {
  }

  lemma EndOthersKeeps(s: State, user: UserId, current: SessionId)
    requires Inv(s)
    ensures Inv(EndOthers(s, user, current))
  {
    EndOthersKeepsTokens(s, user, current);
    EndOthersKeepsSessions(s, user, current);
  }

  lemma EndOthersKeepsTokens(s: State, user: UserId, current: SessionId)
    requires Inv(s)
    ensures TokensOk(EndOthers(s, user, current))
  {
  }

  lemma EndOthersKeepsSessions(s: State, user: UserId, current: SessionId)
    requires Inv(s)
    ensures SessionsOk(EndOthers(s, user, current))
  {
    var s' := EndOthers(s, user, current);
    forall id | id in s'.sessions ensures SessionOk(s', id, s'.sessions[id]) {
      assert SessionOk(s, id, s.sessions[id]);
    }
  }

  lemma IssueKeeps(s: State, raw: string, token: Token)
    requires Inv(s) && raw !in s.issued && token.user in s.users
    requires s.users[token.user].status == StatusFor(token.purpose)
    requires token.issuedAt == s.tick + 1 && !token.used
    ensures Inv(Issue(s, raw, token))
  {
  }

  lemma AddUserKeeps(s: State, user: UserId, row: User)
    requires Inv(s) && user !in s.users && ByEmail(s.users, row.email).None? && InRange(row.counters)
    ensures Inv(AddUser(s, user, row))
  {
    AddUserKeepsRows(s, user, row);
  }

  lemma AddUserKeepsRows(s: State, user: UserId, row: User)
    requires Inv(s) && user !in s.users
    ensures TokensOk(AddUser(s, user, row)) && SessionsOk(AddUser(s, user, row))
  {
  }

  lemma ConsumeKeeps(s: State, raw: string, purpose: Purpose, password: string, now: Time)
    requires Inv(s) && Consumable(s, raw, purpose, now)
    ensures Inv(Consume(s, raw, password))
    ensures raw !in s.applied
  {
    StaysInRange(s.users[s.tokens[raw].user].counters, now);
    ConsumeKeepsTokens(s, raw, purpose, password, now);
    ConsumeKeepsSessions(s, raw, purpose, password, now);
    assert raw in s.issued by {
      assert TokenOk(s, raw, s.tokens[raw]);
    }
  }

  lemma ConsumeKeepsTokens(s: State, raw: string, purpose: Purpose, password: string, now: Time)
    requires Inv(s) && Consumable(s, raw, purpose, now)
    ensures TokensOk(Consume(s, raw, password))
  {
  }

  lemma ConsumeKeepsSessions(s: State, raw: string, purpose: Purpose, password: string, now: Time)
    requires Inv(s) && Consumable(s, raw, purpose, now)
    ensures SessionsOk(Consume(s, raw, password))
  {
  }

  lemma ResetKeeps(s: State, id: UserId)
    requires Inv(s) && id in s.marks
    ensures Inv(RevokeForReset(s, id))
  {
    ResetKeepsTokens(s, id);
    ResetKeepsSessions(s, id);
  }

  lemma ResetKeepsTokens(s: State, id: UserId)
    requires Inv(s) && id in s.marks
    ensures TokensOk(RevokeForReset(s, id))
  {
  }

  lemma ResetKeepsSessions(s: State, id: UserId)
    requires Inv(s) && id in s.marks
    ensures SessionsOk(RevokeForReset(s, id))
  {
  }

  lemma UpdateKeeps(s: State, actor: UserId, target: UserId, input: Input)
    requires Inv(s) && UpdateRefusal(s.users, actor, target, input).None?
    ensures Inv(Update(s, target, input))
  {
    StaysInRange(s.users[target].counters, 0);
    UpdateKeepsTokens(s, actor, target, input);
    UpdateKeepsSessions(s, actor, target, input);
    UpdateKeepsEmails(s.users, actor, target, input);
  }

  lemma UpdateKeepsEmails(users: map<UserId, User>, actor: UserId, target: UserId, input: Input)
    requires EmailsUnique(users) && UpdateRefusal(users, actor, target, input).None?
    ensures EmailsUnique(users[target := Changed(users[target], input)])
  {
  }

  lemma UpdateKeepsTokens(s: State, actor: UserId, target: UserId, input: Input)
    requires Inv(s) && UpdateRefusal(s.users, actor, target, input).None?
    ensures TokensOk(Update(s, target, input))
  {
    var s' := Update(s, target, input);
    forall raw | raw in s'.tokens ensures TokenOk(s', raw, s'.tokens[raw]) {
      assert TokenOk(s, raw, s.tokens[raw]);
    }
  }

  lemma UpdateKeepsSessions(s: State, actor: UserId, target: UserId, input: Input)
    requires Inv(s) && UpdateRefusal(s.users, actor, target, input).None?
    ensures SessionsOk(Update(s, target, input))
  {
    var s' := Update(s, target, input);
    forall i | i in s'.sessions ensures SessionOk(s', i, s'.sessions[i]) {
      assert SessionOk(s, i, s.sessions[i]);
    }
  }

  lemma RemoveKeeps(s: State, target: UserId)
    requires Inv(s)
    ensures Inv(Remove(s, target))
  {
    var s' := Remove(s, target);
    forall raw | raw in s'.tokens ensures TokenOk(s', raw, s'.tokens[raw]) {
      assert TokenOk(s, raw, s.tokens[raw]);
    }
    forall i | i in s'.sessions ensures SessionOk(s', i, s'.sessions[i]) {
      assert SessionOk(s, i, s.sessions[i]);
    }
  }

  lemma TouchKeeps(s: State, session: SessionId, now: Time)
    requires Inv(s) && session in s.sessions
    ensures Inv(s.(sessions := s.sessions[session := s.sessions[session].(lastSeenAt := now)]))
  {
  }

  lemma SessionStepKeeps(s: State, step: Step)
    requires Inv(s) && Enabled(s, step)
    requires step.Login? || step.Logout? || step.EndSession? || step.EndOtherSessions? || step.ChangePassword? ||
             step.Touch?
    ensures Inv(Apply(s, step))
  {
    match step
    case Login(email, password, now, expiresAt, session) =>
      var found := ByEmail(s.users, email);
      if found.Some? {
        LoginKeeps(s, found.value, password, now, expiresAt, session);
      }
    case Logout(session) => RevokeKeeps(s, {session});
    case EndSession(_, _, session) => RevokeKeeps(s, {session});
    case EndOtherSessions(user, current) => EndOthersKeeps(s, user, current);
    case ChangePassword(user, was, next, session) =>
      if user in s.users && s.users[user].password == Some(was) {
        WithUserKeeps(s, user, s.users[user].(password := Some(next)));
        EndOthersKeeps(WithUser(s, user, s.users[user].(password := Some(next))), user, session);
      }
    case Touch(session, now) =>
      if session in s.sessions {
        TouchKeeps(s, session, now);
      }
  }

  lemma InviteKeeps(s: State, row: User, user: UserId, raw: string, now: Time)
    requires Inv(s) && user !in s.users && raw !in s.issued && ByEmail(s.users, row.email).None?
    requires row.status == Invited && InRange(row.counters)
    ensures Inv(IssueInvite(s, row, user, raw, now))
  {
    AddUserKeeps(s, user, row);
    IssueKeeps(AddUser(s, user, row), raw, Token(user, Invite, s.tick + 1, now + INVITE_TOKEN_LIFETIME, false));
  }

  lemma ResetPasswordKeeps(s: State, raw: string, password: string, now: Time)
    requires Inv(s) && Consumable(s, raw, Reset, now)
    ensures Inv(RevokeForReset(Consume(s, raw, password), s.tokens[raw].user))
  {
    ConsumeKeeps(s, raw, Reset, password, now);
    ResetKeeps(Consume(s, raw, password), s.tokens[raw].user);
  }

  lemma InviteUserKeeps(s: State, email: string, name: string, role: Role, user: UserId, raw: string, now: Time)
    requires Inv(s) && Enabled(s, InviteUser(email, name, role, user, raw, now))
    ensures Inv(Apply(s, InviteUser(email, name, role, user, raw, now)))
  {
    if ByEmail(s.users, email).None? {
      InviteKeeps(s, User(name, email, role, Invited, None, Counters(0, 0, None, None)), user, raw, now);
    }
  }

  lemma IssueResetKeeps(s: State, user: UserId, raw: string, now: Time)
    requires Inv(s) && user in s.users && raw !in s.issued
    ensures Inv(IssueReset(s, user, raw, now))
  {
    if s.users[user].status == Active {
      IssueKeeps(s, raw, Token(user, Reset, s.tick + 1, now + RESET_TOKEN_LIFETIME, false));
    }
  }

  lemma SendPasswordResetKeeps(s: State, email: string, raw: string, now: Time)
    requires Inv(s) && Enabled(s, SendPasswordReset(email, raw, now))
    ensures Inv(Apply(s, SendPasswordReset(email, raw, now)))
  {
    if ByEmail(s.users, email).Some? {
      IssueResetKeeps(s, ByEmail(s.users, email).value, raw, now);
    }
  }

  lemma AcceptInviteKeeps(s: State, raw: string, password: string, now: Time)
    requires Inv(s)
    ensures Inv(Apply(s, AcceptInvite(raw, password, now)))
  {
    if Consumable(s, raw, Invite, now) {
      ConsumeKeeps(s, raw, Invite, password, now);
    }
  }

  lemma UseResetKeeps(s: State, raw: string, password: string, now: Time)
    requires Inv(s)
    ensures Inv(Apply(s, ResetPassword(raw, password, now)))
  {
    if Consumable(s, raw, Reset, now) {
      ResetPasswordKeeps(s, raw, password, now);
    }
  }

  lemma StepKeeps(s: State, step: Step)
    requires Inv(s) && Enabled(s, step)
    ensures Inv(Apply(s, step))
  {
    match step
    case UpdateUser(actor, target, input) =>
      if UpdateRefusal(s.users, actor, target, input).None? {
        UpdateKeeps(s, actor, target, input);
      }
    case RemoveUser(_, target) => RemoveKeeps(s, target);
    case InviteUser(email, name, role, user, raw, now) => InviteUserKeeps(s, email, name, role, user, raw, now);
    case SendPasswordReset(email, raw, now) => SendPasswordResetKeeps(s, email, raw, now);
    case AcceptInvite(raw, password, now) => AcceptInviteKeeps(s, raw, password, now);
    case ResetPassword(raw, password, now) => UseResetKeeps(s, raw, password, now);
    case _ => SessionStepKeeps(s, step);
  }

  // ---- whole runs -----------------------------------------------------------------------

  ghost predicate Runs(s: State, steps: seq<Step>, s': State)
    decreases |steps|
  {
    if steps == [] then s == s'
    else Enabled(s, steps[0]) && Runs(Apply(s, steps[0]), steps[1..], s')
  }

  lemma {:induction false} RunKeeps(s: State, steps: seq<Step>, s': State)
    requires Inv(s) && Runs(s, steps, s')
    ensures Inv(s')
    decreases |steps|
  {
    if steps != [] {
      StepKeeps(s, steps[0]);
      RunKeeps(Apply(s, steps[0]), steps[1..], s');
    }
  }

  /** The guard's query. */
  predicate Accepts(s: State, id: SessionId, now: Time, idle: int) {
    && id in s.sessions && !s.sessions[id].revoked
    && s.sessions[id].expiresAt > now && s.sessions[id].lastSeenAt > now - idle
    && s.sessions[id].user in s.users && s.users[s.sessions[id].user].status == Active
  }

  /** At a first start there are users, none of whom ever had a token or a session. */
  ghost predicate Initial(s: State) {
    && s.tokens == map[] && s.sessions == map[] && s.tick == 0 && s.issued == {} && s.applied == []
    && EmailsUnique(s.users) && s.marks.Keys == s.users.Keys
    && (forall id | id in s.users :: s.users[id].counters == Counters(0, 0, None, None) && s.marks[id] == NO_MARKS)
  }

  /**
   In every reachable state an accepted session belongs to an active account and was made after
   that account's last disable, its last reset, and the last time its owner ended the others
   (unless it is the one kept then); and testing the account's status excludes no session that
   the other tests of the guard accept.
   */
  lemma AcceptedSessions(s: State, steps: seq<Step>, s': State, id: SessionId, now: Time, idle: int)
    requires Initial(s) && Runs(s, steps, s')
    requires id in s'.sessions && !s'.sessions[id].revoked
    ensures Accepts(s', id, now, idle) <==> s'.sessions[id].expiresAt > now && s'.sessions[id].lastSeenAt > now - idle
    ensures var e := s'.sessions[id];
            && e.user in s'.users && e.user in s'.marks && s'.users[e.user].status == Active
            && s'.marks[e.user].disable < e.createdAt && s'.marks[e.user].reset < e.createdAt
            && (s'.marks[e.user].ended < e.createdAt || s'.marks[e.user].kept == Some(id))
  {
    RunKeeps(s, steps, s');
    assert SessionOk(s', id, s'.sessions[id]);
  }

  /**
   In every reachable state an outstanding token was issued after its user's last use of a token,
   last disable and last change of address, its account still has the status it was issued for,
   and no token has been applied twice.
   */
  lemma OutstandingTokens(s: State, steps: seq<Step>, s': State, raw: string)
    requires Initial(s) && Runs(s, steps, s')
    ensures raw in s'.tokens && !s'.tokens[raw].used ==>
              var t := s'.tokens[raw];
              && t.user in s'.users && t.user in s'.marks && s'.users[t.user].status == StatusFor(t.purpose)
              && s'.marks[t.user].use < t.issuedAt && s'.marks[t.user].disable < t.issuedAt
              && s'.marks[t.user].email < t.issuedAt
              && raw !in s'.applied
    ensures forall i, j | 0 <= i < j < |s'.applied| :: s'.applied[i] != s'.applied[j]
  {
    RunKeeps(s, steps, s');
    if raw in s'.tokens {
      assert TokenOk(s', raw, s'.tokens[raw]);
    }
  }

  // ---- what ends with what --------------------------------------------------------------

  ghost predicate NoLiveSession(s: State, user: UserId) {
    forall i | i in s.sessions && s.sessions[i].user == user :: s.sessions[i].revoked
  }

  ghost predicate NoOutstandingToken(s: State, user: UserId) {
    forall raw | raw in s.tokens && s.tokens[raw].user == user :: s.tokens[raw].used
  }

  /** Completing a reset ends every session and voids every other link of the user, and cannot be repeated. */
  lemma ResetVoids(s: State, raw: string, password: string, now: Time)
    requires Inv(s) && Consumable(s, raw, Reset, now)
    ensures var user, s' := s.tokens[raw].user, Apply(s, Step.ResetPassword(raw, password, now));
            && NoLiveSession(s', user) && NoOutstandingToken(s', user)
            && s'.users[user].password == Some(password) && !IsBruteForceLocked(s'.users[user].counters, now)
            && forall again, later :: Apply(s', Step.ResetPassword(raw, again, later)) == s'
  {
  }

  /** So does being disabled; a change of address voids the links sent to the old one. */
  lemma ChangeVoids(s: State, actor: UserId, target: UserId, input: Input)
    requires Inv(s) && UpdateRefusal(s.users, actor, target, input).None?
    ensures var s' := Apply(s, UpdateUser(actor, target, input));
            && (Disables(s.users[target], input) ==> NoLiveSession(s', target) && NoOutstandingToken(s', target))
            && (ChangesEmail(s.users[target], input) ==> NoOutstandingToken(s', target))
  {
  }

  lemma DisabledHasNothing(s: State, user: UserId)
    requires Inv(s) && user in s.users && s.users[user].status == Disabled
    ensures NoLiveSession(s, user) && NoOutstandingToken(s, user)
  {
    forall i | i in s.sessions ensures SessionOk(s, i, s.sessions[i]) {}
    forall raw | raw in s.tokens ensures TokenOk(s, raw, s.tokens[raw]) {}
  }

  /** An administrator's change is accepted that makes the account active. */
  ghost predicate EnablesUser(s: State, step: Step, user: UserId) {
    && step.UpdateUser? && step.target == user && step.input.status == Some(Active)
    && UpdateRefusal(s.users, step.actor, step.target, step.input).None?
  }

  lemma StaysDisabled(s: State, step: Step, user: UserId)
    requires user in s.users && s.users[user].status == Disabled && Enabled(s, step)
    ensures user in Apply(s, step).users ==>
            (Apply(s, step).users[user].status == Disabled <==> !EnablesUser(s, step, user))
  {
  }

  /**
   A disabled account stays disabled, without a session or a link, exactly until a change that
   enables it is accepted.
   */
  lemma DisabledStaysOut(s: State, step: Step, user: UserId)
    requires Inv(s) && Enabled(s, step) && user in s.users && s.users[user].status == Disabled
    ensures var s' := Apply(s, step);
            && (user in s'.users ==> (s'.users[user].status == Disabled <==> !EnablesUser(s, step, user)))
            && (user in s'.users && !EnablesUser(s, step, user) ==>
                 NoLiveSession(s', user) && NoOutstandingToken(s', user))
  {
    StepKeeps(s, step);
    StaysDisabled(s, step, user);
    if user in Apply(s, step).users && !EnablesUser(s, step, user) {
      DisabledHasNothing(Apply(s, step), user);
    }
  }

  /** No step of the run enables the account, and its id is not given again should it be removed. */
  ghost predicate NeverEnabled(s: State, steps: seq<Step>, user: UserId)
    decreases |steps|
  {
    steps != [] ==>
      && !EnablesUser(s, steps[0], user) && !(steps[0].InviteUser? && steps[0].user == user)
      && NeverEnabled(Apply(s, steps[0]), steps[1..], user)
  }

  /** Over a whole run, renames, new addresses and new roles included. */
  lemma {:induction false} DisabledStaysOutForGood(s: State, steps: seq<Step>, s': State, user: UserId)
    requires Inv(s) && Runs(s, steps, s') && NeverEnabled(s, steps, user)
    requires user in s.users ==> s.users[user].status == Disabled
    ensures user in s'.users ==>
            s'.users[user].status == Disabled && NoLiveSession(s', user) && NoOutstandingToken(s', user)
    decreases |steps|
  {
    if steps == [] {
      if user in s.users {
        DisabledHasNothing(s, user);
      }
    } else {
      StepKeeps(s, steps[0]);
      StillNoUser(s, steps[0], user);
      DisabledStaysOutForGood(Apply(s, steps[0]), steps[1..], s', user);
    }
  }

  lemma StillNoUser(s: State, step: Step, user: UserId)
    requires Enabled(s, step) && !EnablesUser(s, step, user) && !(step.InviteUser? && step.user == user)
    requires user in s.users ==> s.users[user].status == Disabled
    ensures user in Apply(s, step).users ==> Apply(s, step).users[user].status == Disabled
  {
    if user in s.users {
      StaysDisabled(s, step, user);
    }
  }

  // ---- the services ---------------------------------------------------------------------

  const LAST_SEEN_UPDATE_THROTTLE: int := MINUTE

  class StaffAccounts {
    var users: map<UserId, User>
    var tokens: map<string, Token>
    var sessions: map<SessionId, Session>
    /** Orders what `created_at` and the marks stand for. */
    var tick: nat
    ghost var marks: map<UserId, Marks>
    ghost var issued: set<string>
    ghost var applied: seq<string>

    ghost function View(): State
      reads this
    {
      State(users, tokens, sessions, tick, marks, issued, applied)
    }

    method FindByEmail(email: string) returns (found: Option<UserId>)
      requires EmailsUnique(users)
      ensures found == ByEmail(users, email)
    {
      if id :| id in users && users[id].email == email {
        found := Some(id);
      } else {
        found := None;
      }
    }

    method Login(email: string, password: string, now: Time, expiresAt: Time, session: SessionId)
      returns (r: Result<UserId, Refusal>)
      requires EmailsUnique(users) && session !in sessions
      modifies this
      ensures View() == Apply(old(View()), Step.Login(email, password, now, expiresAt, session))
      ensures r.Ok? <==> exists id :: id in old(users) && old(users)[id].email == email &&
                           CanSignIn(old(users)[id], now) && old(users)[id].password == Some(password)
      ensures r.Ok? ==>
              && r.value in users && users[r.value].email == email
              && session in sessions && sessions[session].user == r.value
              && forall t, idle :: Accepts(View(), session, t, idle) <==> t < expiresAt && t - idle < now
      ensures sessions.Keys == old(sessions).Keys + (if r.Ok? then {session} else {})
      ensures forall i | i in old(sessions) :: sessions[i] == old(sessions)[i]
    {
      var found := FindByEmail(email);
      if found.None? || users[found.value].status != Active {
        return Err(Unauthenticated);
      }
      var id := found.value;
      var row := new UserRow.From(users[id].counters);
      var signedIn := row.Login(users[id].password == Some(password), now);
      users := users[id := users[id].(counters := row.View())];
      if !signedIn {
        return Err(Unauthenticated);
      }
      tick := tick + 1;
      sessions := sessions[session := Session(id, tick, expiresAt, now, false)];
      return Ok(id);
    }

    method ResolveStaffSession(session: SessionId, now: Time, idle: int) returns (user: Option<UserId>)
      modifies this`sessions
      ensures user.Some? <==> Accepts(old(View()), session, now, idle)
      ensures user.Some? ==> session in sessions && user == Some(sessions[session].user)
      ensures user.Some? ==> user.value in users && users[user.value].status == Active
      ensures View() == if user.Some? && now - old(sessions)[session].lastSeenAt > LAST_SEEN_UPDATE_THROTTLE
                        then Apply(old(View()), Touch(session, now)) else old(View())
    {
      if session !in sessions || sessions[session].revoked || sessions[session].expiresAt <= now ||
         sessions[session].lastSeenAt <= now - idle || sessions[session].user !in users ||
         users[sessions[session].user].status != Active {
        return None;
      }
      user := Some(sessions[session].user);
      if now - sessions[session].lastSeenAt > LAST_SEEN_UPDATE_THROTTLE {
        sessions := sessions[session := sessions[session].(lastSeenAt := now)];
      }
    }

    method Logout(session: SessionId)
      modifies this`sessions
      ensures View() == Apply(old(View()), Step.Logout(session))
    {
      sessions := Revoke(sessions, {session});
    }

    method EndSession(actor: UserId, actorIsAdmin: bool, session: SessionId) returns (r: Result<(), Refusal>)
      modifies this`sessions
      ensures View() == Apply(old(View()), Step.EndSession(actor, actorIsAdmin, session))
      ensures r == if session !in old(sessions) then Err(NotFound)
                   else if old(sessions)[session].user != actor && !actorIsAdmin then Err(Forbidden) else Ok(())
    {
      if session !in sessions {
        return Err(NotFound);
      }
      if sessions[session].user != actor && !actorIsAdmin {
        return Err(Forbidden);
      }
      sessions := Revoke(sessions, {session});
      return Ok(());
    }

    method EndOtherSessions(user: UserId, current: SessionId) returns (ended: nat)
      modifies this
      ensures View() == Apply(old(View()), Step.EndOtherSessions(user, current))
      ensures ended == |set i | i in old(sessions) && old(sessions)[i].user == user && i != current &&
                                !old(sessions)[i].revoked|
    {
      ended := |set i | i in sessions && sessions[i].user == user && i != current && !sessions[i].revoked|;
      sessions := Revoke(sessions, SessionsOf(sessions, user) - {current});
      tick := tick + 1;
      marks := if user !in users then marks
               else marks[user := MarksOf(marks, user).(ended := tick, kept := Some(current))];
    }

    method ChangePassword(user: UserId, was: string, next: string, session: SessionId) returns (r: Result<(), Refusal>)
      modifies this
      ensures View() == Apply(old(View()), Step.ChangePassword(user, was, next, session))
      ensures r == if user !in old(users) then Err(NotFound)
                   else if old(users)[user].password != Some(was) then Err(Unauthenticated) else Ok(())
    {
      if user !in users {
        return Err(NotFound);
      }
      if users[user].password != Some(was) {
        return Err(Unauthenticated);
      }
      users := users[user := users[user].(password := Some(next))];
      var _ := EndOtherSessions(user, session);
      return Ok(());
    }

    method Invite(email: string, name: string, role: Role, user: UserId, raw: string, now: Time)
      returns (r: Result<UserId, Refusal>)
      requires EmailsUnique(users) && user !in users && raw !in issued
      modifies this
      ensures View() == Apply(old(View()), InviteUser(email, name, role, user, raw, now))
      ensures r == if ByEmail(old(users), email).Some? then Err(EmailTaken) else Ok(user)
    {
      var existing := FindByEmail(email);
      if existing.Some? {
        return Err(EmailTaken);
      }
      users := users[user := User(name, email, role, Invited, None, Counters(0, 0, None, None))];
      marks := marks[user := NO_MARKS];
      tick := tick + 1;
      tokens, issued := tokens[raw := Token(user, Purpose.Invite, tick, now + INVITE_TOKEN_LIFETIME, false)],
        issued + {raw};
      return Ok(user);
    }

    /** The part of `acceptInvite` and `resetPassword` that is the same; the password write comes with it. */
    method ConsumeToken(raw: string, purpose: Purpose, password: string, now: Time) returns (r: Result<UserId, Refusal>)
      modifies this
      ensures r == if Consumable(old(View()), raw, purpose, now) then Ok(old(tokens)[raw].user) else Err(InvalidLink)
      ensures r.Ok? ==>
              && raw in old(tokens) && !old(tokens)[raw].used && raw in tokens && tokens[raw].used
              && old(tokens)[raw].purpose == purpose && now < old(tokens)[raw].expiresAt
      ensures View() == if r.Ok? then Consume(old(View()), raw, password) else old(View())
    {
      if raw !in tokens || tokens[raw].purpose != purpose || tokens[raw].used || tokens[raw].expiresAt <= now {
        return Err(InvalidLink);
      }
      var id := tokens[raw].user;
      if id !in users || users[id].status != StatusFor(purpose) {
        return Err(InvalidLink);
      }
      tokens := tokens[raw := tokens[raw].(used := true)];
      tokens := DropUnused(tokens, id);
      users := users[id :=
        users[id].(password := Some(password), status := Active, counters := Unlocked(users[id].counters))];
      tick := tick + 1;
      marks, applied := marks[id := MarksOf(marks, id).(use := tick)], applied + [raw];
      return Ok(id);
    }

    method AcceptInvite(raw: string, password: string, now: Time) returns (r: Result<UserId, Refusal>)
      modifies this
      ensures View() == Apply(old(View()), Step.AcceptInvite(raw, password, now))
      ensures r.Ok? <==> Consumable(old(View()), raw, Purpose.Invite, now)
    {
      r := ConsumeToken(raw, Purpose.Invite, password, now);
    }

    method SendPasswordReset(email: string, raw: string, now: Time) returns (sent: bool)
      requires EmailsUnique(users) && raw !in issued
      modifies this
      ensures View() == Apply(old(View()), Step.SendPasswordReset(email, raw, now))
      ensures sent <==>
              exists id :: id in old(users) && old(users)[id].email == email && old(users)[id].status == Active
    {
      var found := FindByEmail(email);
      if found.None? || users[found.value].status != Active {
        return false;
      }
      tick := tick + 1;
      tokens, issued := tokens[raw := Token(found.value, Reset, tick, now + RESET_TOKEN_LIFETIME, false)],
        issued + {raw};
      return true;
    }

    method ResetPassword(raw: string, password: string, now: Time) returns (r: Result<UserId, Refusal>)
      modifies this
      ensures View() == Apply(old(View()), Step.ResetPassword(raw, password, now))
      ensures r.Ok? <==> Consumable(old(View()), raw, Reset, now)
    {
      r := ConsumeToken(raw, Reset, password, now);
      if r.Ok? {
        sessions := Revoke(sessions, SessionsOf(sessions, r.value));
        marks := marks[r.value := MarksOf(marks, r.value).(reset := tick)];
      }
    }

    method Update(actor: UserId, target: UserId, input: Input) returns (r: Result<User, Refusal>)
      modifies this
      ensures View() == Apply(old(View()), UpdateUser(actor, target, input))
      ensures var refusal := UpdateRefusal(old(users), actor, target, input);
              r == if refusal.Some? then Err(refusal.value)
                   else Ok(Changed(old(users)[target], input))
    {
      if target !in users {
        return Err(NotFound);
      }
      var disabling, emailChanged;
      r, disabling, emailChanged := ChangeTarget(actor, target, input);
      if r.Ok? {
        SaveTarget(target, r.value, disabling, emailChanged);
      }
    }

    /** The checks and the assignments to the loaded row, in order. */
    method ChangeTarget(actor: UserId, target: UserId, input: Input)
      returns (r: Result<User, Refusal>, disabling: bool, emailChanged: bool)
      requires target in users
      ensures var refusal := UpdateRefusal(users, actor, target, input);
              r == if refusal.Some? then Err(refusal.value)
                   else Ok(Changed(users[target], input))
      ensures r.Ok? ==>
              disabling == Disables(users[target], input) && emailChanged == ChangesEmail(users[target], input)
    {
      var row := users[target];
      disabling, emailChanged := false, false;
      var wouldRemoveAdminCover := row.role == Admin && row.status == Active;
      var others := UsableAdminsBesides(users, target);
      if input.role.Some? && input.role.value != row.role {
        if target == actor {
          return Err(Forbidden), disabling, emailChanged;
        }
        if wouldRemoveAdminCover && others == 0 {
          return Err(LastAdmin), disabling, emailChanged;
        }
        row := row.(role := input.role.value);
      }
      if input.name.Some? {
        row := row.(name := input.name.value);
      }
      emailChanged := input.email.Some? && input.email.value != row.email;
      if input.email.Some? {
        row := row.(email := input.email.value);
      }
      disabling := input.status == Some(Disabled) && row.status != Disabled;
      if disabling && wouldRemoveAdminCover && others == 0 {
        return Err(LastAdmin), disabling, emailChanged;
      }
      if input.status.Some? {
        if input.status == Some(Active) && row.status == Invited {
          return Err(StillInvited), disabling, emailChanged;
        }
        row := row.(status := input.status.value);
      }
      if input.unlock {
        row := row.(counters := Unlocked(row.counters));
      }
      if input.email.Some? && !EmailFree(users, row.email, target) {
        return Err(EmailTaken), disabling, emailChanged;
      }
      return Ok(row), disabling, emailChanged;
    }

    /** The writes of an accepted change: the row, then what a disable or a new address voids. */
    method SaveTarget(target: UserId, row: User, disabling: bool, emailChanged: bool)
      requires target in users
      modifies this
      ensures View() == Saved(old(View()), target, row, disabling, emailChanged)
    {
      users := users[target := row];
      tick := tick + 1;
      if disabling {
        sessions := Revoke(sessions, SessionsOf(sessions, target));
      }
      if disabling || emailChanged {
        tokens := DropUnused(tokens, target);
      }
      ghost var m := MarksOf(marks, target);
      marks := marks[target := m.(disable := if disabling then tick else m.disable,
                                  email := if emailChanged then tick else m.email)];
    }

    method RemoveUser(actor: UserId, target: UserId) returns (r: Result<User, Refusal>)
      modifies this
      ensures View() == Apply(old(View()), Step.RemoveUser(actor, target))
      ensures var refusal := RemoveRefusal(old(users), actor, target);
              r == if refusal.Some? then Err(refusal.value)
                   else Ok(old(users)[target])
    {
      if target !in users {
        return Err(NotFound);
      }
      if target == actor {
        return Err(Forbidden);
      }
      if users[target].role == Admin && users[target].status == Active && UsableAdminsBesides(users, target) == 0 {
        return Err(LastAdmin);
      }
      r := Ok(users[target]);
      users := users - {target};
      tokens := map t | t in tokens && tokens[t].user != target :: tokens[t];
      sessions := map i | i in sessions && sessions[i].user != target :: sessions[i];
      tick, marks := tick + 1, marks - {target};
    }
  }
}
