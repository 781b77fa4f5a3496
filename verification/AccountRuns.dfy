/**
 What each step of Accounts ends, opens and changes, exactly, and how long a session and a link
 last over a run.
 */
module AccountRuns {
  import opened Clock
  import opened Wrappers
  import opened Lockout
  import opened Users
  import opened Accounts

  // ---- exactly what a step ends ---------------------------------------------------------

  ghost predicate Live(s: State, id: SessionId) {
    id in s.sessions && !s.sessions[id].revoked
  }

  ghost predicate Outstanding(s: State, raw: string) {
    raw in s.tokens && !s.tokens[raw].used
  }

  /** The step uses a link of the user. */
  ghost predicate UsesLink(s: State, step: Step, user: UserId) {
    || (step.AcceptInvite? && Consumable(s, step.raw, Invite, step.now) && s.tokens[step.raw].user == user)
    || (step.ResetPassword? && Consumable(s, step.raw, Reset, step.now) && s.tokens[step.raw].user == user)
  }

  /** The step is a change of the user that is accepted. */
  ghost predicate Changes(s: State, step: Step, user: UserId) {
    step.UpdateUser? && step.target == user && UpdateRefusal(s.users, step.actor, user, step.input).None?
  }

  ghost predicate RightPassword(s: State, step: Step, user: UserId) {
    step.ChangePassword? && step.user == user && user in s.users && s.users[user].password == Some(step.was)
  }

  ghost predicate Removes(s: State, step: Step, user: UserId) {
    step.RemoveUser? && step.target == user && RemoveRefusal(s.users, step.actor, user).None?
  }

  /** What ends session `id` of `user`. */
  ghost predicate Ends(s: State, step: Step, id: SessionId, user: UserId) {
    || (step.Logout? && step.session == id)
    || (step.EndSession? && step.session == id && (step.actor == user || step.actorIsAdmin))
    || (step.EndOtherSessions? && step.user == user && step.current != id)
    || (RightPassword(s, step, user) && step.session != id)
    || (step.ResetPassword? && UsesLink(s, step, user))
    || (Changes(s, step, user) && step.input.status == Some(Disabled) && s.users[user].status != Disabled)
    || Removes(s, step, user)
  }

  /** What voids a link of `user`. */
  ghost predicate Voids(s: State, step: Step, user: UserId) {
    || UsesLink(s, step, user)
    || (Changes(s, step, user) && step.input.status == Some(Disabled) && s.users[user].status != Disabled)
    || (Changes(s, step, user) && step.input.email.Some? && step.input.email.value != s.users[user].email)
    || Removes(s, step, user)
  }

  ghost predicate SessionFollows(s: State, step: Step, id: SessionId)
    requires id in s.sessions
  {
    var s', e := Apply(s, step), s.sessions[id];
    && (Live(s', id) <==> !Ends(s, step, id, e.user))
    && (Live(s', id) ==>
         s'.sessions[id] == if step.Touch? && step.session == id then e.(lastSeenAt := step.now) else e)
  }

  lemma SessionFollowsLogin(s: State, step: Step, id: SessionId)
    requires Enabled(s, step) && Live(s, id)
    requires step.Login? || step.InviteUser? || step.SendPasswordReset? || step.AcceptInvite?
    ensures SessionFollows(s, step, id)
  {
  }

  lemma SessionFollowsOwner(s: State, step: Step, id: SessionId)
    requires Live(s, id)
    requires step.Logout? || step.EndSession? || step.EndOtherSessions? || step.ChangePassword? || step.Touch?
    ensures SessionFollows(s, step, id)
  {
  }

  lemma SessionFollowsAdmin(s: State, step: Step, id: SessionId)
    requires Live(s, id) && (step.ResetPassword? || step.UpdateUser? || step.RemoveUser?)
    ensures SessionFollows(s, step, id)
  {
  }

  /** A live session goes on, used or not, exactly until a step that ends it. */
  lemma SessionEndsExactly(s: State, step: Step, id: SessionId)
    requires Enabled(s, step) && Live(s, id)
    ensures var s', e := Apply(s, step), s.sessions[id];
            && (Live(s', id) <==> !Ends(s, step, id, e.user))
            && (Live(s', id) ==>
                 s'.sessions[id] == if step.Touch? && step.session == id then e.(lastSeenAt := step.now) else e)
  {
    assert SessionFollows(s, step, id) by {
      if step.Login? || step.InviteUser? || step.SendPasswordReset? || step.AcceptInvite? {
        SessionFollowsLogin(s, step, id);
      } else if step.ResetPassword? || step.UpdateUser? || step.RemoveUser? {
        SessionFollowsAdmin(s, step, id);
      } else {
        SessionFollowsOwner(s, step, id);
      }
    }
  }

  ghost predicate LinkFollows(s: State, step: Step, raw: string)
    requires raw in s.tokens
  {
    var s', t := Apply(s, step), s.tokens[raw];
    && (Outstanding(s', raw) <==> !Voids(s, step, t.user))
    && (Outstanding(s', raw) ==> s'.tokens[raw] == t)
  }

  lemma LinkFollowsUse(s: State, step: Step, raw: string)
    requires Outstanding(s, raw) && (step.AcceptInvite? || step.ResetPassword?)
    ensures LinkFollows(s, step, raw)
  {
  }

  lemma LinkFollowsAdmin(s: State, step: Step, raw: string)
    requires Outstanding(s, raw) && (step.UpdateUser? || step.RemoveUser?)
    ensures LinkFollows(s, step, raw)
  {
  }

  lemma LinkFollowsOther(s: State, step: Step, raw: string)
    requires Enabled(s, step) && Outstanding(s, raw) && raw in s.issued
    requires !step.AcceptInvite? && !step.ResetPassword? && !step.UpdateUser? && !step.RemoveUser?
    ensures LinkFollows(s, step, raw)
  {
  }

  /** An outstanding link stays as it is exactly until a step that voids it. */
  lemma LinkEndsExactly(s: State, step: Step, raw: string)
    requires Inv(s) && Enabled(s, step) && Outstanding(s, raw)
    ensures var s', t := Apply(s, step), s.tokens[raw];
            && (Outstanding(s', raw) <==> !Voids(s, step, t.user))
            && (Outstanding(s', raw) ==> s'.tokens[raw] == t)
  {
    assert TokenOk(s, raw, s.tokens[raw]);
    assert LinkFollows(s, step, raw) by {
      if step.AcceptInvite? || step.ResetPassword? {
        LinkFollowsUse(s, step, raw);
      } else if step.UpdateUser? || step.RemoveUser? {
        LinkFollowsAdmin(s, step, raw);
      } else {
        LinkFollowsOther(s, step, raw);
      }
    }
  }

  /**
   Rows go only with their user: what has ended stays on record, and stays ended. A link that was
   used is recorded as used.
   */
  lemma EndedForGood(s: State, step: Step, id: SessionId)
    requires Enabled(s, step) && id in s.sessions
    ensures id in Apply(s, step).sessions <==> !Removes(s, step, s.sessions[id].user)
    ensures id in Apply(s, step).sessions && s.sessions[id].revoked ==> Apply(s, step).sessions[id].revoked
  {
  }

  lemma UsedForGood(s: State, step: Step, raw: string)
    requires Enabled(s, step) && raw in s.tokens && raw in s.issued
    requires s.tokens[raw].used ||
             (UsesLink(s, step, s.tokens[raw].user) && (step.AcceptInvite? || step.ResetPassword?) && step.raw == raw)
    ensures raw in Apply(s, step).tokens <==> !Removes(s, step, s.tokens[raw].user)
    ensures raw in Apply(s, step).tokens ==> Apply(s, step).tokens[raw] == s.tokens[raw].(used := true)
  {
  }

  /** No step of the run ends the session. */
  ghost predicate NeverEnded(s: State, steps: seq<Step>, id: SessionId, user: UserId)
    decreases |steps|
  {
    steps != [] ==> !Ends(s, steps[0], id, user) && NeverEnded(Apply(s, steps[0]), steps[1..], id, user)
  }

  function LastSeen(steps: seq<Step>, id: SessionId, was: Time): Time
    decreases |steps|
  {
    if steps == [] then was
    else LastSeen(steps[1..], id, if steps[0].Touch? && steps[0].session == id then steps[0].now else was)
  }

  /** Over any run that does not end it, a session is accepted exactly until it expires or is idle for too long. */
  lemma {:induction false} AcceptedUntilEnded(s: State, steps: seq<Step>, s': State, id: SessionId, now: Time,
      idle: int)
    requires Inv(s) && Runs(s, steps, s') && Live(s, id) && NeverEnded(s, steps, id, s.sessions[id].user)
    ensures Live(s', id) && s'.sessions[id].user == s.sessions[id].user
    ensures Accepts(s', id, now, idle) <==>
            now < s.sessions[id].expiresAt && now - idle < LastSeen(steps, id, s.sessions[id].lastSeenAt)
    decreases |steps|
  {
    if steps == [] {
      assert SessionOk(s, id, s.sessions[id]);
    } else {
      StepKeeps(s, steps[0]);
      SessionEndsExactly(s, steps[0], id);
      AcceptedUntilEnded(Apply(s, steps[0]), steps[1..], s', id, now, idle);
    }
  }

  // ---- exactly what a step opens and changes --------------------------------------------

  /** The user that signs in by the step. */
  ghost predicate SignsIn(s: State, step: Step, id: UserId) {
    && step.Login? && id in s.users && s.users[id].email == step.email && CanSignIn(s.users[id], step.now)
    && s.users[id].password == Some(step.password)
  }

  /** A sign-in opens one session, which the guard accepts from then on; the others are as they were. */
  lemma SignInOpens(s: State, step: Step, id: UserId, t: Time, idle: int)
    requires EmailsUnique(s.users) && Enabled(s, step) && SignsIn(s, step, id)
    ensures var s' := Apply(s, step);
            && s'.sessions.Keys == s.sessions.Keys + {step.session} && s'.sessions[step.session].user == id
            && (forall i | i in s.sessions :: s'.sessions[i] == s.sessions[i])
            && (Accepts(s', step.session, t, idle) <==> t < step.expiresAt && t - idle < step.now)
  {
  }

  /** An invitation can be accepted for 48 hours, by an account that is otherwise of no use yet. */
  lemma InvitationLasts(s: State, step: Step, t: Time)
    requires Enabled(s, step) && step.InviteUser?
    requires forall id | id in s.users :: s.users[id].email != step.email
    ensures var s' := Apply(s, step);
            && step.user in s'.users && s'.users[step.user].status == Invited && s'.users[step.user].password.None?
            && s'.users[step.user].email == step.email && s'.users[step.user].role == step.role
            && s'.users[step.user].name == step.name && s'.users[step.user].counters == NO_FAILURES
            && (forall id | id in s.users :: id in s'.users && s'.users[id] == s.users[id])
            && (Consumable(s', step.raw, Invite, t) <==> t < step.now + 48 * 60 * MINUTE)
            && s'.tokens[step.raw].user == step.user
  {
  }

  /** A reset link works for an hour. */
  lemma ResetLinkLasts(s: State, step: Step, id: UserId, t: Time)
    requires EmailsUnique(s.users) && Enabled(s, step) && step.SendPasswordReset?
    requires id in s.users && s.users[id].email == step.email && s.users[id].status == Active
    ensures var s' := Apply(s, step);
            && (Consumable(s', step.raw, Reset, t) <==> t < step.now + 60 * MINUTE)
            && s'.tokens[step.raw].user == id && s'.users == s.users && s'.sessions == s.sessions
  {
  }

  /** A password changes only by its owner, who knows it or has a link; a status by a link or an administrator. */
  lemma CredentialsChange(s: State, step: Step, id: UserId)
    requires Enabled(s, step) && id in s.users && id in Apply(s, step).users
    ensures var u, u' := s.users[id], Apply(s, step).users[id];
            && u'.password == (if RightPassword(s, step, id) then Some(step.next)
                               else if UsesLink(s, step, id) then Some(step.password) else u.password)
            && u'.status == (if UsesLink(s, step, id) then Active
                             else if Changes(s, step, id) && step.input.status.Some? then step.input.status.value
                             else u.status)
  {
  }

  /** Name, address and role change only as an accepted change by an administrator says. */
  lemma ProfileChanges(s: State, step: Step, id: UserId)
    requires Enabled(s, step) && id in s.users && id in Apply(s, step).users
    ensures var u, u' := s.users[id], Apply(s, step).users[id];
            && u'.name == (if Changes(s, step, id) && step.input.name.Some? then step.input.name.value else u.name)
            && u'.email == (if Changes(s, step, id) && step.input.email.Some? then step.input.email.value else u.email)
            && u'.role == (if Changes(s, step, id) && step.input.role.Some? then step.input.role.value else u.role)
  {
  }

  lemma LoginCounts(s: State, step: Step, id: UserId)
    requires EmailsUnique(s.users) && step.Login? && id in s.users
    ensures id in Apply(s, step).users
    ensures var u, u' := s.users[id], Apply(s, step).users[id];
            u'.counters == if u.email == step.email && u.status == Active
                           then Next(u.counters, Attempt(step.now, u.password == Some(step.password)))
                           else u.counters
  {
  }

  /** The lock counters see each attempt on an active account, and each link used and each unlock, and nothing else. */
  lemma LockChanges(s: State, step: Step, id: UserId)
    requires EmailsUnique(s.users) && Enabled(s, step) && id in s.users && id in Apply(s, step).users
    ensures var u, u' := s.users[id], Apply(s, step).users[id];
            u'.counters ==
              if step.Login? && u.email == step.email && u.status == Active
              then Next(u.counters, Attempt(step.now, u.password == Some(step.password)))
              else if UsesLink(s, step, id) || (Changes(s, step, id) && step.input.unlock)
              then Next(u.counters, Lockout.Unlock)
              else u.counters
  {
    if step.Login? {
      LoginCounts(s, step, id);
    }
  }

  // ---- what the marks record ------------------------------------------------------------

  /** The step ends the sessions of the user but `kept`. */
  ghost predicate EndsOthers(s: State, step: Step, user: UserId, kept: SessionId) {
    || (step.EndOtherSessions? && step.user == user && step.current == kept)
    || (RightPassword(s, step, user) && step.session == kept)
  }

  /** Exactly the events the marks are named for set them, to a tick later than everything before. */
  ghost predicate Records(s: State, step: Step, user: UserId)
    requires user in s.users && user in s.marks
  {
    var s', m := Apply(s, step), s.marks[user];
    user in s'.marks &&
      var m' := s'.marks[user];
      && m'.use == (if UsesLink(s, step, user) then s'.tick else m.use)
      && m'.reset == (if step.ResetPassword? && UsesLink(s, step, user) then s'.tick else m.reset)
      && m'.disable == (if Changes(s, step, user) && Disables(s.users[user], step.input) then s'.tick else m.disable)
      && m'.email == (if Changes(s, step, user) && ChangesEmail(s.users[user], step.input) then s'.tick else m.email)
      && (forall k: SessionId | EndsOthers(s, step, user, k) :: m'.ended == s'.tick && m'.kept == Some(k))
      && ((forall k: SessionId :: !EndsOthers(s, step, user, k)) ==> m'.ended == m.ended && m'.kept == m.kept)
      && (m' != m ==> s'.tick > s.tick)
  }

  lemma RecordsLink(s: State, step: Step, user: UserId)
    requires user in s.users && user in s.marks && (step.AcceptInvite? || step.ResetPassword?)
    ensures Records(s, step, user)
  {
  }

  lemma RecordsOwner(s: State, step: Step, user: UserId)
    requires user in s.users && user in s.marks && (step.EndOtherSessions? || step.ChangePassword?)
    ensures Records(s, step, user)
  {
    assert step.EndOtherSessions? && step.user == user ==> EndsOthers(s, step, user, step.current);
    assert RightPassword(s, step, user) ==> EndsOthers(s, step, user, step.session);
  }

  lemma RecordsAdmin(s: State, step: Step, user: UserId)
    requires user in s.users && user in s.marks && user in Apply(s, step).users
    requires step.UpdateUser? || step.RemoveUser?
    ensures Records(s, step, user)
  {
  }

  lemma RecordsNothing(s: State, step: Step, user: UserId)
    requires Enabled(s, step) && user in s.users && user in s.marks
    requires step.Login? || step.Logout? || step.EndSession? || step.InviteUser? || step.SendPasswordReset? ||
             step.Touch?
    ensures Records(s, step, user)
  {
  }

  lemma MarksRecord(s: State, step: Step, user: UserId)
    requires Enabled(s, step) && user in s.users && user in s.marks && user in Apply(s, step).users
    ensures Records(s, step, user)
  {
    match step
    case AcceptInvite(_, _, _) => RecordsLink(s, step, user);
    case ResetPassword(_, _, _) => RecordsLink(s, step, user);
    case EndOtherSessions(_, _) => RecordsOwner(s, step, user);
    case ChangePassword(_, _, _, _) => RecordsOwner(s, step, user);
    case UpdateUser(_, _, _) => RecordsAdmin(s, step, user);
    case RemoveUser(_, _) => RecordsAdmin(s, step, user);
    case _ => RecordsNothing(s, step, user);
  }

  /** A token is recorded as applied when its account write is made, and as issued when it is drawn. */
  lemma AppliedRecords(s: State, step: Step)
    ensures forall user | UsesLink(s, step, user) ::
              (step.AcceptInvite? || step.ResetPassword?) && Apply(s, step).applied == s.applied + [step.raw]
    ensures (forall user :: !UsesLink(s, step, user)) ==> Apply(s, step).applied == s.applied
  {
    if step.AcceptInvite? && Consumable(s, step.raw, Invite, step.now) {
      assert UsesLink(s, step, s.tokens[step.raw].user);
    }
    if step.ResetPassword? && Consumable(s, step.raw, Reset, step.now) {
      assert UsesLink(s, step, s.tokens[step.raw].user);
    }
  }

  lemma IssuedRecords(s: State, step: Step, raw: string)
    requires Enabled(s, step) && (raw in s.tokens ==> raw in s.issued)
    ensures raw in Apply(s, step).issued <==> raw in s.issued || raw in Apply(s, step).tokens
  {
  }
}
