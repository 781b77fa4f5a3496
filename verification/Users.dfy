/** Staff accounts: what an administrator may change, and the rule that one usable admin remains. */
module Users {
  import opened Wrappers
  import opened Lockout

  type UserId = nat

  datatype Role = Admin | Editor | Support

  datatype Status = Active | Disabled | Invited

  /** An administrator activates or disables; only accepting an invitation leaves `Invited` for `Active`. */
  type Settable = s: Status | s != Invited witness Active

  /** `password` is what the stored hash verifies; an invited user has none. */
  datatype User = User(name: string, email: string, role: Role, status: Status, password: Option<string>,
      counters: Counters)

  datatype Input = Input(name: Option<string>, email: Option<string>, role: Option<Role>, status: Option<Settable>,
      unlock: bool)

  datatype Refusal = NotFound | Forbidden | LastAdmin | StillInvited | EmailTaken | Unauthenticated | InvalidLink

  predicate IsActiveAdmin(users: map<UserId, User>, id: UserId) {
    id in users && users[id].role == Admin && users[id].status == Active
  }

  ghost predicate Covered(users: map<UserId, User>) {
    exists id :: IsActiveAdmin(users, id)
  }

  function UsableAdminsBesides(users: map<UserId, User>, except: UserId): nat {
    |set id | id in users && IsActiveAdmin(users, id) && id != except|
  }

  predicate EmailFree(users: map<UserId, User>, email: string, except: UserId) {
    forall id | id in users && id != except :: users[id].email != email
  }

  ghost predicate EmailsUnique(users: map<UserId, User>) {
    forall i, j | i in users && j in users && users[i].email == users[j].email :: i == j
  }

  /** The row after the change, lock counters included. */
  function Changed(u: User, input: Input): User {
    User(Or(input.name, u.name), Or(input.email, u.email), Or(input.role, u.role), Or(input.status, u.status),
      u.password,
         if input.unlock then Unlocked(u.counters) else u.counters)
  }

  predicate Disables(u: User, input: Input) {
    input.status == Some(Disabled) && u.status != Disabled
  }

  predicate ChangesEmail(u: User, input: Input) {
    input.email.Some? && input.email.value != u.email
  }

  /** The checks in their order; the last one is the unique index on the address. */
  function UpdateRefusal(users: map<UserId, User>, actor: UserId, target: UserId, input: Input): Option<Refusal> {
    if target !in users then Some(NotFound)
    else
      var u := users[target];
      var last := IsActiveAdmin(users, target) && UsableAdminsBesides(users, target) == 0;
      var newRole := input.role.Some? && input.role.value != u.role;
      if newRole && target == actor then Some(Forbidden)
      else if newRole && last then Some(LastAdmin)
      else if Disables(u, input) && last then Some(LastAdmin)
      else if input.status == Some(Active) && u.status == Invited then Some(StillInvited)
      else if input.email.Some? && !EmailFree(users, input.email.value, target) then Some(EmailTaken)
      else None
  }

  function RemoveRefusal(users: map<UserId, User>, actor: UserId, target: UserId): Option<Refusal> {
    if target !in users then Some(NotFound)
    else if target == actor then Some(Forbidden)
    else if IsActiveAdmin(users, target) && UsableAdminsBesides(users, target) == 0 then Some(LastAdmin)
    else None
  }

  lemma OthersLeft(users: map<UserId, User>, except: UserId)
    ensures UsableAdminsBesides(users, except) == 0 <==> forall id :: IsActiveAdmin(users, id) ==> id == except
  {
    var others := set id | id in users && IsActiveAdmin(users, id) && id != except;
    if UsableAdminsBesides(users, except) == 0 {
      assert others == {};
      forall id | IsActiveAdmin(users, id) ensures id == except {
        assert id !in others;
      }
    }
    if forall id :: IsActiveAdmin(users, id) ==> id == except {
      assert others == {};
    }
  }

  predicate ChangesOwnRole(users: map<UserId, User>, actor: UserId, target: UserId, input: Input)
    requires target in users
  {
    actor == target && input.role.Some? && input.role.value != users[target].role
  }

  /**
   A change is refused as leaving no admin exactly when it would, whatever else it changes, unless
   it is refused as a change of the actor's own role.
   */
  lemma LastAdminIsExact(users: map<UserId, User>, actor: UserId, target: UserId, input: Input)
    requires Covered(users) && target in users
    ensures UpdateRefusal(users, actor, target, input) == Some(LastAdmin) <==>
            !Covered(users[target := Changed(users[target], input)]) && !ChangesOwnRole(users, actor, target, input)
    ensures RemoveRefusal(users, actor, target) == Some(LastAdmin) <==> !Covered(users - {target}) && target != actor
  {
    var after := users[target := Changed(users[target], input)];
    OthersLeft(users, target);
    if UsableAdminsBesides(users, target) != 0 {
      var w :| IsActiveAdmin(users, w) && w != target;
      assert IsActiveAdmin(after, w) && IsActiveAdmin(users - {target}, w);
    } else {
      assert IsActiveAdmin(users, target);
      forall id | id != target ensures !IsActiveAdmin(after, id) && !IsActiveAdmin(users - {target}, id) {
        assert IsActiveAdmin(after, id) ==> IsActiveAdmin(users, id);
        assert IsActiveAdmin(users - {target}, id) ==> IsActiveAdmin(users, id);
      }
      assert Covered(after) <==> IsActiveAdmin(after, target);
    }
  }

  /**
   A change is accepted exactly if the account exists, it is no change of the actor's own role, it
   does not activate an invited account, and it leaves an active administrator and unique addresses.
   */
  lemma AcceptedExactly(users: map<UserId, User>, actor: UserId, target: UserId, input: Input)
    requires Covered(users) && EmailsUnique(users)
    ensures UpdateRefusal(users, actor, target, input).None? <==>
            && target in users && !ChangesOwnRole(users, actor, target, input)
            && !(users[target].status == Invited && input.status == Some(Active))
            && Covered(users[target := Changed(users[target], input)])
            && EmailsUnique(users[target := Changed(users[target], input)])
    ensures RemoveRefusal(users, actor, target).None? <==>
            target in users && target != actor && Covered(users - {target})
  {
    if target in users {
      LastAdminIsExact(users, actor, target, input);
      TakenExactly(users, target, Changed(users[target], input));
    }
  }

  lemma TakenExactly(users: map<UserId, User>, target: UserId, row: User)
    requires EmailsUnique(users)
    ensures EmailsUnique(users[target := row]) <==> EmailFree(users, row.email, target)
  {
    var after := users[target := row];
    if EmailsUnique(after) {
      forall i | i in users && i != target ensures users[i].email != row.email {
        assert i in after && after[i] == users[i] && target in after && after[target] == row;
      }
    }
  }
}
