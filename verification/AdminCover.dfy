/**
 Concurrent changes to administrators. `update` and `remove` are transactions that lock the rows
 of all administrators and of their target in one statement, check, and commit later; invitations
 are inserted and accepted in between. Committed rows are what every transaction reads.
 */
module AdminCover {
  import opened Wrappers
  import opened Users

  type TxId = nat

  datatype Work = Change(input: Input) | Removal

  /** `checked` is the row to write (none for a removal) once the checks have passed. */
  datatype Tx = Tx(actor: UserId, target: UserId, work: Work, locked: set<UserId>, checked: Option<Option<User>>)

  datatype Db = Db(users: map<UserId, User>, txs: map<TxId, Tx>)

  datatype Step =
    | Lock(tx: TxId, actor: UserId, target: UserId, work: Work)
    | Check(tx: TxId)
    | Commit(tx: TxId)
    | Rollback(tx: TxId)
    | Invite(user: UserId, row: User)
    | Accept(user: UserId, password: string)
    | OtherWrite(user: UserId, row: User)

  function LockSet(users: map<UserId, User>, target: UserId): set<UserId> {
    set id | id in users && (users[id].role == Admin || id == target)
  }

  predicate Free(db: Db, rows: set<UserId>) {
    forall t | t in db.txs :: db.txs[t].locked !! rows
  }

  /** A locking statement waits until none of its rows is locked, and so does every write of an existing row. */
  predicate Enabled(db: Db, step: Step) {
    match step
    case Lock(tx, _, target, _) => tx !in db.txs && Free(db, LockSet(db.users, target))
    case Check(tx) => tx in db.txs && db.txs[tx].checked.None?
    case Commit(tx) => tx in db.txs && db.txs[tx].checked.Some?
    case Rollback(tx) => tx in db.txs
    case Invite(user, row) => user !in db.users && row.status == Invited
    case Accept(user, _) => user in db.users && db.users[user].status == Invited && Free(db, {user})
    case OtherWrite(user, row) =>
      user in db.users && row.role == db.users[user].role && row.status == db.users[user].status && Free(db, {user})
  }

  function RefusalOf(users: map<UserId, User>, tx: Tx): Option<Refusal> {
    match tx.work
    case Change(input) => UpdateRefusal(users, tx.actor, tx.target, input)
    case Removal => RemoveRefusal(users, tx.actor, tx.target)
  }

  function RowOf(users: map<UserId, User>, tx: Tx): Option<User>
    requires RefusalOf(users, tx).None?
  {
    match tx.work
    case Change(input) => Some(Changed(users[tx.target], input))
    case Removal => None
  }

  function Write(users: map<UserId, User>, target: UserId, row: Option<User>): map<UserId, User> {
    if row.Some? then users[target := row.value] else users - {target}
  }

  function Apply(db: Db, step: Step): Db
    requires Enabled(db, step)
  {
    match step
    case Lock(tx, actor, target, work) =>
      db.(txs := db.txs[tx := Tx(actor, target, work, LockSet(db.users, target), None)])
    case Check(tx) =>
      var t := db.txs[tx];
      if RefusalOf(db.users, t).Some? then db.(txs := db.txs - {tx})
      else db.(txs := db.txs[tx := t.(checked := Some(RowOf(db.users, t)))])
    case Commit(tx) => Db(Write(db.users, db.txs[tx].target, db.txs[tx].checked.value), db.txs - {tx})
    case Rollback(tx) => db.(txs := db.txs - {tx})
    case Invite(user, row) => db.(users := db.users[user := row])
    case Accept(user, password) =>
      db.(users := db.users[user := db.users[user].(status := Active, password := Some(password))])
    case OtherWrite(user, row) => db.(users := db.users[user := row])
  }

  // ---- the invariant --------------------------------------------------------------------

  ghost predicate HoldsAnAdmin(users: map<UserId, User>, tx: Tx) {
    exists id :: id in tx.locked && IsActiveAdmin(users, id)
  }

  /** What a checked transaction is about to write leaves an active administrator. */
  ghost predicate SafeToCommit(users: map<UserId, User>, tx: Tx) {
    tx.checked.Some? ==> Covered(Write(users, tx.target, tx.checked.value))
  }

  /**
   There is an active administrator, and the transaction under way, of which there is at most
   one, has locked such a row; so every other transaction waits for it.
   */
  ghost predicate Inv(db: Db) {
    && Covered(db.users)
    && (forall t, u | t in db.txs && u in db.txs :: t == u)
    && (forall t | t in db.txs :: HoldsAnAdmin(db.users, db.txs[t]) && SafeToCommit(db.users, db.txs[t]))
  }

  /** Rows that gain or keep their administrators keep the cover, also after any pending write. */
  lemma MoreAdmins(users: map<UserId, User>, after: map<UserId, User>, tx: Tx)
    requires forall id | IsActiveAdmin(users, id) :: IsActiveAdmin(after, id)
    ensures Covered(users) ==> Covered(after)
    ensures HoldsAnAdmin(users, tx) ==> HoldsAnAdmin(after, tx)
    ensures SafeToCommit(users, tx) ==> SafeToCommit(after, tx)
  {
    if Covered(users) {
      var w :| IsActiveAdmin(users, w);
      assert IsActiveAdmin(after, w);
    }
    if HoldsAnAdmin(users, tx) {
      var w :| w in tx.locked && IsActiveAdmin(users, w);
      assert IsActiveAdmin(after, w);
    }
    if tx.checked.Some? && Covered(Write(users, tx.target, tx.checked.value)) {
      var w :| IsActiveAdmin(Write(users, tx.target, tx.checked.value), w);
      assert w != tx.target ==> IsActiveAdmin(users, w);
      assert IsActiveAdmin(Write(after, tx.target, tx.checked.value), w);
    }
  }

  lemma OthersKeep(db: Db, after: map<UserId, User>)
    requires Inv(db) && forall id | IsActiveAdmin(db.users, id) :: IsActiveAdmin(after, id)
    ensures Inv(db.(users := after))
  {
    MoreAdmins(db.users, after, Tx(0, 0, Removal, {}, None));
    forall t | t in db.txs ensures HoldsAnAdmin(after, db.txs[t]) && SafeToCommit(after, db.txs[t]) {
      MoreAdmins(db.users, after, db.txs[t]);
    }
  }

  /** While a transaction is under way no other gets its locks. */
  lemma OneAtATime(db: Db, target: UserId)
    requires Inv(db)
    ensures Free(db, LockSet(db.users, target)) <==> db.txs == map[]
  {
  }

  lemma LockKeeps(db: Db, tx: TxId, actor: UserId, target: UserId, work: Work)
    requires Inv(db) && Enabled(db, Lock(tx, actor, target, work))
    ensures Inv(Apply(db, Lock(tx, actor, target, work))) && db.txs == map[]
  {
  }

  lemma CheckKeeps(db: Db, tx: TxId)
    requires Inv(db) && Enabled(db, Check(tx))
    ensures Inv(Apply(db, Check(tx)))
  {
    var t := db.txs[tx];
    if RefusalOf(db.users, t).None? {
      match t.work
      case Change(input) => LastAdminIsExact(db.users, t.actor, t.target, input);
      case Removal => LastAdminIsExact(db.users, t.actor, t.target, Input(None, None, None, None, false));
    }
  }

  lemma StepKeeps(db: Db, step: Step)
    requires Inv(db) && Enabled(db, step)
    ensures Inv(Apply(db, step))
  {
    match step
    case Lock(tx, actor, target, work) => LockKeeps(db, tx, actor, target, work);
    case Check(tx) => CheckKeeps(db, tx);
    case Commit(tx) => assert Apply(db, step).txs == map[];
    case Rollback(_) =>
    case Invite(_, _) => OthersKeep(db, Apply(db, step).users);
    case Accept(_, _) => OthersKeep(db, Apply(db, step).users);
    case OtherWrite(_, _) => OthersKeep(db, Apply(db, step).users);
  }

  ghost predicate Runs(db: Db, steps: seq<Step>, db': Db)
    decreases |steps|
  {
    if steps == [] then db == db' else Enabled(db, steps[0]) && Runs(Apply(db, steps[0]), steps[1..], db')
  }

  lemma {:induction false} RunKeeps(db: Db, steps: seq<Step>, db': Db)
    requires Inv(db) && Runs(db, steps, db')
    ensures Inv(db')
    decreases |steps|
  {
    if steps != [] {
      StepKeeps(db, steps[0]);
      RunKeeps(Apply(db, steps[0]), steps[1..], db');
    }
  }

  /**
   However many changes, removals, invitations and acceptances overlap, an active administrator
   remains in every reachable state, and no two changes or removals are ever under way together.
   */
  lemma CoverIsNeverLost(db: Db, steps: seq<Step>, db': Db)
    requires db.txs == map[] && Covered(db.users) && Runs(db, steps, db')
    ensures Covered(db'.users)
    ensures forall t, u | t in db'.txs && u in db'.txs :: t == u
  {
    RunKeeps(db, steps, db');
  }

  // ---- no write is lost -----------------------------------------------------------------

  /** What the work makes of the target's row. */
  function Made(work: Work, row: User): Option<User> {
    match work
    case Change(input) => Some(Changed(row, input))
    case Removal => None
  }

  /**
   The transaction, if still under way, has locked its target, and the row there is the one that a
   checked write was computed from.
   */
  ghost predicate UpToDate(db: Db, t: TxId, target: UserId, work: Work) {
    t in db.txs ==>
      var tx := db.txs[t];
      && tx.target == target && tx.work == work && target in db.users && target in tx.locked
      && (tx.checked.Some? ==> tx.checked.value == Made(work, db.users[target]))
  }

  lemma StaysUpToDate(db: Db, step: Step, t: TxId, target: UserId, work: Work)
    requires Inv(db) && Enabled(db, step) && UpToDate(db, t, target, work) && !(step.Lock? && step.tx == t)
    ensures UpToDate(Apply(db, step), t, target, work)
  {
  }

  lemma {:induction false} StaysUpToDateAll(db: Db, steps: seq<Step>, db': Db, t: TxId, target: UserId, work: Work)
    requires Inv(db) && Runs(db, steps, db') && UpToDate(db, t, target, work)
    requires forall step | step in steps && step.Lock? :: step.tx != t
    ensures UpToDate(db', t, target, work)
    decreases |steps|
  {
    if steps != [] {
      StepKeeps(db, steps[0]);
      StaysUpToDate(db, steps[0], t, target, work);
      StaysUpToDateAll(Apply(db, steps[0]), steps[1..], db', t, target, work);
    }
  }

  /**
   What a transaction commits is its change of the row as it is committed then, whatever went on
   since it took its locks: no write in between is undone by a stale row.
   */
  lemma NoWriteIsLost(db: Db, t: TxId, actor: UserId, target: UserId, work: Work, steps: seq<Step>, db': Db)
    requires Inv(db) && Enabled(db, Lock(t, actor, target, work)) && target in db.users
    requires Runs(Apply(db, Lock(t, actor, target, work)), steps, db') && Enabled(db', Commit(t))
    requires forall step | step in steps && step.Lock? :: step.tx != t
    ensures target in db'.users
    ensures Apply(db', Commit(t)).users ==
            match work
            case Change(input) => db'.users[target := Changed(db'.users[target], input)]
            case Removal => db'.users - {target}
  {
    StepKeeps(db, Lock(t, actor, target, work));
    StaysUpToDateAll(Apply(db, Lock(t, actor, target, work)), steps, db', t, target, work);
  }

  /** With nothing else under way, what is not refused goes through: locked, checked, committed. */
  lemma ChangeGoesThrough(db: Db, t: TxId, actor: UserId, target: UserId, work: Work) returns (db': Db)
    requires Inv(db) && db.txs == map[]
    requires RefusalOf(db.users, Tx(actor, target, work, {}, None)).None?
    ensures Runs(db, [Lock(t, actor, target, work), Check(t), Commit(t)], db') && db'.txs == map[]
    ensures db'.users == match work
                         case Change(input) => db.users[target := Changed(db.users[target], input)]
                         case Removal => db.users - {target}
  {
    var steps := [Lock(t, actor, target, work), Check(t), Commit(t)];
    var s1 := Apply(db, steps[0]);
    var s2 := Apply(s1, steps[1]);
    db' := Apply(s2, steps[2]);
    assert steps[1..][1..] == steps[2..] && steps[2..][1..] == [];
    assert Runs(s2, steps[2..], db');
    assert Runs(s1, steps[1..], db');
  }

  /** An accepted invitation to administer is cover enough. */
  lemma AcceptedAdminCovers(db: Db, user: UserId, password: string)
    requires Enabled(db, Accept(user, password)) && db.users[user].role == Admin
    ensures Covered(Apply(db, Accept(user, password)).users)
  {
    assert IsActiveAdmin(Apply(db, Accept(user, password)).users, user);
  }

  /** The checks alone are not enough: two administrators may remove each other if neither waits. */
  lemma ChecksAloneLoseCover(a: User, b: User)
    requires a.role == Admin && a.status == Active && b.role == Admin && b.status == Active
    ensures var users := map[0 := a, 1 := b];
            Covered(users) && RemoveRefusal(users, 0, 1).None? && RemoveRefusal(users, 1, 0).None? &&
              !Covered(users - {0} - {1})
  {
    var users := map[0 := a, 1 := b];
    assert IsActiveAdmin(users, 0) && IsActiveAdmin(users, 1);
    OthersLeft(users, 0);
    OthersLeft(users, 1);
  }
}
