/**
 The map of rendered mails in memory: JavaScript's Map walks its entries in the order they were
 first put in, so making room drops the terminally failed mail that has been there longest.
 */
module MailMemory {
  import opened Clock
  import opened Wrappers
  import opened MailQueue

  /** `order` lists the entries, each once. */
  ghost predicate OrderOk(q: Queue) {
    Distinct(q.order) && forall id :: id in q.order <==> id in q.pending
  }

  ghost predicate Before(order: seq<MailId>, a: MailId, b: MailId) {
    exists i, j :: 0 <= i < j < |order| && order[i] == a && order[j] == b
  }

  /** Entries keep their order, and new ones come after them. */
  ghost predicate Follows(q: Queue, q': Queue) {
    forall a, b | a in q.pending && a in q'.pending && b in q'.pending ::
      Before(q'.order, a, b) <==> if b in q.pending then Before(q.order, a, b) else true
  }

  lemma {:induction false} WithoutAbsent(order: seq<MailId>, id: MailId)
    requires id !in order
    ensures Without(order, id) == order
  {
    if order != [] {
      WithoutAbsent(order[1..], id);
      assert order == [order[0]] + order[1..];
    }
  }

  lemma {:induction false} WithoutAt(order: seq<MailId>, at: nat)
    requires Distinct(order) && at < |order|
    ensures Without(order, order[at]) == order[..at] + order[at + 1..]
  {
    DistinctTail(order);
    var rest, id := order[1..], order[at];
    if at == 0 {
      WithoutAbsent(rest, id);
      assert order[..0] + rest == rest;
    } else {
      assert rest[at - 1] == id && order[0] != id;
      WithoutAt(rest, at - 1);
      assert order[..at] + order[at + 1..] == [order[0]] + (rest[..at - 1] + rest[at..]);
    }
  }

  lemma CutKeepsOrder(order: seq<MailId>, at: nat, a: MailId, b: MailId)
    requires Distinct(order) && at < |order| && a != order[at] && b != order[at]
    ensures Before(order[..at] + order[at + 1..], a, b) <==> Before(order, a, b)
  {
    var cut := order[..at] + order[at + 1..];
    if i, j :| 0 <= i < j < |cut| && cut[i] == a && cut[j] == b {
      assert order[if i < at then i else i + 1] == a && order[if j < at then j else j + 1] == b;
    }
    if i, j :| 0 <= i < j < |order| && order[i] == a && order[j] == b {
      assert cut[if i < at then i else i - 1] == a && cut[if j < at then j else j - 1] == b;
    }
  }

  lemma CutElements(order: seq<MailId>, at: nat)
    requires Distinct(order) && at < |order|
    ensures Distinct(order[..at] + order[at + 1..])
    ensures forall id :: id in order[..at] + order[at + 1..] <==> id in order && id != order[at]
  {
    forall id | id in order && id != order[at] ensures id in order[..at] + order[at + 1..] {
      var i :| 0 <= i < |order| && order[i] == id;
      assert (order[..at] + order[at + 1..])[if i < at then i else i - 1] == id;
    }
  }

  lemma ForgetKeepsOrder(q: Queue, id: MailId)
    requires OrderOk(q)
    ensures OrderOk(Forget(q, id)) && Follows(q, Forget(q, id))
  {
    if id !in q.order {
      WithoutAbsent(q.order, id);
    } else {
      var at :| 0 <= at < |q.order| && q.order[at] == id;
      WithoutAt(q.order, at);
      CutElements(q.order, at);
      forall a, b | a != id && b != id ensures Before(Forget(q, id).order, a, b) <==> Before(q.order, a, b) {
        CutKeepsOrder(q.order, at, a, b);
      }
    }
  }

  lemma NewComesLast(order: seq<MailId>, id: MailId, a: MailId, b: MailId)
    requires id !in order && a in order
    ensures b != id ==> (Before(order + [id], a, b) <==> Before(order, a, b))
    ensures Before(order + [id], a, id)
  {
    var longer := order + [id];
    assert longer[|order|] == id && forall i | 0 <= i < |order| :: longer[i] == order[i];
    var i :| 0 <= i < |order| && order[i] == a;
  }

  lemma RememberKeepsOrder(q: Queue, id: MailId, rendered: Mail)
    requires OrderOk(q)
    ensures OrderOk(Remember(q, id, rendered)) && Follows(q, Remember(q, id, rendered))
  {
    if id !in q.pending {
      forall a, b | a in q.order ensures Before(q.order + [id], a, b) <==> (b == id || Before(q.order, a, b)) {
        NewComesLast(q.order, id, a, b);
      }
    }
  }

  // ---- making room ----------------------------------------------------------------------

  lemma {:induction false} FirstTerminalIs(order: seq<MailId>, pending: map<MailId, Pending>) returns (at: nat)
    ensures FirstTerminal(order, pending).None? ==> forall id | id in order && id in pending :: !pending[id].terminal
    ensures FirstTerminal(order, pending).Some? ==>
              && at < |order| && FirstTerminal(order, pending).value == order[at]
              && forall i | 0 <= i < at && order[i] in pending :: !pending[order[i]].terminal
  {
    at := 0;
    if order != [] && !(order[0] in pending && pending[order[0]].terminal) {
      at := FirstTerminalIs(order[1..], pending);
      at := at + 1;
    }
  }

  ghost predicate HasTerminal(q: Queue) {
    exists id :: id in q.pending && q.pending[id].terminal
  }

  /** A terminal entry that has been there longer than any other. */
  ghost predicate IsOldest(q: Queue, v: MailId) {
    && v in q.pending && q.pending[v].terminal
    && forall u | u in q.pending && q.pending[u].terminal && u != v :: Before(q.order, v, u)
  }

  /**
   Once 500 mails are held, a terminally failed one goes, the one that has been there longest, if
   there is any; otherwise, or with fewer mails, none does.
   */
  lemma OldestGoes(q: Queue)
    requires OrderOk(q)
    ensures |q.pending| < 500 || !HasTerminal(q) ==> Evict(q) == q
    ensures |q.pending| >= 500 && HasTerminal(q) ==>
              exists v :: IsOldest(q, v) && Evict(q).pending == q.pending - {v}
  {
    var at := FirstTerminalIs(q.order, q.pending);
    if |q.pending| >= 500 && HasTerminal(q) {
      var v := q.order[at];
      forall u | u in q.pending && q.pending[u].terminal && u != v ensures Before(q.order, v, u) {
        var i :| 0 <= i < |q.order| && q.order[i] == u;
      }
      assert IsOldest(q, v) && Evict(q).pending == q.pending - {v};
    }
  }

  lemma RoomKeepsOrder(q: Queue, id: MailId, rendered: Mail)
    requires OrderOk(q) && id !in q.pending
    ensures var r := Remember(Evict(q), id, rendered); OrderOk(r) && Follows(q, r)
  {
    var q1 := Evict(q);
    var victim := FirstTerminal(q.order, q.pending);
    if |q.pending| >= MAX_PENDING && victim.Some? {
      ForgetKeepsOrder(q, victim.value);
    }
    RememberKeepsOrder(q1, id, rendered);
    EvictIs(q);
  }

  // ---- every step -----------------------------------------------------------------------

  lemma SameEntries(q: Queue, q': Queue)
    requires OrderOk(q) && q'.order == q.order && q'.pending.Keys == q.pending.Keys
    ensures OrderOk(q') && Follows(q, q')
  {
    assert forall id :: id in q'.pending <==> id in q'.pending.Keys;
    assert forall id :: id in q.pending <==> id in q.pending.Keys;
  }

  /** `r` has the same entries as `q1`, in the same order. */
  lemma LikeMemory(q: Queue, q1: Queue, r: Queue)
    requires OrderOk(q1) && Follows(q, q1) && r.pending == q1.pending && r.order == q1.order
    ensures OrderOk(r) && Follows(q, r)
  {
  }

  lemma AskedMemory(q: Queue, trigger: Trigger, id: MailId, rendered: Mail, answer: Answer)
    requires id in q.log
    ensures Asked(q, trigger, id, rendered, answer).pending == q.pending
    ensures Asked(q, trigger, id, rendered, answer).order == q.order
  {
  }

  lemma AskKeepsOrder(q: Queue, trigger: Trigger, id: MailId, answer: Answer)
    requires OrderOk(q)
    ensures OrderOk(AskNow(q, trigger, id, answer)) && Follows(q, AskNow(q, trigger, id, answer))
  {
    if id !in q.log || q.log[id].status == Sent {
      ForgetKeepsOrder(q, id);
    } else if Content(q, id).Some? {
      var mail := Content(q, id).value;
      RecoverKeepsOrder(q, id, mail);
      RecoverLeavesRows(q, id, mail);
      AskedMemory(Recover(q, id, mail), trigger, id, mail, answer);
      LikeMemory(q, Recover(q, id, mail), AskNow(q, trigger, id, answer));
    } else {
      SameEntries(q, AskNow(q, trigger, id, answer));
    }
  }

  lemma RecoverKeepsOrder(q: Queue, id: MailId, mail: Mail)
    requires OrderOk(q)
    ensures OrderOk(Recover(q, id, mail)) && Follows(q, Recover(q, id, mail))
  {
    if id !in q.pending {
      RoomKeepsOrder(q, id, mail);
    } else {
      SameEntries(q, q);
    }
  }

  lemma WriteKeepsOrder(q: Queue, id: MailId, written: bool, now: Time)
    requires OrderOk(q) && id in q.flights && id in q.log
    ensures OrderOk(WriteNow(q, id, written, now)) && Follows(q, WriteNow(q, id, written, now))
  {
    if written && q.flights[id].write.SentWrite? {
      ForgetKeepsOrder(q, id);
    } else {
      SameEntries(q, WriteNow(q, id, written, now));
    }
  }

  /** Whatever happens, entries stay in the order they were put in, until memory is lost with the process. */
  lemma StepKeepsOrder(q: Queue, step: Step)
    requires KeysOk(q) && OrderOk(q) && Enabled(q, step)
    ensures OrderOk(Apply(q, step)) && Follows(q, Apply(q, step))
  {
    match step
    case Send(id, params) =>
      if StatusOf(params) == Queued {
        RoomKeepsOrder(Saved(q, id, params), id, params.rendered.value);
      }
    case Ask(trigger, id, answer) => AskKeepsOrder(Launched(q, trigger, id), trigger, id, answer);
    case WriteRow(id, written, now) => WriteKeepsOrder(q, id, written, now);
    case BeginSweep(due, _) => SameEntries(q, Begun(q, due));
    case EndSweep => SameEntries(q, Apply(q, EndSweep));
    case Restart =>
  }

  lemma {:induction false} OrderInRuns(q: Queue, steps: seq<Step>, q': Queue)
    requires Inv(q) && OrderOk(q) && Runs(q, steps, q')
    ensures OrderOk(q')
    decreases |steps|
  {
    if steps != [] {
      StepKeeps(q, steps[0]);
      StepKeepsOrder(q, steps[0]);
      OrderInRuns(Apply(q, steps[0]), steps[1..], q');
    }
  }

  /** The new mail is in, and the oldest terminal one, if there was any, is out. */
  ghost predicate MadeRoom(q: Queue, id: MailId, held: set<MailId>) {
    if HasTerminal(q) then exists v :: IsOldest(q, v) && held == q.pending.Keys - {v} + {id}
    else held == q.pending.Keys + {id}
  }

  lemma HoldMakesRoom(q: Queue, id: MailId, mail: Mail)
    requires OrderOk(q) && id !in q.pending && |q.pending| >= 500
    ensures MadeRoom(q, id, Hold(q, id, mail).pending.Keys)
  {
    OldestGoes(q);
    assert Hold(q, id, mail).pending.Keys == Evict(q).pending.Keys + {id};
    if HasTerminal(q) {
      var v :| IsOldest(q, v) && Evict(q).pending == q.pending - {v};
      assert Evict(q).pending.Keys == q.pending.Keys - {v};
    }
  }

  lemma SameRoom(q: Queue, q': Queue)
    requires q'.pending == q.pending && q'.order == q.order
    ensures OrderOk(q) ==> OrderOk(q')
    ensures forall id, held :: MadeRoom(q', id, held) <==> MadeRoom(q, id, held)
  {
    assert HasTerminal(q') == HasTerminal(q) && forall v :: IsOldest(q', v) <==> IsOldest(q, v);
  }

  /** In every reachable state a send that finds 500 mails in memory makes room by the oldest terminal one, if any. */
  lemma SendMakesRoom(steps: seq<Step>, q: Queue, id: MailId, params: Params)
    requires Runs(EMPTY_QUEUE, steps, q) && Enabled(q, Send(id, params)) && |q.pending| >= 500
    requires params.hasRecipient && params.enabled && params.rendered.Some?
    ensures MadeRoom(q, id, Apply(q, Send(id, params)).pending.Keys)
  {
    RunKeeps(EMPTY_QUEUE, steps, q);
    OrderInRuns(EMPTY_QUEUE, steps, q);
    SavedMakesRoom(q, id, params);
  }

  lemma SavedMakesRoom(q: Queue, id: MailId, params: Params)
    requires OrderOk(q) && id !in q.pending && |q.pending| >= 500
    requires params.hasRecipient && params.enabled && params.rendered.Some?
    ensures MadeRoom(q, id, Apply(q, Send(id, params)).pending.Keys)
  {
    SameRoom(q, Saved(q, id, params));
    HoldMakesRoom(Saved(q, id, params), id, params.rendered.value);
  }
}
