/**
 MailService: its methods on its fields, an attempt and a sweep that nothing interrupts, and the
 runs of single steps that these are.
 */
module MailService {
  import opened Clock
  import opened Wrappers
  import opened MailQueue

  /** How an attempt goes: the answer, whether the `sent` update and a failure record are written, and when. */
  datatype Plan = Plan(answer: Answer, sentWritten: bool, failureWritten: bool, writtenAt: Time)

  /** The mails whose attempts are asked for, in order. */
  function AskedIds(steps: seq<Step>): seq<MailId> {
    if steps == [] then []
    else AskedIds(steps[..|steps| - 1]) + (if steps[|steps| - 1].Ask? then [steps[|steps| - 1].id] else [])
  }

  function WriteIf(q: Queue, id: MailId, written: bool, now: Time): Queue {
    if id in q.flights && id in q.log then WriteNow(q, id, written, now) else q
  }

  function FirstWritten(q: Queue, id: MailId, plan: Plan): bool {
    if id in q.flights && q.flights[id].write.SentWrite? then plan.sentWritten else plan.failureWritten
  }

  /** At most two writes: a failed `sent` update is followed by a failure record. */
  function WriteAll(q: Queue, id: MailId, plan: Plan): Queue {
    WriteIf(WriteIf(q, id, FirstWritten(q, id, plan), plan.writtenAt), id, plan.failureWritten, plan.writtenAt)
  }

  function AttemptAll(q: Queue, trigger: Trigger, id: MailId, plan: Plan): Queue {
    WriteAll(AskNow(Launched(q, trigger, id), trigger, id, plan.answer), id, plan)
  }

  function VisitAll(q: Queue, visits: seq<MailId>, plans: MailId -> Plan): Queue {
    if visits == [] then q
    else
      var last := visits[|visits| - 1];
      AttemptAll(VisitAll(q, visits[..|visits| - 1], plans), Sweep, last, plans(last))
  }

  /** A sweep that nothing interrupts. */
  function SweepAll(q: Queue, due: seq<MailId>, plans: MailId -> Plan): Queue {
    VisitAll(Begun(q, due), due, plans).(sweep := None)
  }

  lemma AttemptKeepsRow(q: Queue, trigger: Trigger, id: MailId, plan: Plan)
    requires id in q.log
    ensures id in AttemptAll(q, trigger, id, plan).log
  {
    AskLeavesRows(Launched(q, trigger, id), trigger, id, plan.answer);
  }

  lemma AskedKeepsKeys(q: Queue, trigger: Trigger, id: MailId, rendered: Mail, answer: Answer)
    requires KeysOk(q) && id in q.log
    ensures KeysOk(Asked(q, trigger, id, rendered, answer))
  {
  }

  lemma RecoverKeepsKeys(q: Queue, id: MailId, rendered: Mail)
    requires KeysOk(q) && id in q.log
    ensures KeysOk(Recover(q, id, rendered)) && Recover(q, id, rendered).log == q.log
  {
    EvictIs(q);
  }

  lemma AskKeepsKeys(q: Queue, trigger: Trigger, id: MailId, answer: Answer)
    requires KeysOk(q)
    ensures KeysOk(AskNow(q, trigger, id, answer))
  {
    if id in q.log && q.log[id].status != Sent && Content(q, id).Some? {
      RecoverKeepsKeys(q, id, Content(q, id).value);
      AskedKeepsKeys(Recover(q, id, Content(q, id).value), trigger, id, Content(q, id).value, answer);
    }
  }

  /** What others see of an attempt on `id`. */
  ghost predicate Beside(q: Queue, q': Queue, id: MailId) {
    && KeysOk(q') && q'.log.Keys == q.log.Keys
    && forall i | i in q.log && i != id :: q'.log[i] == q.log[i] && FlightOf(q', i) == FlightOf(q, i)
  }

  lemma WriteBeside(q: Queue, id: MailId, written: bool, now: Time)
    requires KeysOk(q)
    ensures Beside(q, WriteIf(q, id, written, now), id)
  {
    if id in q.flights {
      WriteKeepsKeys(q, id, written, now);
      forall i | i in q.log && i != id ensures MailOf(WriteNow(q, id, written, now), i) == MailOf(q, i) {
        WriteOtherMail(q, id, written, now, i);
      }
    }
  }

  lemma WriteLands(q: Queue, id: MailId, written: bool, now: Time)
    requires KeysOk(q)
    ensures var r := WriteIf(q, id, written, now);
            && r.sweep == q.sweep
            && (id in q.flights && (written || !q.flights[id].write.SentWrite?) ==> id !in r.flights)
            && (id in r.flights ==> !r.flights[id].write.SentWrite?)
  {
  }

  lemma LaunchedBeside(q: Queue, trigger: Trigger, id: MailId)
    requires KeysOk(q)
    ensures KeysOk(Launched(q, trigger, id))
    ensures Launched(q, trigger, id).log == q.log && Launched(q, trigger, id).flights == q.flights
  {
  }

  lemma AskIsRun(q0: Queue, before: seq<Step>, q: Queue, trigger: Trigger, id: MailId, plan: Plan)
    returns (steps: seq<Step>)
    requires Runs(q0, before, q) && KeysOk(q) && Enabled(q, Ask(trigger, id, plan.answer))
    requires trigger == Manual ==> RetryRefusal(q, id).None?
    ensures var r := AskNow(Launched(q, trigger, id), trigger, id, plan.answer);
            && Runs(q0, steps, r) && AskedIds(steps) == AskedIds(before) + [id]
            && Beside(q, r, id) && r.sweep == Launched(q, trigger, id).sweep
  {
    var ask := Ask(trigger, id, plan.answer);
    LaunchedBeside(q, trigger, id);
    AskKeepsKeys(Launched(q, trigger, id), trigger, id, plan.answer);
    AskLeavesRows(Launched(q, trigger, id), trigger, id, plan.answer);
    RunsOn(q0, before, q, ask);
    steps := before + [ask];
    assert steps[..|steps| - 1] == before;
  }

  /** An attempt prolongs a run: by the question, and by a write as long as one is due. */
  lemma AttemptIsRun(q0: Queue, before: seq<Step>, q: Queue, trigger: Trigger, id: MailId, plan: Plan)
    returns (steps: seq<Step>)
    requires Runs(q0, before, q) && KeysOk(q) && Enabled(q, Ask(trigger, id, plan.answer))
    requires trigger == Manual ==> RetryRefusal(q, id).None?
    ensures Runs(q0, steps, AttemptAll(q, trigger, id, plan)) && AskedIds(steps) == AskedIds(before) + [id]
    ensures Beside(q, AttemptAll(q, trigger, id, plan), id) && id !in AttemptAll(q, trigger, id, plan).flights
    ensures AttemptAll(q, trigger, id, plan).sweep == Launched(q, trigger, id).sweep
  {
    var q1 := AskNow(Launched(q, trigger, id), trigger, id, plan.answer);
    var asked := AskIsRun(q0, before, q, trigger, id, plan);
    steps := AnsweredIsRun(q0, asked, q1, id, plan);
  }

  lemma AnsweredIsRun(q: Queue, asked: seq<Step>, q1: Queue, id: MailId, plan: Plan) returns (steps: seq<Step>)
    requires Runs(q, asked, q1) && KeysOk(q1)
    ensures Runs(q, steps, WriteAll(q1, id, plan)) && AskedIds(steps) == AskedIds(asked)
    ensures Beside(q1, WriteAll(q1, id, plan), id) && id !in WriteAll(q1, id, plan).flights
    ensures WriteAll(q1, id, plan).sweep == q1.sweep
  {
    var q2 := WriteIf(q1, id, FirstWritten(q1, id, plan), plan.writtenAt);
    WriteBeside(q1, id, FirstWritten(q1, id, plan), plan.writtenAt);
    WriteLands(q1, id, FirstWritten(q1, id, plan), plan.writtenAt);
    steps := WriteRuns(q, q1, asked, id, FirstWritten(q1, id, plan), plan.writtenAt);
    WriteBeside(q2, id, plan.failureWritten, plan.writtenAt);
    WriteLands(q2, id, plan.failureWritten, plan.writtenAt);
    steps := WriteRuns(q, q2, steps, id, plan.failureWritten, plan.writtenAt);
  }

  lemma WriteRuns(q: Queue, q': Queue, steps: seq<Step>, id: MailId, written: bool, now: Time) returns (more: seq<Step>)
    requires Runs(q, steps, q') && KeysOk(q')
    ensures Runs(q, more, WriteIf(q', id, written, now)) && AskedIds(more) == AskedIds(steps)
  {
    more := steps;
    if id in q'.flights {
      var write := WriteRow(id, written, now);
      RunsOn(q, steps, q', write);
      more := steps + [write];
      assert more[..|more| - 1] == steps;
    }
  }

  /** What others see of visits to some rows. */
  ghost predicate BesideAll(q: Queue, q': Queue, visits: seq<MailId>) {
    && KeysOk(q') && q'.log.Keys == q.log.Keys
    && forall i | i in q.log && i !in visits :: q'.log[i] == q.log[i] && FlightOf(q', i) == FlightOf(q, i)
  }

  lemma BesideMore(q: Queue, q1: Queue, q2: Queue, visits: seq<MailId>, id: MailId)
    requires BesideAll(q, q1, visits) && Beside(q1, q2, id)
    ensures BesideAll(q, q2, visits + [id])
  {
    forall i | i in q.log && i !in visits + [id] ensures q2.log[i] == q.log[i] && FlightOf(q2, i) == FlightOf(q, i) {
      assert (visits + [id])[|visits|] == id && i !in visits;
    }
  }

  lemma QuietAfter(q: Queue, q': Queue, id: MailId)
    requires KeysOk(q) && !Visiting(q) && Beside(q, q', id) && id !in q'.flights
    ensures !Visiting(q')
  {
    forall i | i in q'.flights ensures q'.flights[i].trigger != Sweep {
      assert FlightOf(q', i) == FlightOf(q, i);
    }
  }

  /** After visits to all before it, the next row is the next to visit, due as it was, with no attempt under way. */
  ghost predicate Next(q: Queue, q': Queue, due: seq<MailId>, n: nat)
    requires n <= |due|
  {
    BesideAll(q, q', due[..n]) && q'.sweep == Some(due[n..]) && !Visiting(q')
  }

  lemma VisitNext(q: Queue, q1: Queue, due: seq<MailId>, n: nat, answer: Answer)
    requires KeysOk(q) && n < |due| && Next(q, q1, due, n) && Distinct(due) && due[n] in q.log
    requires due[n] in q.flights ==> q.flights[due[n]].trigger != Manual
    ensures Enabled(q1, Ask(Sweep, due[n], answer)) && q1.log[due[n]] == q.log[due[n]]
  {
    assert due[n] !in due[..n];
    assert FlightOf(q1, due[n]) == FlightOf(q, due[n]);
  }

  lemma BeginIsRun(q: Queue, due: seq<MailId>, now: Time)
    requires KeysOk(q) && SweepOk(q) && q.sweep.None? && IsDueList(q.log, due, now)
    ensures Runs(q, [BeginSweep(due, now)], Begun(q, due)) && AskedIds([BeginSweep(due, now)]) == []
    ensures Next(q, Begun(q, due), due, 0)
  {
    var steps := [BeginSweep(due, now)];
    assert steps[1..] == [] && AskedIds(steps) == AskedIds([]);
    assert Runs(Apply(q, steps[0]), [], Begun(q, due));
  }

  lemma {:induction false} VisitsAreRun(q: Queue, due: seq<MailId>, plans: MailId -> Plan, now: Time, n: nat)
    returns (steps: seq<Step>)
    requires KeysOk(q) && SweepOk(q) && q.sweep.None? && IsDueList(q.log, due, now) && n <= |due|
    requires forall id | id in due && id in q.flights :: q.flights[id].trigger != Manual
    ensures Runs(q, steps, VisitAll(Begun(q, due), due[..n], plans)) && AskedIds(steps) == due[..n]
    ensures Next(q, VisitAll(Begun(q, due), due[..n], plans), due, n)
  {
    if n == 0 {
      steps := [BeginSweep(due, now)];
      BeginIsRun(q, due, now);
    } else {
      var id, visits := due[n - 1], due[..n - 1];
      steps := VisitsAreRun(q, due, plans, now, n - 1);
      var q1 := VisitAll(Begun(q, due), visits, plans);
      assert id in due;
      VisitNext(q, q1, due, n - 1, plans(id).answer);
      steps := AttemptIsRun(q, steps, q1, Sweep, id, plans(id));
      VisitMore(Begun(q, due), due, plans, n - 1);
      VisitGoesOn(q, q1, AttemptAll(q1, Sweep, id, plans(id)), due, n - 1);
    }
  }

  lemma VisitGoesOn(q: Queue, q1: Queue, q2: Queue, due: seq<MailId>, n: nat)
    requires n < |due| && KeysOk(q1) && Next(q, q1, due, n) && Beside(q1, q2, due[n]) && due[n] !in q2.flights
    requires q2.sweep == Launched(q1, Sweep, due[n]).sweep
    ensures Next(q, q2, due, n + 1)
  {
    assert due[..n + 1] == due[..n] + [due[n]] && due[n..][1..] == due[n + 1..];
    BesideMore(q, q1, q2, due[..n], due[n]);
    QuietAfter(q1, q2, due[n]);
  }

  lemma VisitMore(q: Queue, due: seq<MailId>, plans: MailId -> Plan, n: nat)
    requires n < |due|
    ensures due[..n + 1] == due[..n] + [due[n]]
    ensures VisitAll(q, due[..n + 1], plans) == AttemptAll(VisitAll(q, due[..n], plans), Sweep, due[n], plans(due[n]))
  {
    assert due[..n + 1][..n] == due[..n];
  }

  /** A sweep is a run that begins, asks for one attempt on each row due, in order, and ends. */
  lemma SweepIsRun(q: Queue, due: seq<MailId>, plans: MailId -> Plan, now: Time) returns (steps: seq<Step>)
    requires KeysOk(q) && SweepOk(q) && q.sweep.None? && IsDueList(q.log, due, now)
    requires forall id | id in due && id in q.flights :: q.flights[id].trigger != Manual
    ensures Runs(q, steps, SweepAll(q, due, plans)) && AskedIds(steps) == due
    ensures BesideAll(q, SweepAll(q, due, plans), due)
  {
    steps := VisitsAreRun(q, due, plans, now, |due|);
    assert due[..|due|] == due && due[|due|..] == [];
    var visited := VisitAll(Begun(q, due), due, plans);
    RunsOn(q, steps, visited, EndSweep);
    assert (steps + [EndSweep])[..|steps|] == steps;
    steps := steps + [EndSweep];
  }

  class MailService {
    var log: map<MailId, Row>
    var pending: map<MailId, Pending>
    var order: seq<MailId>
    var starting: set<MailId>
    var flights: map<MailId, Flight>
    var sweeping: bool
    ghost var toVisit: seq<MailId>
    ghost var h: map<MailId, Trace>

    ghost function View(): Queue
      reads this
    {
      Queue(log, pending, order, starting, flights, h, if sweeping then Some(toVisit) else None)
    }

    constructor ()
      ensures View() == EMPTY_QUEUE && Inv(View())
    {
      log, pending, order, starting, flights, sweeping := map[], map[], [], {}, map[], false;
      toVisit, h := [], map[];
    }

    method DeletePending(id: MailId)
      modifies this`pending, this`order
      ensures View() == Forget(old(View()), id)
    {
      pending, order := pending - {id}, Without(order, id);
    }

    method SetPending(id: MailId, rendered: Mail)
      modifies this`pending, this`order
      ensures View() == Remember(old(View()), id, rendered)
    {
      order := if id in pending then order else order + [id];
      pending := pending[id := Pending(rendered, None, false)];
    }

    method EvictIfAtCapacity()
      modifies this`pending, this`order
      ensures View() == Evict(old(View()))
    {
      if |pending| < MAX_PENDING {
        return;
      }
      for i := 0 to |order|
        invariant View() == old(View())
        invariant FirstTerminal(order, pending) == FirstTerminal(order[i..], pending)
      {
        var id := order[i];
        if id in pending && pending[id].terminal {
          DeletePending(id);
          return;
        }
        assert order[i..][1..] == order[i + 1..];
      }
    }

    /** A row is written and its first attempt launched; delivery itself is not waited for. */
    method Send(id: MailId, params: Params)
      requires Enabled(View(), Step.Send(id, params))
      modifies this
      ensures View() == Apply(old(View()), Step.Send(id, params))
      ensures if params.hasRecipient && params.enabled && params.rendered.Some?
              then log[id].status == Queued && id in starting && id in pending
              else log[id] == Row(Skipped, 0, None, None) && starting == old(starting) && pending == old(pending)
    {
      var status := if !params.hasRecipient || !params.enabled || params.rendered.None? then Skipped else Queued;
      log := log[id := Row(status, 0, None, if status == Queued && !params.sensitive then params.rendered else None)];
      h := h[id := if status == Skipped then NEW_TRACE
                   else NEW_TRACE.(content := params.rendered, sensitive := params.sensitive)];
      if status == Queued {
        EvictIfAtCapacity();
        SetPending(id, params.rendered.value);
        starting := starting + {id};
      }
    }

    /** The first half of `attemptDelivery`, up to the transport's answer. */
    method AskTransport(trigger: Trigger, id: MailId, answer: Answer)
      modifies this
      ensures View() == AskNow(old(View()), trigger, id, answer)
    {
      if id !in log || log[id].status == Sent {
        DeletePending(id);
        return;
      }
      var rendered := if id in pending then Some(pending[id].rendered) else log[id].payload;
      if rendered.None? {
        if Live(log[id]) {
          flights := flights[id := Flight(GiveUpWrite, log[id].attempts, trigger)];
        }
        return;
      }
      if id !in pending {
        EvictIfAtCapacity();
        SetPending(id, rendered.value);
      }
      RecoverLeavesRows(old(View()), id, rendered.value);
      HandOver(trigger, id, rendered.value, answer);
    }

    method HandOver(trigger: Trigger, id: MailId, rendered: Mail, answer: Answer)
      requires id in log
      modifies this`flights, this`h
      ensures View() == Asked(old(View()), trigger, id, rendered, answer)
    {
      ghost var t := TraceOf(View(), id);
      match answer
      case NoTransport =>
      case _ =>
        var attempts := log[id].attempts + 1;
        var write := if answer == Accepted then SentWrite else FailureWrite(answer == NotConfigured);
        flights := flights[id := Flight(write, attempts, trigger)];
        h := h[id := t.(started := t.started + (if trigger == First then 1 else 0),
                        swept := t.swept + (if trigger == Sweep then 1 else 0),
                        delivered := if answer == Accepted then t.delivered + [rendered] else t.delivered)];
    }

    method RecordFailure(id: MailId, attempts: nat, forceTerminal: bool, now: Time)
      requires id in log
      modifies this`log, this`pending, this`h
      ensures View() == Fail(old(View()), id, attempts, forceTerminal, now)
      ensures log.Keys == old(log).Keys && log[id].status == Failed && log[id].attempts == attempts
      ensures id in pending ==>
                pending[id].nextRetryAt == log[id].nextRetryAt && pending[id].terminal == log[id].nextRetryAt.None?
    {
      var terminal := forceTerminal || attempts >= MAX_ATTEMPTS;
      var nextRetryAt := if terminal then None else Some(now + RetryDelay(attempts));
      ghost var t := TraceOf(View(), id);
      log := log[id := Row(Failed, attempts, nextRetryAt, if terminal then None else log[id].payload)];
      if id in pending {
        pending := pending[id := pending[id].(nextRetryAt := nextRetryAt, terminal := terminal)];
      }
      h := h[id := t.(failedAt := Some(now), wentTerminal := t.wentTerminal || terminal)];
    }

    /** The write an attempt is waiting for; one that fails is logged, or for `sent` taken for a failed delivery. */
    method WriteLog(id: MailId, written: bool, now: Time)
      requires id in flights && id in log
      modifies this
      ensures View() == WriteNow(old(View()), id, written, now)
    {
      var f := flights[id];
      ghost var t := TraceOf(View(), id);
      if !written && f.write.SentWrite? {
        flights := flights[id := f.(write := FailureWrite(false))];
        h := h[id := t.(lostSent := t.lostSent + 1)];
        return;
      }
      flights := flights - {id};
      if !written {
        h := h[id := Lose(t, f)];
        return;
      }
      match f.write
      case GiveUpWrite =>
        log := log[id := log[id].(status := Failed, nextRetryAt := None)];
        h := h[id := t.(wentTerminal := true)];
      case FailureWrite(force) => RecordFailure(id, f.attempts, force, now);
      case SentWrite =>
        log := log[id := Row(Sent, f.attempts, None, None)];
        DeletePending(id);
    }

    method Launch(trigger: Trigger, id: MailId)
      modifies this`starting, this`toVisit
      ensures View() == Launched(old(View()), trigger, id)
    {
      starting := if trigger == First then starting - {id} else starting;
      toVisit := if trigger == Sweep && toVisit != [] then toVisit[1..] else toVisit;
    }

    /** A whole attempt: the question, then one write, or two when the first was a `sent` update that failed. */
    method AttemptDelivery(trigger: Trigger, id: MailId, plan: Plan)
      modifies this
      ensures View() == AttemptAll(old(View()), trigger, id, plan)
    {
      Launch(trigger, id);
      AskTransport(trigger, id, plan.answer);
      if id in flights && id in log {
        WriteLog(id, if flights[id].write.SentWrite? then plan.sentWritten else plan.failureWritten, plan.writtenAt);
      }
      if id in flights && id in log {
        WriteLog(id, plan.failureWritten, plan.writtenAt);
      }
    }

    /** `WHERE status = 'failed' AND next_retry_at <= now`. */
    method FindDue(now: Time) returns (due: seq<MailId>)
      ensures IsDueList(log, due, now)
    {
      due := [];
      var rest := set id | id in log && Due(log[id], now);
      while rest != {}
        invariant forall id :: id in due || id in rest <==> id in log && Due(log[id], now)
        invariant forall id | id in due :: id !in rest
        invariant Distinct(due)
      {
        var id :| id in rest;
        due, rest := due + [id], rest - {id};
      }
    }

    /** Unless a sweep is running, each row that was due when it began gets one attempt, one after the other. */
    method SweepRetries(plans: MailId -> Plan, now: Time) returns (due: seq<MailId>)
      modifies this
      ensures old(View()).sweep.Some? ==> View() == old(View())
      ensures old(View()).sweep.None? ==> IsDueList(old(log), due, now) && View() == SweepAll(old(View()), due, plans)
    {
      due := [];
      if sweeping {
        return;
      }
      sweeping := true;
      due := FindDue(now);
      toVisit := due;
      VisitRows(due, plans);
      sweeping := false;
    }

    method VisitRows(due: seq<MailId>, plans: MailId -> Plan)
      modifies this
      ensures View() == VisitAll(old(View()), due, plans)
    {
      ghost var begun := View();
      for n := 0 to |due|
        invariant View() == VisitAll(begun, due[..n], plans)
      {
        AttemptDelivery(Sweep, due[n], plans(due[n]));
        VisitMore(begun, due, plans, n);
      }
      assert due[..|due|] == due;
    }

    method RetryNow(id: MailId, plan: Plan) returns (r: Result<Row, Refusal>)
      modifies this
      ensures View() == if RetryRefusal(old(View()), id).Some? then old(View())
              else AttemptAll(old(View()), Manual, id, plan)
      ensures id !in old(log) <==> r == Err(NotFound)
      ensures id in old(log) && old(log)[id].status == Sent ==> r == Ok(old(log)[id]) && View() == old(View())
      ensures r == Err(ContentGone) <==>
              && id in old(log) && old(log)[id].status != Sent
              && id !in old(pending) && old(log)[id].payload.None?
      ensures RetryRefusal(old(View()), id) == Some(NotFound) ==> r == Err(NotFound)
      ensures RetryRefusal(old(View()), id) == Some(ContentGone) ==> r == Err(ContentGone)
      ensures RetryRefusal(old(View()), id) in {None, Some(AlreadySent)} ==> id in log && r == Ok(log[id])
    {
      if id !in log {
        return Err(NotFound);
      }
      if log[id].status == Sent {
        return Ok(log[id]);
      }
      if id !in pending && log[id].payload.None? {
        return Err(ContentGone);
      }
      AttemptKeepsRow(View(), Manual, id, plan);
      AttemptDelivery(Manual, id, plan);
      return Ok(log[id]);
    }

    /** A new process: the log survives, memory and every attempt under way do not. */
    method RestartProcess()
      modifies this
      ensures View() == Apply(old(View()), Restart)
      ensures log == old(log) && pending == map[] && order == [] && starting == {} && flights == map[] && !sweeping
    {
      h := Restarted(View()).h;
      pending, order, starting, flights, sweeping := map[], [], {}, map[], false;
    }
  }
}
