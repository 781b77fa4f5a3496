/**
 What lost writes lead to: runs of the mail queue that reach its bounds, from any state that can
 be reached, and why a row may wait for a retry without its content.
 */
module MailLosses {
  import opened Clock
  import opened Wrappers
  import opened MailQueue

  ghost predicate Reached(q: Queue) {
    exists steps :: Runs(EMPTY_QUEUE, steps, q)
  }

  lemma ReachedNext(q: Queue, step: Step)
    requires Reached(q) && Enabled(q, step)
    ensures Reached(Apply(q, step))
  {
    var steps :| Runs(EMPTY_QUEUE, steps, q);
    RunsOn(EMPTY_QUEUE, steps, q, step);
  }

  lemma ReachedKeeps(q: Queue)
    requires Reached(q)
    ensures Inv(q)
  {
    var steps :| Runs(EMPTY_QUEUE, steps, q);
    RunKeeps(EMPTY_QUEUE, steps, q);
  }

  lemma ReachedKeys(q: Queue)
    requires Reached(q)
    ensures KeysOk(q) && SweepOk(q)
  {
    ReachedKeeps(q);
  }

  /** No attempt on the mail is under way, and memory holds what was rendered. */
  ghost predicate AtRest(q: Queue, id: MailId) {
    && KeysOk(q) && id in q.log && id !in q.flights && q.log[id].status != Sent
    && id in q.pending && TraceOf(q, id).content == Some(q.pending[id].rendered)
  }

  /** An answered attempt, as far as its own mail goes. */
  ghost predicate AskedFor(q: Queue, id: MailId, m: Mailing) {
    && KeysOk(q) && id in q.log && id in q.flights && MailOf(q, id) == m
    && id in q.pending && TraceOf(q, id).content == Some(q.pending[id].rendered)
  }

  // A sweep may be going on already. It can be brought to its end without touching a given mail.

  /** All of the mail is as it was, but for its place in the list of a sweep. */
  ghost predicate Untouched(q: Queue, q': Queue, id: MailId) {
    && KeysOk(q') && id in q.log && id in q'.log
    && MailOf(q', id).(listed := false) == MailOf(q, id).(listed := false)
    && (id in q.pending && !q.pending[id].terminal ==> id in q'.pending && q'.pending[id] == q.pending[id])
  }

  lemma LostWriteUntouched(q: Queue, other: MailId, id: MailId)
    requires KeysOk(q) && other in q.flights && id in q.log && id != other
    ensures var r := WriteNow(q, other, false, 0);
            && Untouched(q, r, id) && ToVisit(r) == ToVisit(q)
            && r.flights.Keys ==
                 (if q.flights[other].write.SentWrite? then q.flights.Keys else q.flights.Keys - {other})
            && (other in r.flights ==> !r.flights[other].write.SentWrite?)
  {
    WriteKeepsKeys(q, other, false, 0);
    WriteOtherMail(q, other, false, 0, id);
  }

  /** The process goes on after losing the writes of an attempt. */
  lemma Landing(q: Queue, other: MailId, id: MailId) returns (q': Queue)
    requires Reached(q) && other in q.flights && id in q.log && id != other
    ensures Reached(q') && Untouched(q, q', id) && ToVisit(q') == ToVisit(q)
    ensures q'.flights.Keys == q.flights.Keys - {other}
  {
    ReachedKeys(q);
    q' := Apply(q, WriteRow(other, false, 0));
    ReachedNext(q, WriteRow(other, false, 0));
    LostWriteUntouched(q, other, id);
    if other in q'.flights {
      ReachedNext(q', WriteRow(other, false, 0));
      LostWriteUntouched(q', other, id);
      q' := Apply(q', WriteRow(other, false, 0));
    }
  }

  lemma RecoverUntouched(q: Queue, other: MailId, rendered: Mail, id: MailId)
    requires KeysOk(q) && other in q.log && id in q.log && id != other
    ensures Untouched(q, Recover(q, other, rendered), id)
  {
    RecoverIsThis(q, other, rendered);
    assert MailOf(Recover(q, other, rendered), id) == MailOf(q, id);
  }

  /** A visit that finds no transport. */
  lemma VisitUntouched(q: Queue, other: MailId, id: MailId)
    requires KeysOk(q) && id in q.log && id !in q.flights && (other == id ==> AtRest(q, id))
    ensures Untouched(q, AskNow(q, Sweep, other, NoTransport), id)
  {
    if other != id && other in q.log && q.log[other].status != Sent && Content(q, other).Some? {
      RecoverUntouched(q, other, Content(q, other).value, id);
    }
  }

  lemma Visit(q: Queue, id: MailId) returns (q': Queue)
    requires Reached(q) && AtRest(q, id) && ToVisit(q) != [] && !Visiting(q) && ToVisit(q)[0] !in q.flights
    ensures Reached(q') && Untouched(q, q', id) && ToVisit(q') == ToVisit(q)[1..] && id !in q'.flights
  {
    var other := ToVisit(q)[0];
    ReachedKeys(q);
    SweepLaunchedIsThis(q, other);
    VisitUntouched(Launched(q, Sweep, other), other, id);
    AskLeavesRows(Launched(q, Sweep, other), Sweep, other, NoTransport);
    ReachedNext(q, Ask(Sweep, other, NoTransport));
    q' := Apply(q, Ask(Sweep, other, NoTransport));
  }

  /** A mail that waits for a retry, as its entry does. */
  ghost predicate Waits(q: Queue, id: MailId) {
    AtRest(q, id) && !q.pending[id].terminal
  }

  lemma {:induction false} SweepOver(q: Queue, id: MailId) returns (q': Queue)
    requires Reached(q) && Waits(q, id)
    ensures Reached(q') && q'.sweep.None? && !Visiting(q') && Waits(q', id) && Untouched(q, q', id)
    decreases |ToVisit(q)|, q.flights.Keys, q.sweep.Some?
  {
    ReachedKeys(q);
    if q.sweep.None? {
      q' := q;
    } else if Visiting(q) {
      var other :| other in q.flights && q.flights[other].trigger == Sweep;
      var q1 := Landing(q, other, id);
      q' := SweepOver(q1, id);
    } else if ToVisit(q) == [] {
      ReachedNext(q, EndSweep);
      q' := Apply(q, EndSweep);
    } else if ToVisit(q)[0] in q.flights {
      var q1 := Landing(q, ToVisit(q)[0], id);
      q' := SweepOver(q1, id);
    } else {
      var q1 := Visit(q, id);
      q' := SweepOver(q1, id);
    }
  }

  // A sweep begins with any of the rows that are due.

  lemma DistinctWith(id: MailId, rest: seq<MailId>)
    requires Distinct(rest) && id !in rest
    ensures Distinct([id] + rest) && forall i :: i in [id] + rest <==> i == id || i in rest
  {
  }

  lemma {:induction false} ListOf(ids: set<MailId>) returns (list: seq<MailId>)
    ensures (forall id :: id in list <==> id in ids) && Distinct(list)
    decreases ids
  {
    if ids == {} {
      list := [];
    } else {
      var id :| id in ids;
      var rest := ListOf(ids - {id});
      list := [id] + rest;
      DistinctWith(id, rest);
    }
  }

  lemma DueFirst(log: map<MailId, Row>, id: MailId, now: Time) returns (due: seq<MailId>)
    requires id in log && Due(log[id], now)
    ensures IsDueList(log, due, now) && due != [] && due[0] == id
  {
    var rest := ListOf(set i | i in log && Due(log[i], now) && i != id);
    due := [id] + rest;
    DistinctWith(id, rest);
  }

  lemma AskedAtRest(q: Queue, trigger: Trigger, id: MailId, answer: Answer)
    requires AtRest(q, id) && answer != NoTransport
    ensures AskedFor(AskNow(q, trigger, id, answer), id, AskedMail(MailOf(q, id), trigger, answer))
  {
    assert Recover(q, id, q.pending[id].rendered) == q;
    AskedIsThis(q, trigger, id, answer);
  }

  lemma EntryWaits(q: Queue, id: MailId)
    requires Inv(q) && AtRest(q, id) && q.log[id].nextRetryAt.Some?
    ensures Waits(q, id)
  {
    assert EntryOk(q.log[id], TraceOf(q, id), q.pending[id]);
  }

  lemma SweepAsks(q: Queue, id: MailId, answer: Answer, now: Time) returns (q': Queue)
    requires Reached(q) && AtRest(q, id) && Due(q.log[id], now) && answer != NoTransport
    ensures Reached(q') && AskedFor(q', id, AskedMail(MailOf(q, id).(listed := false), Sweep, answer))
  {
    ReachedKeeps(q);
    EntryWaits(q, id);
    var q1 := SweepOver(q, id);
    var due := DueFirst(q1.log, id, now);
    ReachedNext(q1, BeginSweep(due, now));
    FirstVisitIsThis(q1, id, due);
    q' := FirstVisit(Begun(q1, due), id, answer);
  }

  lemma FirstVisitIsThis(q: Queue, id: MailId, due: seq<MailId>)
    requires id in q.log && q.sweep.None?
    ensures MailOf(Begun(q, due), id).(listed := false) == MailOf(q, id).(listed := false)
    ensures AtRest(q, id) ==> AtRest(Begun(q, due), id)
    ensures ToVisit(Begun(q, due)) == due && Visiting(Begun(q, due)) == Visiting(q)
  {
  }

  lemma FirstVisit(q: Queue, id: MailId, answer: Answer) returns (q': Queue)
    requires Reached(q) && AtRest(q, id) && answer != NoTransport
    requires ToVisit(q) != [] && ToVisit(q)[0] == id && !Visiting(q)
    ensures Reached(q') && AskedFor(q', id, AskedMail(MailOf(q, id).(listed := false), Sweep, answer))
  {
    ReachedKeys(q);
    SweepLaunchedIsThis(q, id);
    AskedAtRest(Launched(q, Sweep, id), Sweep, id, answer);
    ReachedNext(q, Ask(Sweep, id, answer));
    q' := Apply(q, Ask(Sweep, id, answer));
  }

  lemma RowWritten(q: Queue, id: MailId, m: Mailing, written: bool, now: Time) returns (q': Queue)
    requires Reached(q) && AskedFor(q, id, m) && (m.flight.value.write.SentWrite? ==> !written)
    ensures Reached(q') && KeysOk(q') && id in q'.log && MailOf(q', id) == WrittenMail(m, written, now)
    ensures id in q'.pending && TraceOf(q', id).content == Some(q'.pending[id].rendered)
    ensures id in q'.flights <==> m.flight.value.write.SentWrite?
  {
    q' := Apply(q, WriteRow(id, written, now));
    ReachedNext(q, WriteRow(id, written, now));
    WriteIsThis(q, id, written, now);
    WriteIsMail(q, id, written, now);
  }

  /** A mail sent and its transport asked, in an empty queue. */
  lemma FirstAsked(mail: Mail, answer: Answer) returns (q: Queue)
    requires answer != NoTransport
    ensures Reached(q)
    ensures var trace :=
            NEW_TRACE.(content := Some(mail), started := 1, delivered := if answer == Accepted then [mail] else []);
            var write := if answer == Accepted then SentWrite else FailureWrite(answer == NotConfigured);
            var flight := Some(Flight(write, 1, First));
            AskedFor(q, 1, Mailing(Row(Queued, 0, None, Some(mail)), trace, flight, false, false))
  {
    var q1 := FirstSent(mail);
    q := Apply(q1, Ask(First, 1, answer));
    ReachedNext(q1, Ask(First, 1, answer));
    FirstLaunchedIsThis(q1, 1);
    AskedAtRest(Launched(q1, First, 1), First, 1, answer);
    assert [] + [mail] == [mail];
  }

  lemma FirstSent(mail: Mail) returns (q: Queue)
    ensures Reached(q) && q.starting == {1} && AtRest(q, 1)
    ensures MailOf(q, 1) ==
            Mailing(Row(Queued, 0, None, Some(mail)), NEW_TRACE.(content := Some(mail)), None, true, false)
  {
    var send := Send(1, Params(Some(mail), false, true, true));
    q := Apply(EMPTY_QUEUE, send);
    assert q.log == map[1 := Row(Queued, 0, None, Some(mail))] && q.pending == map[1 := Pending(mail, None, false)];
    assert Runs(EMPTY_QUEUE, [], EMPTY_QUEUE);
    ReachedNext(EMPTY_QUEUE, send);
  }

  /** A row that went terminal early: its first attempt found no SMTP configuration. */
  lemma TerminalAfterOneAttempt(mail: Mail) returns (q: Queue)
    ensures Reached(q) && 1 in q.log && q.log[1] == Row(Failed, 1, None, None)
    ensures 1 in q.pending && 1 !in q.flights && !TraceOf(q, 1).sensitive
  {
    var q1 := FirstAsked(mail, NotConfigured);
    q := RowWritten(q1, 1, MailOf(q1, 1), true, 0);
  }

  /**
   A mail that was accepted and whose `sent` update is lost before the fourth attempt is scheduled,
   and delivered, again.
   */
  lemma LostSentIsSentAgain(q: Queue, id: MailId, m: Mailing, now: Time) returns (q': Queue)
    requires Reached(q) && AskedFor(q, id, m) && m.flight.value.write.SentWrite?
    requires m.flight.value.attempts < MAX_ATTEMPTS
    ensures Reached(q') && |TraceOf(q', id).delivered| == |m.trace.delivered| + 1
  {
    var q1 := RowWritten(q, id, m, false, now);
    var q2 := RowWritten(q1, id, WrittenMail(m, false, now), true, now);
    q' := SweepAsks(q2, id, Accepted, now + RetryDelay(m.flight.value.attempts));
  }

  /** So a mail may be delivered twice, and no restart is needed for it. */
  lemma DeliveredTwice(mail: Mail) returns (q: Queue)
    ensures Reached(q) && TraceOf(q, 1).delivered == [mail, mail]
  {
    var q1 := FirstAsked(mail, Accepted);
    var q2 := RowWritten(q1, 1, MailOf(q1, 1), false, 0);
    var q3 := RowWritten(q2, 1, MailOf(q2, 1), true, 0);
    q := SweepAsks(q3, 1, Accepted, MINUTE);
  }

  /**
   Accepted again and again, with neither the `sent` update nor the failure recorded, a row stays as
   it was, and due.
   */
  lemma {:induction false} LostDeliveries(q: Queue, id: MailId, now: Time, n: nat) returns (q': Queue)
    requires Reached(q) && AtRest(q, id) && Due(q.log[id], now)
    ensures Reached(q') && AtRest(q', id) && q'.log[id] == q.log[id]
    ensures |TraceOf(q', id).delivered| == |TraceOf(q, id).delivered| + n
    ensures TraceOf(q', id).lostSent == TraceOf(q, id).lostSent + n
    decreases n
  {
    if n == 0 {
      q' := q;
    } else {
      var q1 := LostDeliveries(q, id, now, n - 1);
      var q2 := SweepAsks(q1, id, Accepted, now);
      var q3 := RowWritten(q2, id, MailOf(q2, id), false, now);
      q' := RowWritten(q3, id, MailOf(q3, id), false, now);
    }
  }

  lemma SentWritten(q: Queue, id: MailId, m: Mailing) returns (q': Queue)
    requires Reached(q) && AskedFor(q, id, m) && m.flight.value.write.SentWrite?
    ensures Reached(q') && id in q'.log && id !in q'.flights && q'.log[id].status == Sent && TraceOf(q', id) == m.trace
  {
    q' := Apply(q, WriteRow(id, true, 0));
    ReachedNext(q, WriteRow(id, true, 0));
  }

  /** The bound on deliveries is reached, for every number of lost `sent` updates. */
  lemma OnceAndLost(mail: Mail, n: nat) returns (q: Queue)
    ensures Reached(q) && 1 in q.log && 1 !in q.flights && q.log[1].status == Sent
    ensures TraceOf(q, 1).lostSent == n && |TraceOf(q, 1).delivered| == 1 + n
  {
    q := FirstAsked(mail, Rejected);
    q := RowWritten(q, 1, MailOf(q, 1), true, 0);
    q := LostDeliveries(q, 1, MINUTE, n);
    q := SweepAsks(q, 1, Accepted, MINUTE);
    q := SentWritten(q, 1, MailOf(q, 1));
  }

  /** Swept attempts whose record is lost leave the row as it was, and due. */
  lemma {:induction false} LostSweeps(q: Queue, id: MailId, now: Time, n: nat) returns (q': Queue)
    requires Reached(q) && AtRest(q, id) && Due(q.log[id], now)
    ensures Reached(q') && AtRest(q', id) && q'.log[id] == q.log[id]
    ensures var t := TraceOf(q, id); TraceOf(q', id) == t.(swept := t.swept + n, lostSweeps := t.lostSweeps + n)
    decreases n
  {
    if n == 0 {
      q' := q;
    } else {
      var q1 := LostSweeps(q, id, now, n - 1);
      var q2 := SweepAsks(q1, id, Rejected, now);
      q' := RowWritten(q2, id, MailOf(q2, id), false, now);
    }
  }

  lemma RecordedSweep(q: Queue, id: MailId, now: Time) returns (q': Queue)
    requires Reached(q) && AtRest(q, id) && Due(q.log[id], now)
    ensures Reached(q') && AtRest(q', id) && q'.log[id].status == Failed
    ensures q'.log[id].attempts == q.log[id].attempts + 1
    ensures q.log[id].attempts < 3 ==> q'.log[id].nextRetryAt.Some?
    ensures TraceOf(q', id).swept == TraceOf(q, id).swept + 1 && TraceOf(q', id).lostSweeps == TraceOf(q, id).lostSweeps
    ensures TraceOf(q', id).started == TraceOf(q, id).started
  {
    var q1 := SweepAsks(q, id, Rejected, now);
    q' := RowWritten(q1, id, MailOf(q1, id), true, now);
  }

  /** The bound on automatic attempts is reached, for every number of lost records. */
  lemma FourAndLost(mail: Mail, n: nat) returns (q: Queue)
    ensures Reached(q) && 1 in q.log && 1 !in q.flights
    ensures TraceOf(q, 1).lostSweeps == n && TraceOf(q, 1).started + TraceOf(q, 1).swept == MAX_ATTEMPTS + n
  {
    q := FirstAsked(mail, Rejected);
    q := RowWritten(q, 1, MailOf(q, 1), true, 0);
    q := LostSweeps(q, 1, MINUTE, n);
    q := RecordedSweep(q, 1, q.log[1].nextRetryAt.value);
    q := RecordedSweep(q, 1, q.log[1].nextRetryAt.value);
    q := RecordedSweep(q, 1, q.log[1].nextRetryAt.value);
  }

  // ---- rows without content -------------------------------------------------------------

  /**
   Why the payload of a live row may be missing: a row that went terminal early lost it, and a
   manual retry from memory that fails schedules retries again without storing it anew.
   */
  lemma RetriedWithoutPayload(q: Queue, id: MailId, now: Time) returns (asked: Queue, failed: Queue)
    requires Inv(q) && id in q.pending && id !in q.flights && q.log[id].status == Failed && q.log[id].nextRetryAt.None?
    ensures asked == Apply(q, Ask(Manual, id, Rejected)) && failed == Apply(asked, WriteRow(id, true, now))
    ensures id in q.log && id in failed.log
    ensures failed.log[id].payload.None? && (Live(failed.log[id]) <==> q.log[id].attempts < 3)
  {
    MailAndEntry(q, id);
    RejectedMail(MailOf(q, id), now);
    ManualIsAsked(q, id, Rejected);
    asked := AskNow(q, Manual, id, Rejected);
    AskedAtRest(q, Manual, id, Rejected);
    failed := FailureWritten(asked, id, now);
  }

  lemma FailureWritten(q: Queue, id: MailId, now: Time) returns (q': Queue)
    requires KeysOk(q) && id in q.flights
    ensures q' == Apply(q, WriteRow(id, true, now)) && id in q'.log
    ensures MailOf(q', id) == WrittenMail(MailOf(q, id), true, now)
  {
    q' := WriteNow(q, id, true, now);
    WriteIsMail(q, id, true, now);
  }

  lemma ManualIsAsked(q: Queue, id: MailId, answer: Answer)
    requires id in q.log && id in q.pending && q.log[id].status != Sent
    ensures Apply(q, Ask(Manual, id, answer)) == AskNow(q, Manual, id, answer)
  {
  }

  lemma MailAndEntry(q: Queue, id: MailId)
    requires Inv(q) && id in q.pending
    ensures KeysOk(q) && MailOk(MailOf(q, id)) && EntryOk(q.log[id], TraceOf(q, id), q.pending[id])
  {
  }

  lemma RejectedMail(m: Mailing, now: Time)
    requires RowOk(m.row, m.trace) && m.row.status == Failed && m.row.nextRetryAt.None? && m.trace.content.Some?
    ensures var row := WrittenMail(AskedMail(m, Manual, Rejected), true, now).row;
            row.payload.None? && (Live(row) <==> m.row.attempts < 3)
  {
  }
}
