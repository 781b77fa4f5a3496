/** What becomes of a mail from the moment it is sent, over every run of the queue. */
module MailSends {
  import opened Clock
  import opened Wrappers
  import opened MailQueue

  /** What `send` needs to deliver anything: a recipient, mail switched on and a rendering. */
  predicate Deliverable(params: Params) {
    params.hasRecipient && params.enabled && params.rendered.Some?
  }

  /** The trace of a mail remembers what it was sent as. */
  ghost predicate MadeFrom(t: Trace, params: Params) {
    Deliverable(params) ==> t.content == params.rendered && t.sensitive == params.sensitive
  }

  /**
   A mail that lacks none of the three gets a queued row, its content in memory and a first attempt
   to start; any other a skipped row and nothing else. Other mails keep their rows and attempts.
   */
  lemma SendDecides(q: Queue, id: MailId, params: Params)
    requires KeysOk(q) && Enabled(q, Send(id, params))
    ensures var q' := Apply(q, Send(id, params));
            && id in q'.log && id !in q'.flights && TraceOf(q', id).delivered == [] && MadeFrom(TraceOf(q', id), params)
            && (if Deliverable(params) then
                  && q'.log[id] == Row(Queued, 0, None, if params.sensitive then None else params.rendered)
                  && q'.starting == q.starting + {id}
                  && id in q'.pending && q'.pending[id].rendered == params.rendered.value
                else
                  q'.log[id] == Row(Skipped, 0, None, None) && q'.starting == q.starting && q'.pending == q.pending)
            && forall i | i in q.log :: i in q'.log && q'.log[i] == q.log[i]
  {
    SavedRow(q, id, params);
    if Deliverable(params) {
      HeldRow(Saved(q, id, params), id, params.rendered.value);
    }
  }

  lemma SavedRow(q: Queue, id: MailId, params: Params)
    ensures var r := Saved(q, id, params);
            && r.log.Keys == q.log.Keys + {id} && (forall i | i in q.log && i != id :: r.log[i] == q.log[i])
            && (if Deliverable(params)
                then r.log[id] == Row(Queued, 0, None, if params.sensitive then None else params.rendered)
                else r.log[id] == Row(Skipped, 0, None, None))
            && TraceOf(r, id).delivered == [] && MadeFrom(TraceOf(r, id), params)
            && r.starting == q.starting && r.flights == q.flights && r.pending == q.pending
  {
  }

  lemma HeldRow(q: Queue, id: MailId, mail: Mail)
    requires id !in q.pending
    ensures var r := Hold(q, id, mail);
            && r.log == q.log && r.h == q.h && r.flights == q.flights && r.starting == q.starting + {id}
            && id in r.pending && r.pending[id].rendered == mail
  {
    EvictIs(q);
  }

  lemma SkippedIsFinal(q: Queue, step: Step, id: MailId)
    requires Inv(q) && Enabled(q, step) && id in q.log
    ensures id in Apply(q, step).log && (Apply(q, step).log[id].status == Skipped <==> q.log[id].status == Skipped)
  {
    assert MailOk(MailOf(q, id));
    if !(step.WriteRow? && step.id == id) {
      OtherRow(q, step, id);
    }
  }

  lemma {:induction false} StaysSkipped(q: Queue, steps: seq<Step>, q': Queue, id: MailId)
    requires Inv(q) && Runs(q, steps, q') && id in q.log
    ensures id in q'.log && (q'.log[id].status == Skipped <==> q.log[id].status == Skipped)
    decreases |steps|
  {
    if steps != [] {
      StepKeeps(q, steps[0]);
      SkippedIsFinal(q, steps[0], id);
      StaysSkipped(Apply(q, steps[0]), steps[1..], q', id);
    }
  }

  /**
   In every later state of a run a mail is skipped exactly if one of the three was missing when it
   was sent; and then no attempt is begun or under way and nothing of it was ever delivered.
   */
  lemma SkippedExactly(before: seq<Step>, q: Queue, id: MailId, params: Params, after: seq<Step>, q': Queue)
    requires Runs(EMPTY_QUEUE, before, q) && Enabled(q, Send(id, params)) && Runs(Apply(q, Send(id, params)), after, q')
    ensures id in q'.log && (q'.log[id].status == Skipped <==> !Deliverable(params))
    ensures !Deliverable(params) ==>
              && id !in q'.starting && id !in q'.flights && id !in q'.pending && id !in ToVisit(q')
              && q'.log[id].payload.None? && TraceOf(q', id).delivered == [] && RetryRefusal(q', id).Some?
  {
    RunKeeps(EMPTY_QUEUE, before, q);
    SendDecides(q, id, params);
    StepKeeps(q, Send(id, params));
    StaysSkipped(Apply(q, Send(id, params)), after, q', id);
    RunKeeps(Apply(q, Send(id, params)), after, q');
    if !Deliverable(params) {
      SkippedIsIdle(q', id);
    }
  }

  lemma AskedKeepsContent(q: Queue, trigger: Trigger, id: MailId, rendered: Mail, answer: Answer, i: MailId)
    requires id in q.log
    ensures TraceOf(Asked(q, trigger, id, rendered, answer), i).content == TraceOf(q, i).content
    ensures TraceOf(Asked(q, trigger, id, rendered, answer), i).sensitive == TraceOf(q, i).sensitive
  {
  }

  lemma AskKeepsContent(q: Queue, trigger: Trigger, id: MailId, answer: Answer, i: MailId)
    ensures TraceOf(AskNow(q, trigger, id, answer), i).content == TraceOf(q, i).content
    ensures TraceOf(AskNow(q, trigger, id, answer), i).sensitive == TraceOf(q, i).sensitive
  {
    if id in q.log && q.log[id].status != Sent && Content(q, id).Some? {
      var mail := Content(q, id).value;
      RecoverLeavesRows(q, id, mail);
      AskedKeepsContent(Recover(q, id, mail), trigger, id, mail, answer, i);
    }
  }

  lemma WriteKeepsContent(q: Queue, id: MailId, written: bool, now: Time, i: MailId)
    requires id in q.flights && id in q.log
    ensures TraceOf(WriteNow(q, id, written, now), i).content == TraceOf(q, i).content
    ensures TraceOf(WriteNow(q, id, written, now), i).sensitive == TraceOf(q, i).sensitive
  {
  }

  lemma StepKeepsContent(q: Queue, step: Step, id: MailId)
    requires Enabled(q, step) && id in q.h
    ensures id in Apply(q, step).h
    ensures TraceOf(Apply(q, step), id).content == TraceOf(q, id).content
    ensures TraceOf(Apply(q, step), id).sensitive == TraceOf(q, id).sensitive
  {
    match step
    case Ask(trigger, other, answer) => AskKeepsContent(Launched(q, trigger, other), trigger, other, answer, id);
    case WriteRow(other, written, now) =>
      if other in q.log {
        WriteKeepsContent(q, other, written, now, id);
      }
    case Send(other, params) => EvictIs(Saved(q, other, params));
    case _ =>
  }

  lemma {:induction false} RunKeepsContent(q: Queue, steps: seq<Step>, q': Queue, id: MailId)
    requires Runs(q, steps, q') && id in q.h
    ensures TraceOf(q', id).content == TraceOf(q, id).content && TraceOf(q', id).sensitive == TraceOf(q, id).sensitive
    decreases |steps|
  {
    if steps != [] {
      StepKeepsContent(q, steps[0], id);
      RunKeepsContent(Apply(q, steps[0]), steps[1..], q', id);
    }
  }

  /**
   Whatever happens later, all that is ever delivered of a mail is what it was rendered as when it
   was sent, and a row never holds it if it was sent as sensitive.
   */
  lemma SensitiveIsNeverStored(before: seq<Step>, q: Queue, id: MailId, params: Params, after: seq<Step>, q': Queue)
    requires Runs(EMPTY_QUEUE, before, q) && Enabled(q, Send(id, params)) && Runs(Apply(q, Send(id, params)), after, q')
    ensures id in q'.log && (params.sensitive ==> q'.log[id].payload.None?)
    ensures forall mail | mail in TraceOf(q', id).delivered :: params.rendered == Some(mail)
  {
    SkippedExactly(before, q, id, params, after, q');
    RunKeeps(EMPTY_QUEUE, before, q);
    SendDecides(q, id, params);
    StepKeeps(q, Send(id, params));
    RunKeeps(Apply(q, Send(id, params)), after, q');
    RunKeepsContent(Apply(q, Send(id, params)), after, q', id);
    assert MailOk(MailOf(q', id));
  }

  lemma OnlyContentIsDelivered(delivered: seq<Mail>, content: Option<Mail>)
    requires forall mail | mail in delivered :: content == Some(mail)
    ensures delivered == [] || content.Some?
  {
    if delivered != [] {
      assert content == Some(delivered[0]);
    }
  }

  lemma SkippedIsIdle(q: Queue, id: MailId)
    requires Inv(q) && id in q.log && q.log[id].status == Skipped
    ensures id !in q.starting && id !in q.flights && id !in q.pending && id !in ToVisit(q)
    ensures q.log[id].payload.None? && TraceOf(q, id).delivered == [] && RetryRefusal(q, id).Some?
  {
    var m := MailOf(q, id);
    assert MailOk(m);
    assert id in q.pending ==> EntryOk(q.log[id], TraceOf(q, id), q.pending[id]);
    OnlyContentIsDelivered(m.trace.delivered, m.trace.content);
  }

  // ---- content that is gone -------------------------------------------------------------

  /**
   A live row whose content is gone (a sensitive one after a restart) is given up by the next
   attempt: nothing is delivered, and once that is written no sweep picks it up again.
   */
  lemma GivenUpWithoutContent(steps: seq<Step>, q: Queue, trigger: Trigger, id: MailId, answer: Answer, now: Time)
    requires Runs(EMPTY_QUEUE, steps, q) && Enabled(q, Ask(trigger, id, answer)) && trigger != Manual
    requires id in q.log && Live(q.log[id]) && id !in q.pending && q.log[id].payload.None?
    ensures var q1 := Apply(q, Ask(trigger, id, answer));
            && Enabled(q1, WriteRow(id, true, now)) && TraceOf(q1, id).delivered == TraceOf(q, id).delivered
            && var q2 := Apply(q1, WriteRow(id, true, now));
              q2.log[id] == Row(Failed, q.log[id].attempts, None, None) && forall later :: !Due(q2.log[id], later)
  {
  }

  /** A manual retry that is refused changes nothing, and it is refused exactly for a row without content. */
  lemma RefusedRetry(q: Queue, id: MailId, answer: Answer)
    requires id in q.log && q.log[id].status != Sent
    ensures RetryRefusal(q, id).Some? <==> id !in q.pending && q.log[id].payload.None?
    ensures RetryRefusal(q, id).Some? ==> Apply(q, Ask(Manual, id, answer)) == q
  {
  }
}
