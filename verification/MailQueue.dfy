/**
 The mail queue: log rows in the database, rendered mails in memory, immediate attempts, the
 retry sweep, manual retries and restarts. An attempt is two steps or three: the transport
 answers, and then a log row is written; a write may fail, and the process may end in between.
 A sweep is as many attempts as rows were due when it began, with anything in between.
 */
module MailQueue {
  import opened Clock
  import opened Wrappers

  type MailId = nat

  /** A rendered mail: subject, HTML and text. */
  type Mail = string

  const MAX_ATTEMPTS: int := 4
  const MAX_PENDING: int := 500

  /** RETRY_DELAYS_MINUTES, in milliseconds, after the first, second and third attempt. */
  function RetryDelay(attempts: int): int {
    if attempts <= 1 then MINUTE else if attempts == 2 then 5 * MINUTE else 15 * MINUTE
  }

  datatype Status = Queued | Skipped | Sent | Failed

  datatype Row = Row(status: Status, attempts: nat, nextRetryAt: Option<Time>, payload: Option<Mail>)

  datatype Pending = Pending(rendered: Mail, nextRetryAt: Option<Time>, terminal: bool)

  /** What the transport says: it cannot be built, is not configured, accepts the mail or rejects it. */
  datatype Answer = NoTransport | NotConfigured | Accepted | Rejected

  /** Who asked for the attempt: `send` itself, the sweep or an administrator. */
  datatype Trigger = First | Sweep | Manual

  /** What an attempt under way has still to write. */
  datatype Write = GiveUpWrite | FailureWrite(force: bool) | SentWrite

  datatype Flight = Flight(write: Write, attempts: nat, trigger: Trigger)

  /** A swept attempt that reached the transport. */
  predicate Swept(f: Flight) {
    f.trigger == Sweep && !f.write.GiveUpWrite?
  }

  /**
   What happened to a mail so far. None of it is stored; the statements below are about it.
   `started` and `swept` count attempts that reached the transport, `lostSent` the deliveries
   whose `sent` update was lost, and `lostSweeps` the swept attempts of which no row tells.
   */
  datatype Trace = Trace(
    content: Option<Mail>,
    sensitive: bool,
    wentTerminal: bool,
    failedAt: Option<Time>,
    started: nat,
    swept: nat,
    lostSweeps: nat,
    delivered: seq<Mail>,
    lostSent: nat)

  const NEW_TRACE: Trace := Trace(None, false, false, None, 0, 0, 0, [], 0)

  /**
   `order` is the insertion order of `pending`; `starting` are the first attempts `send` has begun
   that have not reached the transport; `sweep` holds, while one is running, the rows it has still
   to visit.
   */
  datatype Queue = Queue(
    log: map<MailId, Row>,
    pending: map<MailId, Pending>,
    order: seq<MailId>,
    starting: set<MailId>,
    flights: map<MailId, Flight>,
    h: map<MailId, Trace>,
    sweep: Option<seq<MailId>>)

  const EMPTY_QUEUE: Queue := Queue(map[], map[], [], {}, map[], map[], None)

  datatype Params = Params(rendered: Option<Mail>, sensitive: bool, hasRecipient: bool, enabled: bool)

  datatype Step =
    | Send(id: MailId, params: Params)
    | Ask(trigger: Trigger, id: MailId, answer: Answer)
    | WriteRow(id: MailId, written: bool, now: Time)
    | BeginSweep(due: seq<MailId>, now: Time)
    | EndSweep
    | Restart

  /** A row the queue still means to deliver. */
  predicate Live(row: Row) {
    row.status == Queued || (row.status == Failed && row.nextRetryAt.Some?)
  }

  predicate Due(row: Row, now: Time) {
    row.status == Failed && row.nextRetryAt.Some? && row.nextRetryAt.value <= now
  }

  /** What `find` returns: each row due, once, in any order. */
  ghost predicate IsDueList(log: map<MailId, Row>, due: seq<MailId>, now: Time) {
    && (forall id :: id in due <==> id in log && Due(log[id], now))
    && Distinct(due)
  }

  ghost predicate Distinct(ids: seq<MailId>) {
    forall i, j | 0 <= i < j < |ids| :: ids[i] != ids[j]
  }

  function ToVisit(q: Queue): seq<MailId> {
    if q.sweep.Some? then q.sweep.value else []
  }

  /** The sweep is waiting for an attempt of its own. */
  predicate Visiting(q: Queue) {
    exists id | id in q.flights :: q.flights[id].trigger == Sweep
  }

  /**
   The sweep asks for one attempt after the other and waits for each. Of manual retries it is
   assumed that they do not overlap with another attempt on their row, begun before or after.
   */
  ghost predicate Enabled(q: Queue, step: Step) {
    match step
    case Send(id, _) => id !in q.log && id !in q.h
    case Ask(trigger, id, _) =>
      && (trigger == Manual ==> id !in q.flights && id !in q.starting)
      && (id in q.flights ==> q.flights[id].trigger != Manual)
      && (trigger == First ==> id in q.starting)
      && (trigger == Sweep ==> ToVisit(q) != [] && ToVisit(q)[0] == id && !Visiting(q))
    case WriteRow(id, _, _) => id in q.flights
    case BeginSweep(due, now) => IsDueList(q.log, due, now)
    case EndSweep => q.sweep == Some([]) && !Visiting(q)
    case Restart => true
  }

  // ---- the map of pending mails ---------------------------------------------------------

  function Without(order: seq<MailId>, id: MailId): seq<MailId> {
    if order == [] then []
    else if order[0] == id then Without(order[1..], id) else [order[0]] + Without(order[1..], id)
  }

  function FirstTerminal(order: seq<MailId>, pending: map<MailId, Pending>): (r: Option<MailId>)
    ensures r.Some? ==> r.value in pending && pending[r.value].terminal
  {
    if order == [] then None
    else if order[0] in pending && pending[order[0]].terminal then Some(order[0])
    else FirstTerminal(order[1..], pending)
  }

  function Forget(q: Queue, id: MailId): Queue {
    q.(pending := q.pending - {id}, order := Without(q.order, id))
  }

  function Evict(q: Queue): Queue {
    var victim := FirstTerminal(q.order, q.pending);
    if |q.pending| < MAX_PENDING || victim.None? then q else Forget(q, victim.value)
  }

  function Remember(q: Queue, id: MailId, rendered: Mail): Queue {
    q.(pending := q.pending[id := Pending(rendered, None, false)],
       order := if id in q.pending then q.order else q.order + [id])
  }

  // ---- attempts -------------------------------------------------------------------------

  function TraceOf(q: Queue, id: MailId): Trace {
    if id in q.h then q.h[id] else NEW_TRACE
  }

  function FlightOf(q: Queue, id: MailId): Option<Flight> {
    if id in q.flights then Some(q.flights[id]) else None
  }

  function Content(q: Queue, id: MailId): Option<Mail>
    requires id in q.log
  {
    if id in q.pending then Some(q.pending[id].rendered) else q.log[id].payload
  }

  function Recover(q: Queue, id: MailId, rendered: Mail): Queue {
    if id in q.pending then q else Remember(Evict(q), id, rendered)
  }

  datatype Refusal = NotFound | AlreadySent | ContentGone

  function RetryRefusal(q: Queue, id: MailId): Option<Refusal> {
    if id !in q.log then Some(NotFound)
    else if q.log[id].status == Sent then Some(AlreadySent)
    else if id !in q.pending && q.log[id].payload.None? then Some(ContentGone)
    else None
  }

  /** The attempt reaches the transport: it is counted, and what it has to write depends on the answer. */
  function Asked(q: Queue, trigger: Trigger, id: MailId, rendered: Mail, answer: Answer): Queue
    requires id in q.log
  {
    var write := if answer == Accepted then SentWrite else FailureWrite(answer == NotConfigured);
    var t := TraceOf(q, id);
    if answer == NoTransport then q
    else q.(flights := q.flights[id := Flight(write, q.log[id].attempts + 1, trigger)],
            h := q.h[id := t.(started := t.started + (if trigger == First then 1 else 0),
                              swept := t.swept + (if trigger == Sweep then 1 else 0),
                              delivered := if answer == Accepted then t.delivered + [rendered] else t.delivered)])
  }

  /** Nothing to send is left of a row still meant to be delivered: it is to be given up. */
  function GivingUp(q: Queue, trigger: Trigger, id: MailId): Queue
    requires id in q.log
  {
    q.(flights := q.flights[id := Flight(GiveUpWrite, q.log[id].attempts, trigger)])
  }

  function AskNow(q: Queue, trigger: Trigger, id: MailId, answer: Answer): Queue {
    if id !in q.log || q.log[id].status == Sent then Forget(q, id)
    else
      var rendered := Content(q, id);
      if rendered.Some? then Asked(Recover(q, id, rendered.value), trigger, id, rendered.value, answer)
      else if Live(q.log[id]) then GivingUp(q, trigger, id)
      else q
  }

  /** The row and the entry after a failed attempt was recorded. */
  function Fail(q: Queue, id: MailId, attempts: nat, force: bool, now: Time): Queue
    requires id in q.log
  {
    var terminal := force || attempts >= MAX_ATTEMPTS;
    var next := if terminal then None else Some(now + RetryDelay(attempts));
    var t := TraceOf(q, id);
    q.(log := q.log[id := Row(Failed, attempts, next, if terminal then None else q.log[id].payload)],
       pending := if id !in q.pending then q.pending
                  else q.pending[id := q.pending[id].(nextRetryAt := next, terminal := terminal)],
       h := q.h[id := t.(failedAt := Some(now), wentTerminal := t.wentTerminal || terminal)])
  }

  /** Nothing is left to send with: a row still meant to be delivered is given up. */
  function GiveUp(q: Queue, id: MailId): Queue
    requires id in q.log
  {
    q.(log := q.log[id := q.log[id].(status := Failed, nextRetryAt := None)],
       h := q.h[id := TraceOf(q, id).(wentTerminal := true)])
  }

  function MarkSent(q: Queue, id: MailId, attempts: nat): Queue
    requires id in q.log
  {
    Forget(q.(log := q.log[id := Row(Sent, attempts, None, None)]), id)
  }

  function Landed(q: Queue, id: MailId): Queue {
    q.(flights := q.flights - {id})
  }

  /** What is lost with a write that was not made. */
  function Lose(t: Trace, f: Flight): Trace {
    t.(lostSweeps := t.lostSweeps + (if Swept(f) then 1 else 0),
       lostSent := t.lostSent + (if f.write.SentWrite? then 1 else 0))
  }

  /** After a `sent` update that fails the code goes on to record a failure. */
  function Unsent(q: Queue, id: MailId): Queue
    requires id in q.flights
  {
    var t := TraceOf(q, id);
    q.(flights := q.flights[id := q.flights[id].(write := FailureWrite(false))],
       h := q.h[id := t.(lostSent := t.lostSent + 1)])
  }

  function WriteNow(q: Queue, id: MailId, written: bool, now: Time): Queue
    requires id in q.flights && id in q.log
  {
    var f := q.flights[id];
    if !written && f.write.SentWrite? then Unsent(q, id)
    else if !written then Landed(q, id).(h := q.h[id := Lose(TraceOf(q, id), f)])
    else match f.write
      case GiveUpWrite => GiveUp(Landed(q, id), id)
      case FailureWrite(force) => Fail(Landed(q, id), id, f.attempts, force, now)
      case SentWrite => MarkSent(Landed(q, id), id, f.attempts)
  }

  function StatusOf(params: Params): Status {
    if !params.hasRecipient || !params.enabled || params.rendered.None? then Skipped else Queued
  }

  /** The row `send` writes; a rendering that carries a sensitive value is never stored. */
  function Saved(q: Queue, id: MailId, params: Params): Queue {
    if StatusOf(params) == Skipped then q.(log := q.log[id := Row(Skipped, 0, None, None)], h := q.h[id := NEW_TRACE])
    else
      q.(log := q.log[id := Row(Queued, 0, None, if params.sensitive then None else params.rendered)],
         h := q.h[id := NEW_TRACE.(content := params.rendered, sensitive := params.sensitive)])
  }

  function Hold(q: Queue, id: MailId, mail: Mail): Queue {
    var held := Remember(Evict(q), id, mail);
    held.(starting := held.starting + {id})
  }

  /** Memory goes, and with it every write not yet made and the rest of a sweep. */
  function Restarted(q: Queue): Queue {
    var h := map i | i in q.h :: if i in q.flights then Lose(q.h[i], q.flights[i]) else q.h[i];
    Queue(q.log, map[], [], {}, map[], h, None)
  }

  /** An attempt begins: it is no longer the next one `send` or the sweep has to make. */
  function Launched(q: Queue, trigger: Trigger, id: MailId): Queue {
    match trigger
    case First => q.(starting := q.starting - {id})
    case Sweep => if ToVisit(q) == [] then q else q.(sweep := Some(ToVisit(q)[1..]))
    case Manual => q
  }

  /** A sweep that finds another one running returns at once. */
  function Begun(q: Queue, due: seq<MailId>): Queue {
    if q.sweep.Some? then q else q.(sweep := Some(due))
  }

  function Apply(q: Queue, step: Step): Queue {
    match step
    case Send(id, params) =>
      var saved := Saved(q, id, params);
      if StatusOf(params) == Skipped then saved else Hold(saved, id, params.rendered.value)
    case Ask(trigger, id, answer) =>
      if trigger == Manual && RetryRefusal(q, id).Some? then q
      else AskNow(Launched(q, trigger, id), trigger, id, answer)
    case WriteRow(id, written, now) => if id in q.flights && id in q.log then WriteNow(q, id, written, now) else q
    case BeginSweep(due, _) => Begun(q, due)
    case EndSweep => q.(sweep := None)
    case Restart => Restarted(q)
  }

  // ---- the invariant --------------------------------------------------------------------

  function Least3(n: nat): nat {
    if n <= 3 then n else 3
  }

  /**
   How many swept attempts the row tells of, at most: all but the first, and three. One fewer has
   been made while the row waits to be visited, and one more than the row tells of while one is
   under way.
   */
  function SweepsRecorded(m: Mailing): nat {
    var n := m.row.attempts;
    if n == 0 then 0
    else if m.flight.Some? && Swept(m.flight.value) then Least3(n)
    else if m.listed then Least3(n) - 1
    else Least3(n - 1)
  }

  ghost predicate RowOk(row: Row, t: Trace) {
    && (row.status == Queued ==> row.attempts == 0 && t.content.Some?)
    && (row.status == Skipped ==> t.content.None?)
    && (row.payload.Some? ==> Live(row) && row.payload == t.content && !t.sensitive)
    && (row.nextRetryAt.Some? ==>
          && row.status == Failed && 1 <= row.attempts < MAX_ATTEMPTS && t.failedAt.Some?
          && row.nextRetryAt.value == t.failedAt.value + RetryDelay(row.attempts))
    && (row.status == Failed && row.nextRetryAt.None? ==> t.wentTerminal)
    && (Live(row) && !t.sensitive ==> (row.payload.Some? <==> !t.wentTerminal))
  }

  /** An attempt under way: the row is as it was when the transport was asked. */
  ghost predicate FlightOk(row: Row, t: Trace, f: Flight) {
    && row.status != Sent && row.status != Skipped
    && (f.write.GiveUpWrite? ==> Live(row) && row.payload.None?)
    && (!f.write.GiveUpWrite? ==> f.attempts == row.attempts + 1 && t.content.Some?)
    && (f.trigger == First ==> row.status == Queued)
    && (f.trigger == Sweep ==> row.attempts >= 1)
  }

  /** All there is about one mail. */
  datatype Mailing = Mailing(row: Row, trace: Trace, flight: Option<Flight>, toStart: bool, listed: bool)

  function MailOf(q: Queue, id: MailId): Mailing
    requires id in q.log
  {
    Mailing(q.log[id], TraceOf(q, id), FlightOf(q, id), id in q.starting, id in ToVisit(q))
  }

  ghost predicate CountsOk(m: Mailing) {
    && m.trace.started <= (if m.toStart then 0 else 1)
    && m.trace.swept <= m.trace.lostSweeps + SweepsRecorded(m)
    && |m.trace.delivered| == m.trace.lostSent + (if m.row.status == Sent then 1 else 0)
                              + (if m.flight.Some? && m.flight.value.write.SentWrite? then 1 else 0)
    && (forall mail | mail in m.trace.delivered :: m.trace.content == Some(mail))
  }

  /** A row the sweep will visit was due when the sweep began, and no first or swept attempt on it is under way. */
  ghost predicate ListedOk(m: Mailing) {
    && m.row.attempts >= 1 && m.row.status != Queued && m.row.status != Skipped
    && (m.flight.Some? ==> m.flight.value.trigger == Manual)
  }

  ghost predicate MailOk(m: Mailing) {
    && RowOk(m.row, m.trace) && CountsOk(m)
    && (m.flight.Some? ==> FlightOk(m.row, m.trace, m.flight.value))
    && (m.toStart ==> m.row.status == Queued && m.trace.content.Some? && m.flight.None?)
    && (m.listed ==> ListedOk(m))
  }

  ghost predicate EntryOk(row: Row, t: Trace, e: Pending) {
    && row.status != Sent && t.content == Some(e.rendered)
    && (e.terminal ==> row.status == Failed && row.nextRetryAt.None?)
  }

  ghost predicate MailsOk(q: Queue) {
    forall id | id in q.log :: MailOk(MailOf(q, id))
  }

  ghost predicate EntriesOk(q: Queue)
    requires KeysOk(q)
  {
    forall id | id in q.pending :: EntryOk(q.log[id], TraceOf(q, id), q.pending[id])
  }

  ghost predicate KeysOk(q: Queue) {
    q.h.Keys == q.log.Keys && q.starting <= q.log.Keys && q.flights.Keys <= q.log.Keys && q.pending.Keys <= q.log.Keys
  }

  ghost predicate SweepOk(q: Queue) {
    && (q.sweep.None? ==> !Visiting(q))
    && (forall id | id in ToVisit(q) :: id in q.log)
    && Distinct(ToVisit(q))
  }

  ghost predicate Inv(q: Queue) {
    KeysOk(q) && MailsOk(q) && EntriesOk(q) && SweepOk(q)
  }

  // ---- every step keeps it --------------------------------------------------------------

  lemma EvictIs(q: Queue)
    ensures Evict(q) == q.(pending := Evict(q).pending, order := Evict(q).order)
    ensures forall id | id in Evict(q).pending :: id in q.pending && Evict(q).pending[id] == q.pending[id]
  {
  }

  lemma TerminalEntry(q: Queue, id: MailId)
    requires Inv(q) && id in q.pending && q.pending[id].terminal
    ensures q.log[id].status == Failed && q.log[id].nextRetryAt.None?
  {
    assert EntryOk(q.log[id], TraceOf(q, id), q.pending[id]);
  }

  lemma EvictedEntries(q: Queue) returns (gone: set<MailId>)
    ensures |gone| <= 1 && Evict(q).pending == q.pending - gone
    ensures forall id | id in gone :: id in q.pending && q.pending[id].terminal
  {
    var victim := FirstTerminal(q.order, q.pending);
    gone := if |q.pending| < MAX_PENDING || victim.None? then {} else {victim.value};
  }

  /** Making room drops at most one entry, a terminal one. */
  lemma EvictionSparesDeliveries(q: Queue) returns (gone: set<MailId>)
    requires Inv(q)
    ensures |gone| <= 1 && Evict(q).pending == q.pending - gone
    ensures forall id | id in gone :: id in q.pending && q.log[id].status == Failed && q.log[id].nextRetryAt.None?
  {
    gone := EvictedEntries(q);
    forall id | id in gone ensures q.log[id].status == Failed && q.log[id].nextRetryAt.None? {
      TerminalEntry(q, id);
    }
  }

  /** Only what belongs to `id` differs. */
  ghost predicate OnlyThis(q: Queue, q': Queue, id: MailId) {
    id in q'.log && KeysOk(q') && OtherMailsSame(q, q', id) && OtherEntriesSame(q, q', id)
  }

  ghost predicate OtherMailsSame(q: Queue, q': Queue, id: MailId) {
    forall i | i in q'.log && i != id :: i in q.log && MailOf(q', i) == MailOf(q, i)
  }

  ghost predicate OtherEntriesSame(q: Queue, q': Queue, id: MailId) {
    forall i | i in q'.pending && i != id :: i in q.pending && q'.pending[i] == q.pending[i]
  }

  /** The sweep is where it was, and a swept attempt is under way only while there is a sweep. */
  ghost predicate SweepSame(q: Queue, q': Queue, id: MailId) {
    && q'.sweep == q.sweep && q.log.Keys <= q'.log.Keys
    && (q.sweep.None? && id in q'.flights ==> q'.flights[id].trigger != Sweep)
  }

  lemma SweepStays(q: Queue, q': Queue, id: MailId)
    requires KeysOk(q) && SweepOk(q) && OnlyThis(q, q', id) && SweepSame(q, q', id)
    ensures SweepOk(q')
  {
    forall i | i in q'.flights && q.sweep.None? ensures q'.flights[i].trigger != Sweep {
      assert i != id ==> MailOf(q', i) == MailOf(q, i) && FlightOf(q', i) == FlightOf(q, i);
    }
  }

  lemma OnlyThisKeeps(q: Queue, q': Queue, id: MailId, m: Mailing)
    requires Inv(q) && OnlyThis(q, q', id) && SweepSame(q, q', id) && m == MailOf(q', id) && MailOk(m)
    requires id in q'.pending ==> EntryOk(m.row, m.trace, q'.pending[id])
    ensures Inv(q')
  {
    SweepStays(q, q', id);
    OnlyThisKeepsMails(q, q', id, m);
  }

  lemma OnlyThisKeepsMails(q: Queue, q': Queue, id: MailId, m: Mailing)
    requires KeysOk(q) && MailsOk(q) && EntriesOk(q) && OnlyThis(q, q', id) && m == MailOf(q', id) && MailOk(m)
    requires id in q'.pending ==> EntryOk(m.row, m.trace, q'.pending[id])
    ensures MailsOk(q') && EntriesOk(q')
  {
    forall i | i in q'.log ensures MailOk(MailOf(q', i)) {
      assert i != id ==> MailOk(MailOf(q, i));
    }
    forall i | i in q'.pending ensures EntryOk(q'.log[i], TraceOf(q', i), q'.pending[i]) {
      assert i != id ==> MailOf(q', i) == MailOf(q, i);
    }
  }

  /** What is sent is what was rendered, from memory or from the row. */
  lemma ContentIsRendered(q: Queue, id: MailId)
    requires Inv(q) && id in q.log && Content(q, id).Some?
    ensures Content(q, id) == TraceOf(q, id).content && q.log[id].status != Skipped
  {
    assert MailOk(MailOf(q, id));
  }

  lemma ForgetKeeps(q: Queue, id: MailId)
    requires Inv(q)
    ensures Inv(Forget(q, id))
  {
    forall i | i in q.log ensures MailOf(Forget(q, id), i) == MailOf(q, i) {}
  }

  lemma RecoverIsThis(q: Queue, id: MailId, rendered: Mail)
    requires KeysOk(q) && id in q.log
    ensures var r := Recover(q, id, rendered);
            && OnlyThis(q, r, id) && MailOf(r, id) == MailOf(q, id) && r == q.(pending := r.pending, order := r.order)
            && id in r.pending
            && r.pending[id] == if id in q.pending then q.pending[id] else Pending(rendered, None, false)
  {
    EvictIs(q);
  }

  lemma RecoverKeeps(q: Queue, id: MailId)
    requires Inv(q) && id in q.log && q.log[id].status != Sent && TraceOf(q, id).content.Some?
    ensures Inv(Recover(q, id, TraceOf(q, id).content.value))
  {
    RecoverIsThis(q, id, TraceOf(q, id).content.value);
    OnlyThisKeeps(q, Recover(q, id, TraceOf(q, id).content.value), id, MailOf(q, id));
  }

  /** What asking does to one mail. */
  function AskedMail(m: Mailing, trigger: Trigger, answer: Answer): Mailing
    requires m.trace.content.Some?
  {
    var write := if answer == Accepted then SentWrite else FailureWrite(answer == NotConfigured);
    var t := m.trace;
    if answer == NoTransport then m
    else m.(flight := Some(Flight(write, m.row.attempts + 1, trigger)),
            trace := t.(started := t.started + (if trigger == First then 1 else 0),
                        swept := t.swept + (if trigger == Sweep then 1 else 0),
                        delivered := if answer == Accepted then t.delivered + [t.content.value] else t.delivered))
  }

  /** What `trigger` may begin an attempt on: a mail not tried yet, or one the sweep has taken off its list. */
  ghost predicate Ready(m: Mailing, trigger: Trigger) {
    match trigger
    case First => m.trace.started == 0 && m.row.status == Queued && !m.toStart && !m.listed
    case Sweep =>
      && m.row.attempts >= 1 && m.trace.swept < m.trace.lostSweeps + Least3(m.row.attempts)
      && !m.listed && !m.toStart
    case Manual => !m.toStart
  }

  lemma AskedMailOk(m: Mailing, trigger: Trigger, answer: Answer)
    requires MailOk(m) && m.flight.None? && m.trace.content.Some? && m.row.status != Sent && m.row.status != Skipped
    requires Ready(m, trigger)
    ensures MailOk(AskedMail(m, trigger, answer))
  {
  }

  lemma AskedIsThis(q: Queue, trigger: Trigger, id: MailId, answer: Answer)
    requires KeysOk(q) && id in q.log && TraceOf(q, id).content.Some? && answer != NoTransport
    ensures OnlyThis(q, Asked(q, trigger, id, TraceOf(q, id).content.value, answer), id)
    ensures MailOf(Asked(q, trigger, id, TraceOf(q, id).content.value, answer), id) ==
            AskedMail(MailOf(q, id), trigger, answer)
  {
  }

  /** A mail for which an attempt has just begun. */
  ghost predicate Begins(q: Queue, trigger: Trigger, id: MailId) {
    && id !in q.flights && (id in q.log ==> Ready(MailOf(q, id), trigger))
    && (trigger == Sweep ==> q.sweep.Some?)
  }

  ghost predicate Sendable(q: Queue, id: MailId) {
    id in q.log && q.log[id].status != Sent && q.log[id].status != Skipped && TraceOf(q, id).content.Some?
  }

  lemma AskedKeeps(q: Queue, trigger: Trigger, id: MailId, answer: Answer)
    requires Inv(q) && Sendable(q, id) && Begins(q, trigger, id)
    ensures Inv(Asked(q, trigger, id, TraceOf(q, id).content.value, answer))
  {
    if answer != NoTransport {
      assert MailOk(MailOf(q, id));
      AskedMailOk(MailOf(q, id), trigger, answer);
      AskedIsThis(q, trigger, id, answer);
      OnlyThisKeeps(q, Asked(q, trigger, id, TraceOf(q, id).content.value, answer), id,
        AskedMail(MailOf(q, id), trigger, answer));
    }
  }

  lemma RecoveredKeeps(q: Queue, trigger: Trigger, id: MailId, answer: Answer)
    requires Inv(q) && Sendable(q, id) && Begins(q, trigger, id)
    ensures Inv(Asked(Recover(q, id, TraceOf(q, id).content.value), trigger, id, TraceOf(q, id).content.value, answer))
  {
    RecoverKeeps(q, id);
    RecoverLeavesRows(q, id, TraceOf(q, id).content.value);
    var r := Recover(q, id, TraceOf(q, id).content.value);
    assert MailOf(r, id) == MailOf(q, id);
    AskedKeeps(r, trigger, id, answer);
  }

  lemma GivingUpIsThis(q: Queue, trigger: Trigger, id: MailId)
    requires KeysOk(q) && id in q.log
    ensures OnlyThis(q, GivingUp(q, trigger, id), id)
    ensures MailOf(GivingUp(q, trigger, id), id) ==
            MailOf(q, id).(flight := Some(Flight(GiveUpWrite, q.log[id].attempts, trigger)))
  {
  }

  lemma GivingUpKeeps(q: Queue, trigger: Trigger, id: MailId)
    requires Inv(q) && id in q.log && Begins(q, trigger, id) && Live(q.log[id]) && q.log[id].payload.None?
    ensures Inv(GivingUp(q, trigger, id))
  {
    assert MailOk(MailOf(q, id));
    GivingUpMailOk(MailOf(q, id), trigger);
    GivingUpIsThis(q, trigger, id);
    OnlyThisKeeps(q, GivingUp(q, trigger, id), id, MailOf(GivingUp(q, trigger, id), id));
  }

  lemma GivingUpMailOk(m: Mailing, trigger: Trigger)
    requires MailOk(m) && m.flight.None? && Live(m.row) && m.row.payload.None? && Ready(m, trigger)
    ensures MailOk(m.(flight := Some(Flight(GiveUpWrite, m.row.attempts, trigger))))
  {
  }

  lemma AskNowKeeps(q: Queue, trigger: Trigger, id: MailId, answer: Answer)
    requires Inv(q) && Begins(q, trigger, id)
    ensures Inv(AskNow(q, trigger, id, answer))
  {
    if id !in q.log || q.log[id].status == Sent {
      ForgetKeeps(q, id);
    } else if Content(q, id).Some? {
      ContentIsRendered(q, id);
      RecoveredKeeps(q, trigger, id, answer);
    } else if Live(q.log[id]) {
      GivingUpKeeps(q, trigger, id);
    }
  }

  lemma FirstLaunchedIsThis(q: Queue, id: MailId)
    requires KeysOk(q) && id in q.starting
    ensures OnlyThis(q, Launched(q, First, id), id)
    ensures MailOf(Launched(q, First, id), id) == MailOf(q, id).(toStart := false)
  {
  }

  lemma StartedMailOk(m: Mailing)
    requires MailOk(m) && m.toStart
    ensures MailOk(m.(toStart := false)) && Ready(m.(toStart := false), First) && m.flight.None?
  {
  }

  lemma FirstLaunchedKeeps(q: Queue, id: MailId)
    requires Inv(q) && id in q.starting
    ensures Inv(Launched(q, First, id)) && Begins(Launched(q, First, id), First, id)
  {
    assert MailOk(MailOf(q, id));
    StartedMailOk(MailOf(q, id));
    FirstLaunchedIsThis(q, id);
    OnlyThisKeeps(q, Launched(q, First, id), id, MailOf(q, id).(toStart := false));
  }

  lemma UnlistedMailOk(m: Mailing)
    requires MailOk(m) && m.listed && m.flight.None?
    ensures MailOk(m.(listed := false)) && Ready(m.(listed := false), Sweep)
  {
  }

  lemma SweepLaunchedIsThis(q: Queue, id: MailId)
    requires KeysOk(q) && SweepOk(q) && ToVisit(q) != [] && ToVisit(q)[0] == id
    ensures OnlyThis(q, Launched(q, Sweep, id), id)
    ensures MailOf(Launched(q, Sweep, id), id) == MailOf(q, id).(listed := false)
    ensures SweepOk(Launched(q, Sweep, id)) && Launched(q, Sweep, id).sweep.Some?
  {
    var rest := ToVisit(q)[1..];
    DistinctTail(ToVisit(q));
    forall i | i in q.log && i != id ensures MailOf(Launched(q, Sweep, id), i) == MailOf(q, i) {
      assert i in rest <==> i in ToVisit(q);
    }
  }

  lemma DistinctTail(ids: seq<MailId>)
    requires Distinct(ids) && ids != []
    ensures Distinct(ids[1..]) && ids[0] !in ids[1..] && forall i :: i in ids <==> i == ids[0] || i in ids[1..]
  {
    assert ids == [ids[0]] + ids[1..];
  }

  lemma SweepLaunchedKeeps(q: Queue, id: MailId)
    requires Inv(q) && ToVisit(q) != [] && ToVisit(q)[0] == id && id !in q.flights
    ensures Inv(Launched(q, Sweep, id)) && Begins(Launched(q, Sweep, id), Sweep, id)
  {
    assert id in ToVisit(q) && MailOk(MailOf(q, id));
    UnlistedMailOk(MailOf(q, id));
    SweepLaunchedIsThis(q, id);
    OnlyThisKeepsMails(q, Launched(q, Sweep, id), id, MailOf(q, id).(listed := false));
  }

  /**
   No attempt is ever begun on a row that has one under way: a first attempt is the first, a sweep
   waits for its own, and a row the sweep has listed is none whose first attempt is still going on.
   */
  lemma AttemptsApart(q: Queue, trigger: Trigger, id: MailId, answer: Answer)
    requires Inv(q) && Enabled(q, Ask(trigger, id, answer))
    ensures id !in q.flights
  {
    assert id in q.log ==> MailOk(MailOf(q, id));
    assert trigger == Sweep ==> id in ToVisit(q);
  }

  lemma AskKeeps(q: Queue, trigger: Trigger, id: MailId, answer: Answer)
    requires Inv(q) && Enabled(q, Ask(trigger, id, answer))
    ensures Inv(AskNow(Launched(q, trigger, id), trigger, id, answer))
  {
    AttemptsApart(q, trigger, id, answer);
    if trigger == First {
      FirstLaunchedKeeps(q, id);
    } else if trigger == Sweep {
      SweepLaunchedKeeps(q, id);
    }
    AskNowKeeps(Launched(q, trigger, id), trigger, id, answer);
  }

  /** What a write, or the loss of one, does to one mail. */
  function WrittenMail(m: Mailing, written: bool, now: Time): Mailing
    requires m.flight.Some?
  {
    var f := m.flight.value;
    if !written && f.write.SentWrite? then
      m.(flight := Some(f.(write := FailureWrite(false))), trace := m.trace.(lostSent := m.trace.lostSent + 1))
    else if !written then m.(flight := None, trace := Lose(m.trace, f))
    else match f.write
      case GiveUpWrite =>
        m.(flight := None, row := m.row.(status := Failed, nextRetryAt := None),
           trace := m.trace.(wentTerminal := true))
      case FailureWrite(force) =>
        var terminal := force || f.attempts >= MAX_ATTEMPTS;
        m.(flight := None,
           row := Row(Failed, f.attempts, if terminal then None else Some(now + RetryDelay(f.attempts)),
                      if terminal then None else m.row.payload),
           trace := m.trace.(failedAt := Some(now), wentTerminal := m.trace.wentTerminal || terminal))
      case SentWrite => m.(flight := None, row := Row(Sent, f.attempts, None, None))
  }

  lemma WrittenMailOk(m: Mailing, written: bool, now: Time)
    requires MailOk(m) && m.flight.Some?
    ensures MailOk(WrittenMail(m, written, now))
  {
  }

  lemma WriteIsThis(q: Queue, id: MailId, written: bool, now: Time)
    requires KeysOk(q) && id in q.flights
    ensures OnlyThis(q, WriteNow(q, id, written, now), id)
  {
    WriteKeepsKeys(q, id, written, now);
    WriteOtherEntries(q, id, written, now);
    WriteOtherMails(q, id, written, now);
  }

  lemma WriteOtherEntries(q: Queue, id: MailId, written: bool, now: Time)
    requires KeysOk(q) && id in q.flights
    ensures OtherEntriesSame(q, WriteNow(q, id, written, now), id)
  {
  }

  lemma WriteOtherMails(q: Queue, id: MailId, written: bool, now: Time)
    requires KeysOk(q) && id in q.flights
    ensures OtherMailsSame(q, WriteNow(q, id, written, now), id)
  {
    forall i | i in q.log && i != id ensures MailOf(WriteNow(q, id, written, now), i) == MailOf(q, i) {
      WriteOtherMail(q, id, written, now, i);
    }
  }

  lemma WriteOtherMail(q: Queue, id: MailId, written: bool, now: Time, i: MailId)
    requires KeysOk(q) && id in q.flights && i in q.log && i != id
    ensures i in WriteNow(q, id, written, now).log && MailOf(WriteNow(q, id, written, now), i) == MailOf(q, i)
  {
  }

  lemma WriteKeepsSweep(q: Queue, id: MailId, written: bool, now: Time)
    requires KeysOk(q) && SweepOk(q) && id in q.flights
    ensures SweepSame(q, WriteNow(q, id, written, now), id)
  {
  }

  lemma WriteKeepsKeys(q: Queue, id: MailId, written: bool, now: Time)
    requires KeysOk(q) && id in q.flights
    ensures KeysOk(WriteNow(q, id, written, now))
  {
  }

  lemma WriteIsMail(q: Queue, id: MailId, written: bool, now: Time)
    requires KeysOk(q) && id in q.flights
    ensures MailOf(WriteNow(q, id, written, now), id) == WrittenMail(MailOf(q, id), written, now)
  {
  }

  lemma WrittenEntryOk(q: Queue, id: MailId, written: bool, now: Time)
    requires KeysOk(q) && id in q.flights && (id in q.pending ==> EntryOk(q.log[id], TraceOf(q, id), q.pending[id]))
    ensures var r, m := WriteNow(q, id, written, now), WrittenMail(MailOf(q, id), written, now);
            id in r.pending ==> EntryOk(m.row, m.trace, r.pending[id])
  {
  }

  lemma WriteKeeps(q: Queue, id: MailId, written: bool, now: Time)
    requires Inv(q) && id in q.flights
    ensures Inv(WriteNow(q, id, written, now))
  {
    WrittenMailOk(MailOf(q, id), written, now);
    WriteIsThis(q, id, written, now);
    WriteIsMail(q, id, written, now);
    WrittenEntryOk(q, id, written, now);
    WriteKeepsSweep(q, id, written, now);
    OnlyThisKeeps(q, WriteNow(q, id, written, now), id, WrittenMail(MailOf(q, id), written, now));
  }

  lemma SavedIsThis(q: Queue, id: MailId, params: Params)
    requires KeysOk(q) && SweepOk(q) && id !in q.log
    ensures OnlyThis(q, Saved(q, id, params), id) && MailOk(MailOf(Saved(q, id, params), id))
    ensures id !in Saved(q, id, params).pending
  {
    assert id !in ToVisit(q);
  }

  lemma SavedKeeps(q: Queue, id: MailId, params: Params)
    requires Inv(q) && id !in q.log
    ensures Inv(Saved(q, id, params))
  {
    SavedIsThis(q, id, params);
    OnlyThisKeeps(q, Saved(q, id, params), id, MailOf(Saved(q, id, params), id));
  }

  lemma HoldIsThis(q: Queue, id: MailId, mail: Mail)
    requires KeysOk(q) && id in q.log && id !in q.pending
    ensures OnlyThis(q, Hold(q, id, mail), id) && MailOf(Hold(q, id, mail), id) == MailOf(q, id).(toStart := true)
    ensures id in Hold(q, id, mail).pending && Hold(q, id, mail).pending[id] == Pending(mail, None, false)
    ensures SweepSame(q, Hold(q, id, mail), id) <==> SweepSame(q, q, id)
  {
    RecoverIsThis(q, id, mail);
    var r := Recover(q, id, mail);
    assert Hold(q, id, mail) == r.(starting := q.starting + {id});
    forall i | i in q.log && i != id ensures MailOf(Hold(q, id, mail), i) == MailOf(q, i) {
      assert MailOf(r, i) == MailOf(q, i);
    }
  }

  lemma HoldKeeps(q: Queue, id: MailId, mail: Mail)
    requires Inv(q) && id in q.log && q.log[id].status == Queued && id !in q.flights && id !in q.pending
    requires TraceOf(q, id).content == Some(mail) && TraceOf(q, id).started == 0
    ensures Inv(Hold(q, id, mail))
  {
    assert MailOk(MailOf(q, id));
    HoldIsThis(q, id, mail);
    OnlyThisKeeps(q, Hold(q, id, mail), id, MailOf(q, id).(toStart := true));
  }

  lemma SendKeeps(q: Queue, id: MailId, params: Params)
    requires Inv(q) && Enabled(q, Send(id, params))
    ensures Inv(Apply(q, Send(id, params)))
  {
    SavedKeeps(q, id, params);
    if StatusOf(params) == Queued {
      HoldKeeps(Saved(q, id, params), id, params.rendered.value);
    }
  }

  lemma RestartedMailOk(m: Mailing)
    requires MailOk(m)
    ensures var trace := if m.flight.Some? then Lose(m.trace, m.flight.value) else m.trace;
            MailOk(Mailing(m.row, trace, None, false, false))
  {
  }

  lemma ListedMailOk(m: Mailing, now: Time)
    requires MailOk(m) && Due(m.row, now) && !m.listed && (m.flight.Some? ==> m.flight.value.trigger != Sweep)
    ensures MailOk(m.(listed := true))
  {
  }

  lemma BeginKeeps(q: Queue, due: seq<MailId>, now: Time)
    requires Inv(q) && IsDueList(q.log, due, now)
    ensures Inv(Begun(q, due))
  {
    if q.sweep.None? {
      var q' := Begun(q, due);
      forall i | i in q'.log ensures MailOk(MailOf(q', i)) {
        assert MailOk(MailOf(q, i));
        if i in due {
          ListedMailOk(MailOf(q, i), now);
        }
      }
      forall i | i in q'.pending ensures EntryOk(q'.log[i], TraceOf(q', i), q'.pending[i]) {
        assert EntryOk(q.log[i], TraceOf(q, i), q.pending[i]);
      }
    }
  }

  lemma EndKeeps(q: Queue)
    requires Inv(q) && Enabled(q, EndSweep)
    ensures Inv(Apply(q, EndSweep))
  {
    forall i | i in q.log ensures MailOf(Apply(q, EndSweep), i) == MailOf(q, i) {}
  }

  lemma RestartKeeps(q: Queue)
    requires Inv(q)
    ensures Inv(Restarted(q))
  {
    forall i | i in q.log ensures MailOk(MailOf(Restarted(q), i)) {
      RestartedMailOk(MailOf(q, i));
    }
  }

  lemma StepKeeps(q: Queue, step: Step)
    requires Inv(q) && Enabled(q, step)
    ensures Inv(Apply(q, step))
  {
    match step
    case Send(id, params) => SendKeeps(q, id, params);
    case Ask(trigger, id, answer) => AskKeeps(q, trigger, id, answer);
    case WriteRow(id, written, now) => WriteKeeps(q, id, written, now);
    case BeginSweep(due, now) => BeginKeeps(q, due, now);
    case EndSweep => EndKeeps(q);
    case Restart => RestartKeeps(q);
  }

  // ---- whole runs -----------------------------------------------------------------------

  ghost predicate Runs(q: Queue, steps: seq<Step>, q': Queue)
    decreases |steps|
  {
    if steps == [] then q == q' else Enabled(q, steps[0]) && Runs(Apply(q, steps[0]), steps[1..], q')
  }

  lemma {:induction false} RunKeeps(q: Queue, steps: seq<Step>, q': Queue)
    requires Inv(q) && Runs(q, steps, q')
    ensures Inv(q')
    decreases |steps|
  {
    if steps != [] {
      StepKeeps(q, steps[0]);
      RunKeeps(Apply(q, steps[0]), steps[1..], q');
    }
  }

  lemma {:induction false} RunsOn(q: Queue, steps: seq<Step>, q': Queue, step: Step)
    requires Runs(q, steps, q') && Enabled(q', step)
    ensures Runs(q, steps + [step], Apply(q', step))
    decreases |steps|
  {
    if steps == [] {
      assert (steps + [step])[1..] == [];
    } else {
      RunsOn(Apply(q, steps[0]), steps[1..], q', step);
      assert (steps + [step])[1..] == steps[1..] + [step];
    }
  }

  lemma MailsInRuns(steps: seq<Step>, q: Queue, id: MailId)
    requires Runs(EMPTY_QUEUE, steps, q) && id in q.log
    ensures Inv(q) && MailOk(MailOf(q, id))
  {
    RunKeeps(EMPTY_QUEUE, steps, q);
  }

  /** What a row may hold, in every state reached through sends, attempts, lost writes and restarts. */
  lemma StoredPayloads(steps: seq<Step>, q: Queue, id: MailId)
    requires Runs(EMPTY_QUEUE, steps, q) && id in q.log
    ensures q.log[id].payload.Some? ==>
            Live(q.log[id]) && !TraceOf(q, id).sensitive && q.log[id].payload == TraceOf(q, id).content
    ensures Live(q.log[id]) && !TraceOf(q, id).sensitive ==> (q.log[id].payload.Some? <==> !TraceOf(q, id).wentTerminal)
  {
    MailsInRuns(steps, q, id);
  }

  /** A scheduled retry follows the first, second or third recorded attempt, by 1, 5 or 15 minutes. */
  lemma ScheduledRetries(steps: seq<Step>, q: Queue, id: MailId)
    requires Runs(EMPTY_QUEUE, steps, q) && id in q.log && q.log[id].nextRetryAt.Some?
    ensures q.log[id].status == Failed && 1 <= q.log[id].attempts <= 3 && TraceOf(q, id).failedAt.Some?
    ensures q.log[id].nextRetryAt.value == TraceOf(q, id).failedAt.value + [1, 5, 15][q.log[id].attempts - 1] * MINUTE
  {
    MailsInRuns(steps, q, id);
  }

  /**
   Once when it was queued and at most three times by the sweep, a mail is tried without an
   administrator asking: four times, and once more for each swept attempt that was not recorded.
   */
  lemma AutomaticAttempts(steps: seq<Step>, q: Queue, id: MailId)
    requires Runs(EMPTY_QUEUE, steps, q) && id in q.log && id !in q.flights
    ensures var t := TraceOf(q, id);
            && t.started <= 1 && t.swept <= 3 + t.lostSweeps
            && t.started + t.swept <= MAX_ATTEMPTS + t.lostSweeps
            && (t.lostSweeps == 0 ==> t.started + t.swept <= MAX_ATTEMPTS)
  {
    MailsInRuns(steps, q, id);
  }

  /**
   A mail is delivered once for each `sent` update that was lost and once for the one that was
   made, always as it was rendered; so at most once exactly when none was lost, or one was and
   no later attempt has been accepted.
   */
  lemma DeliveriesAreCounted(steps: seq<Step>, q: Queue, id: MailId)
    requires Runs(EMPTY_QUEUE, steps, q) && id in q.log && id !in q.flights
    ensures var t := TraceOf(q, id);
            && |t.delivered| == t.lostSent + (if q.log[id].status == Sent then 1 else 0)
            && |t.delivered| <= 1 + t.lostSent
            && (|t.delivered| <= 1 <==> t.lostSent == 0 || (t.lostSent == 1 && q.log[id].status != Sent))
            && forall m | m in t.delivered :: t.content == Some(m)
  {
    MailsInRuns(steps, q, id);
  }

  /** While an attempt is under way at most one more delivery or swept attempt is not accounted for yet. */
  lemma UnderWay(steps: seq<Step>, q: Queue, id: MailId)
    requires Runs(EMPTY_QUEUE, steps, q) && id in q.flights
    ensures var t := TraceOf(q, id);
            && id in q.log && q.log[id].status != Sent
            && |t.delivered| == t.lostSent + (if q.flights[id].write.SentWrite? then 1 else 0)
            && t.swept <= 3 + t.lostSweeps
  {
    FlightsInRuns(steps, q, id);
    MailsInRuns(steps, q, id);
  }

  lemma FlightsInRuns(steps: seq<Step>, q: Queue, id: MailId)
    requires Runs(EMPTY_QUEUE, steps, q) && id in q.flights
    ensures id in q.log
  {
    RunKeeps(EMPTY_QUEUE, steps, q);
  }

  /** No attempt is begun on a row that has one under way, as long as manual retries keep to themselves. */
  lemma AttemptsNeverOverlap(steps: seq<Step>, q: Queue, trigger: Trigger, id: MailId, answer: Answer)
    requires Runs(EMPTY_QUEUE, steps, q) && Enabled(q, Ask(trigger, id, answer))
    ensures id !in q.flights
  {
    RunKeeps(EMPTY_QUEUE, steps, q);
    AttemptsApart(q, trigger, id, answer);
  }

  /** A sweep visits only rows that have been tried, none of them twice, and waits for its own attempt. */
  lemma SweepsKeepOrder(steps: seq<Step>, q: Queue, id: MailId)
    requires Runs(EMPTY_QUEUE, steps, q) && id in ToVisit(q)
    ensures id in q.log && q.log[id].attempts >= 1 && id !in q.starting && Distinct(ToVisit(q))
    ensures id in q.flights ==> q.flights[id].trigger == Manual
  {
    RunKeeps(EMPTY_QUEUE, steps, q);
    MailsInRuns(steps, q, id);
  }

  /** `sent` is final: no later step changes the row. */
  lemma SentIsFinal(q: Queue, step: Step, id: MailId)
    requires Inv(q) && Enabled(q, step) && id in q.log && q.log[id].status == Sent
    ensures id in Apply(q, step).log && Apply(q, step).log[id] == q.log[id]
  {
    assert MailOk(MailOf(q, id));
    OtherRow(q, step, id);
  }

  lemma AskedLeavesRows(q: Queue, trigger: Trigger, id: MailId, rendered: Mail, answer: Answer)
    requires id in q.log
    ensures var r := Asked(q, trigger, id, rendered, answer);
            r.log == q.log && r.starting == q.starting && r.sweep == q.sweep
    ensures forall i | i != id :: FlightOf(Asked(q, trigger, id, rendered, answer), i) == FlightOf(q, i)
  {
  }

  /** Asking for an attempt changes no row, and starts no attempt but the one asked for. */
  lemma AskLeavesRows(q: Queue, trigger: Trigger, id: MailId, answer: Answer)
    ensures var r := AskNow(q, trigger, id, answer); r.log == q.log && r.starting == q.starting && r.sweep == q.sweep
    ensures forall i | i != id :: FlightOf(AskNow(q, trigger, id, answer), i) == FlightOf(q, i)
  {
    if id in q.log && q.log[id].status != Sent && Content(q, id).Some? {
      var mail := Content(q, id).value;
      RecoverLeavesRows(q, id, mail);
      AskedLeavesRows(Recover(q, id, mail), trigger, id, mail, answer);
      assert forall i :: FlightOf(Recover(q, id, mail), i) == FlightOf(q, i);
    }
  }

  lemma RecoverLeavesRows(q: Queue, id: MailId, rendered: Mail)
    ensures var r := Recover(q, id, rendered); r == q.(pending := r.pending, order := r.order)
  {
    EvictIs(q);
  }

  /** A step leaves every row alone but the one it is about. */
  lemma OtherRow(q: Queue, step: Step, id: MailId)
    requires Enabled(q, step) && id in q.log && !(step.WriteRow? && step.id == id)
    ensures id in Apply(q, step).log && Apply(q, step).log[id] == q.log[id]
  {
    match step
    case Ask(trigger, other, answer) => AskLeavesRows(Launched(q, trigger, other), trigger, other, answer);
    case Send(other, params) => EvictIs(Saved(q, other, params));
    case _ =>
  }

  /** Neither `send` nor the sweep asks for an attempt on a queued row whose first attempt is over. */
  lemma QueuedIsNotAsked(q: Queue, trigger: Trigger, other: MailId, answer: Answer, id: MailId)
    requires Inv(q) && Enabled(q, Ask(trigger, other, answer)) && trigger != Manual
    requires id in q.log && q.log[id].status == Queued && id !in q.starting
    ensures other != id
  {
    assert MailOk(MailOf(q, id));
    assert trigger == Sweep ==> other in ToVisit(q);
  }

  lemma OtherStaysUnasked(q: Queue, step: Step, id: MailId)
    requires Enabled(q, step) && id in q.log && id !in q.starting && id !in q.flights && (step.Ask? ==> step.id != id)
    ensures id !in Apply(q, step).starting && id !in Apply(q, step).flights
  {
    match step
    case Ask(trigger, other, answer) =>
      AskLeavesRows(Launched(q, trigger, other), trigger, other, answer);
      assert FlightOf(AskNow(Launched(q, trigger, other), trigger, other, answer), id) == FlightOf(q, id);
    case Send(other, params) => EvictIs(Saved(q, other, params));
    case _ =>
  }

  /**
   A queued row whose first attempt is over without a record (the transport could not be built,
   or the write or the process was lost) waits for an administrator: without one it never changes.
   */
  lemma QueuedWaitsForRetry(steps: seq<Step>, q: Queue, step: Step, id: MailId)
    requires Runs(EMPTY_QUEUE, steps, q) && Enabled(q, step)
    requires id in q.log && q.log[id].status == Queued && id !in q.starting && id !in q.flights
    requires !(step.Ask? && step.trigger == Manual && step.id == id)
    ensures id in Apply(q, step).log && Apply(q, step).log[id] == q.log[id]
    ensures id !in Apply(q, step).starting && id !in Apply(q, step).flights
  {
    RunKeeps(EMPTY_QUEUE, steps, q);
    if step.Ask? && step.trigger != Manual {
      QueuedIsNotAsked(q, step.trigger, step.id, step.answer, id);
    }
    OtherRow(q, step, id);
    OtherStaysUnasked(q, step, id);
  }

  ghost predicate OneSwept(q: Queue) {
    forall a, b | a in q.flights && b in q.flights && q.flights[a].trigger == Sweep && q.flights[b].trigger == Sweep ::
      a == b
  }

  lemma AskedBy(q: Queue, trigger: Trigger, id: MailId, answer: Answer)
    ensures var r := AskNow(q, trigger, id, answer);
            FlightOf(r, id) == FlightOf(q, id) || (id in r.flights && r.flights[id].trigger == trigger)
  {
    if id in q.log && q.log[id].status != Sent && Content(q, id).Some? {
      RecoverLeavesRows(q, id, Content(q, id).value);
    }
  }

  lemma AskKeepsOneSwept(q: Queue, trigger: Trigger, id: MailId, answer: Answer)
    requires OneSwept(q) && (trigger == Sweep ==> !Visiting(q))
    ensures OneSwept(AskNow(q, trigger, id, answer))
  {
    AskLeavesRows(q, trigger, id, answer);
    AskedBy(q, trigger, id, answer);
    var r := AskNow(q, trigger, id, answer);
    forall i | i in r.flights && r.flights[i].trigger == Sweep
      ensures (i == id && trigger == Sweep) || (i in q.flights && q.flights[i].trigger == Sweep)
    {
      assert i != id ==> FlightOf(r, i) == FlightOf(q, i);
    }
  }

  lemma {:induction false} RunKeepsOneSwept(q: Queue, steps: seq<Step>, q': Queue)
    requires OneSwept(q) && Runs(q, steps, q')
    ensures OneSwept(q')
    decreases |steps|
  {
    if steps != [] {
      if steps[0].Ask? {
        AskKeepsOneSwept(Launched(q, steps[0].trigger, steps[0].id), steps[0].trigger, steps[0].id, steps[0].answer);
      } else {
        OtherKeepsOneSwept(q, steps[0]);
      }
      RunKeepsOneSwept(Apply(q, steps[0]), steps[1..], q');
    }
  }

  lemma OtherKeepsOneSwept(q: Queue, step: Step)
    requires OneSwept(q) && Enabled(q, step) && !step.Ask?
    ensures OneSwept(Apply(q, step))
  {
    match step
    case Send(id, params) => EvictIs(Saved(q, id, params));
    case _ =>
  }

  /** A slow mail server never has two attempts of sweeps to serve at a time. */
  lemma OneSweptAtATime(steps: seq<Step>, q: Queue, a: MailId, b: MailId)
    requires Runs(EMPTY_QUEUE, steps, q) && a in q.flights && b in q.flights
    requires q.flights[a].trigger == Sweep && q.flights[b].trigger == Sweep
    ensures a == b
  {
    RunKeepsOneSwept(EMPTY_QUEUE, steps, q);
  }
}
