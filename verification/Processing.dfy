/** The processor that joins the stabilizer to the finalization transaction, on values:
    what one Process call does to the sessions, the pending work and the database, and
    what any run of calls keeps. */
module Processing {
  import opened Arithmetic
  import opened Window
  import opened Rationals
  import opened Keys
  import S = Sessions
  import opened Finalizing
  import opened Conservation

  const FINAL_STAGE := "FINAL"

  /** A parsed stream message. */
  datatype Event = Event(
    streamID: nat,
    eventID: string,
    scaleID: string,
    plate: string,
    weightGrams: int64,
    measuredAt: Time,
    receivedAt: Time)

  datatype PendingWork = PendingWork(event: Event, input: Option<Input>)

  /** A row of processed_scale_events, keyed by event id. */
  datatype LedgerRow = LedgerRow(streamMessageID: nat, scaleID: string, plate: string)

  datatype Durable = Durable(ledger: Database, processed: map<string, LedgerRow>)

  datatype World = World(sessions: S.SessionMap, pending: map<string, PendingWork>, durable: Durable)

  datatype ProcessResult = Processed | Permanent | Transient

  /** How a durable write goes: it answers, it takes effect but the caller sees an error,
      or it fails without effect. */
  datatype Luck = Fine | Lost | Broken

  /** How the durable write of a call ends: as luck has it, or, for a finalization, raced:
      transactions that commit meanwhile make it fail with a conflict or with nothing
      found, without effect. Races.DuplicateSucceedsIff says when that happens. */
  datatype Fate = Unraced(luck: Luck) | Raced

  /** One Process call; victim and id are the choices of the map order and of the UUID. */
  datatype Call = Call(event: Event, victim: Key, id: Id, fate: Fate)

  /** What one call did: whether it called Add, and the input it tried to finalize. */
  datatype Trace = Trace(result: ProcessResult, added: bool, attempt: Option<Input>)

  function NatText(n: nat): (s: string)
    ensures s != "" && forall i :: 0 <= i < |s| ==> '0' <= s[i] <= '9'
  {
    var digit := ['0' + (n % 10) as char];
    if n < 10 then digit else NatText(n / 10) + digit
  }

  function IntText(n: int): string {
    if n < 0 then "-" + NatText(-n) else NatText(n)
  }

  /** Rational.String. */
  function SlopeText(r: Rational): string {
    IntText(r.num) + "/" + IntText(r.den)
  }

  function ReadingOf(e: Event): Reading {
    Reading(e.scaleID, e.plate, e.weightGrams, e.measuredAt)
  }

  function SessionID(k: Key): string {
    k.scaleID + ":" + k.plate
  }

  function InputOf(e: Event, k: Key, f: S.Finalization): Input {
    Input(SessionID(k), FINAL_STAGE, e.eventID, "", e.scaleID, e.plate, f.weightGrams, f.algorithmVersion,
          f.sampleCount, f.dispersionGrams, SlopeText(f.slope), f.stabilizedAt)
  }

  /** The work of an event whose reading Add answered; None if Add refused it. */
  function WorkOf(e: Event, reply: S.Reply): Option<PendingWork> {
    if !reply.Done? then None
    else if reply.result.finalization.None? then Some(PendingWork(e, None))
    else Some(PendingWork(e, Some(InputOf(e, reply.result.key, reply.result.finalization.value))))
  }

  /** INSERT ... ON CONFLICT (event_id) DO NOTHING. */
  function WithRow(processed: map<string, LedgerRow>, e: Event): map<string, LedgerRow> {
    if e.eventID in processed then processed
    else processed[e.eventID := LedgerRow(e.streamID, e.scaleID, e.plate)]
  }

  /** after has a row for the event, the first it ever got, and is otherwise before. */
  ghost predicate IsLogged(before: map<string, LedgerRow>, after: map<string, LedgerRow>, e: Event) {
    && after.Keys == before.Keys + {e.eventID} && (forall o :: o in before ==> after[o] == before[o])
    && (e.eventID !in before ==>
          && after[e.eventID].streamMessageID == e.streamID
          && after[e.eventID].scaleID == e.scaleID && after[e.eventID].plate == e.plate)
  }

  /** The unique index on stream_message_id refuses the row. */
  predicate StreamTaken(processed: map<string, LedgerRow>, e: Event) {
    e.eventID !in processed && exists o :: o in processed && processed[o].streamMessageID == e.streamID
  }

  /** The durable write of one piece of work. */
  ghost function Settle(cat: Catalog, d: Durable, work: PendingWork, id: Id, fate: Fate): (Durable, ProcessResult)
    requires cat.Valid()
  {
    if fate == Unraced(Broken) then (d, Transient)
    else if work.input.None? then
      if fate.Raced? || StreamTaken(d.processed, work.event) then (d, Transient)
      else
        (d.(processed := WithRow(d.processed, work.event)), if fate.luck.Fine? then Processed else Transient)
    else if fate.Raced? then (d, Permanent)
    else
      var (db, outcome) := Finalize(cat, d.ledger, work.input.value, id);
      (d.(ledger := db), if fate.luck.Lost? then Transient else if outcome.Success? then Processed else Permanent)
  }

  ghost function Complete(cat: Catalog, w: World, work: PendingWork, c: Call, added: bool): (World, Trace)
    requires cat.Valid()
  {
    var (d, result) := Settle(cat, w.durable, work, c.id, c.fate);
    (World(w.sessions, if result.Transient? then w.pending else w.pending - {c.event.eventID}, d),
     Trace(result, added, work.input))
  }

  /** Process, given what Add answers if it is called. */
  ghost function ProcessAfter(cat: Catalog, w: World, c: Call, sessions: S.SessionMap, reply: S.Reply): (World, Trace)
    requires cat.Valid()
  {
    if c.event.eventID in w.pending then Complete(cat, w, w.pending[c.event.eventID], c, false)
    else
      var work := WorkOf(c.event, reply);
      if work.None? then (w.(sessions := sessions), Trace(Permanent, true, None))
      else
        Complete(cat, w.(sessions := sessions, pending := w.pending[c.event.eventID := work.value]), work.value, c, true)
  }

  /** FinalizingProcessor.Process. */
  ghost function Process(cfg: Config, cat: Catalog, w: World, c: Call): (World, Trace)
    requires cfg.Valid() && cat.Valid() && S.Inv(cfg, w.sessions)
  {
    var (sessions, reply) := S.AddStep(cfg, w.sessions, ReadingOf(c.event), c.victim);
    ProcessAfter(cat, w, c, sessions, reply)
  }

  lemma ProcessKeepsSessions(cfg: Config, cat: Catalog, w: World, c: Call)
    requires cfg.Valid() && cat.Valid() && S.Inv(cfg, w.sessions)
    ensures S.Inv(cfg, Process(cfg, cat, w, c).0.sessions)
  {
    S.AddKeepsInvariant(cfg, w.sessions, ReadingOf(c.event), c.victim);
    var (sessions, reply) := S.AddStep(cfg, w.sessions, ReadingOf(c.event), c.victim);
    SessionsAfter(cat, w, c, sessions, reply);
  }

  lemma SessionsAfter(cat: Catalog, w: World, c: Call, sessions: S.SessionMap, reply: S.Reply)
    requires cat.Valid()
    ensures ProcessAfter(cat, w, c, sessions, reply).0.sessions
         == if c.event.eventID in w.pending then w.sessions else sessions
  {
  }

  ghost predicate Runnable(cfg: Config, cat: Catalog, w: World) {
    cfg.Valid() && cat.Valid() && S.Inv(cfg, w.sessions)
  }

  /** The state after a run of calls. */
  ghost function Run(cfg: Config, cat: Catalog, w: World, calls: seq<Call>): (w': World)
    requires Runnable(cfg, cat, w)
    ensures Runnable(cfg, cat, w')
    decreases |calls|
  {
    if calls == [] then w
    else
      var before := Run(cfg, cat, w, calls[..|calls| - 1]);
      ProcessKeepsSessions(cfg, cat, before, calls[|calls| - 1]);
      Process(cfg, cat, before, calls[|calls| - 1]).0
  }

  /** What call i of the run did. */
  ghost function TraceAt(cfg: Config, cat: Catalog, w: World, calls: seq<Call>, i: nat): Trace
    requires Runnable(cfg, cat, w) && i < |calls|
  {
    Process(cfg, cat, Run(cfg, cat, w, calls[..i]), calls[i]).1
  }

  lemma RunOneMore(cfg: Config, cat: Catalog, w: World, calls: seq<Call>, i: nat)
    requires Runnable(cfg, cat, w) && i < |calls|
    ensures Run(cfg, cat, w, calls[..i + 1]) == Process(cfg, cat, Run(cfg, cat, w, calls[..i]), calls[i]).0
  {
    assert calls[..i + 1][..i] == calls[..i];
  }

  /** Pending work is touched by its own event only, kept as it is while the result is
      transient, and dropped otherwise; Add is called exactly for events without work. */
  ghost predicate PendingStep(before: map<string, PendingWork>, after: map<string, PendingWork>, e: string,
                              trace: Trace) {
    && (forall o :: o != e ==> (o in after <==> o in before) && (o in before ==> after[o] == before[o]))
    && (trace.added <==> e !in before)
    && (e in before ==> trace.attempt == before[e].input)
    && (trace.result.Transient? <==> e in after)
    && (e in after ==> trace.attempt == after[e].input)
    && (e in before && e in after ==> after[e] == before[e])
  }

  lemma PendingAfter(cat: Catalog, w: World, c: Call, sessions: S.SessionMap, reply: S.Reply)
    requires cat.Valid()
    ensures var (w', trace) := ProcessAfter(cat, w, c, sessions, reply);
            PendingStep(w.pending, w'.pending, c.event.eventID, trace)
  {
  }

  /** Every call on event e from i+1 up to, but without, j is transient. */
  ghost predicate TransientUntil(cfg: Config, cat: Catalog, w: World, calls: seq<Call>, i: nat, j: nat, e: string)
    requires Runnable(cfg, cat, w) && j <= |calls|
  {
    forall k: nat :: i <= k < j && calls[k].event.eventID == e ==> TraceAt(cfg, cat, w, calls, k).result == Transient
  }

  /** The pending work before call i. */
  ghost function PendingBefore(cfg: Config, cat: Catalog, w: World, calls: seq<Call>, i: nat): map<string, PendingWork>
    requires Runnable(cfg, cat, w) && i <= |calls|
  {
    Run(cfg, cat, w, calls[..i]).pending
  }

  lemma PendingAt(cfg: Config, cat: Catalog, w: World, calls: seq<Call>, i: nat)
    requires Runnable(cfg, cat, w) && i < |calls|
    ensures PendingStep(PendingBefore(cfg, cat, w, calls, i), PendingBefore(cfg, cat, w, calls, i + 1),
                        calls[i].event.eventID, TraceAt(cfg, cat, w, calls, i))
  {
    var before := Run(cfg, cat, w, calls[..i]);
    var (sessions, reply) := S.AddStep(cfg, before.sessions, ReadingOf(calls[i].event), calls[i].victim);
    RunOneMore(cfg, cat, w, calls, i);
    PendingAfter(cat, before, calls[i], sessions, reply);
  }

  /** A run of the pending map: its states, the event of each call and what the call did. */
  ghost predicate IsHistory(states: seq<map<string, PendingWork>>, ids: seq<string>, traces: seq<Trace>) {
    && |states| == |ids| + 1 == |traces| + 1
    && forall k {:trigger traces[k]} :: 0 <= k < |ids| ==> PendingStep(states[k], states[k + 1], ids[k], traces[k])
  }

  ghost predicate TransientIn(ids: seq<string>, traces: seq<Trace>, i: nat, j: nat)
    requires |ids| == |traces| && i < j <= |ids|
  {
    forall k :: i <= k < j && ids[k] == ids[i] ==> traces[k].result == Transient
  }

  /** The work filed at step i stays while the steps of its event are transient. */
  lemma {:induction false} WorkStays(states: seq<map<string, PendingWork>>, ids: seq<string>, traces: seq<Trace>,
                                     i: nat, j: nat)
    requires IsHistory(states, ids, traces) && i < j <= |ids| && TransientIn(ids, traces, i, j)
    ensures ids[i] in states[j] && states[j][ids[i]].input == traces[i].attempt
    decreases j
  {
    assert PendingStep(states[j - 1], states[j - 1 + 1], ids[j - 1], traces[j - 1]);
    if i < j - 1 {
      WorkStays(states, ids, traces, i, j - 1);
    }
  }

  lemma StableInHistory(states: seq<map<string, PendingWork>>, ids: seq<string>, traces: seq<Trace>, i: nat, j: nat)
    requires IsHistory(states, ids, traces) && i < j < |ids| && TransientIn(ids, traces, i, j)
    requires ids[j] == ids[i] && ids[i] !in states[i]
    ensures traces[i].added && !traces[j].added && traces[j].attempt == traces[i].attempt
  {
    WorkStays(states, ids, traces, i, j);
    assert PendingStep(states[i], states[i + 1], ids[i], traces[i]);
    assert PendingStep(states[j], states[j + 1], ids[j], traces[j]);
  }

  ghost function StatesOf(cfg: Config, cat: Catalog, w: World, calls: seq<Call>): (s: seq<map<string, PendingWork>>)
    requires Runnable(cfg, cat, w)
    ensures |s| == |calls| + 1
  {
    seq(|calls| + 1, k requires 0 <= k <= |calls| => PendingBefore(cfg, cat, w, calls, k))
  }

  ghost function IdsOf(calls: seq<Call>): (ids: seq<string>)
    ensures |ids| == |calls|
  {
    seq(|calls|, k requires 0 <= k < |calls| => calls[k].event.eventID)
  }

  ghost function TracesOf(cfg: Config, cat: Catalog, w: World, calls: seq<Call>): (t: seq<Trace>)
    requires Runnable(cfg, cat, w)
    ensures |t| == |calls|
  {
    seq(|calls|, k requires 0 <= k < |calls| => TraceAt(cfg, cat, w, calls, k))
  }

  lemma RunIsHistory(cfg: Config, cat: Catalog, w: World, calls: seq<Call>)
    requires Runnable(cfg, cat, w)
    ensures IsHistory(StatesOf(cfg, cat, w, calls), IdsOf(calls), TracesOf(cfg, cat, w, calls))
  {
    forall k | 0 <= k < |calls|
      ensures PendingStep(StatesOf(cfg, cat, w, calls)[k], StatesOf(cfg, cat, w, calls)[k + 1], IdsOf(calls)[k],
                          TracesOf(cfg, cat, w, calls)[k])
    {
      PendingAt(cfg, cat, w, calls, k);
    }
  }

  lemma TransientHistory(cfg: Config, cat: Catalog, w: World, calls: seq<Call>, i: nat, j: nat)
    requires Runnable(cfg, cat, w) && i < j < |calls|
    requires TransientUntil(cfg, cat, w, calls, i, j, calls[i].event.eventID)
    ensures TransientIn(IdsOf(calls), TracesOf(cfg, cat, w, calls), i, j)
  {
    forall k | i <= k < j && IdsOf(calls)[k] == IdsOf(calls)[i]
      ensures TracesOf(cfg, cat, w, calls)[k].result == Transient
    {
      assert TraceAt(cfg, cat, w, calls, k).result == Transient;
    }
  }

  lemma HistoryOf(cfg: Config, cat: Catalog, w: World, calls: seq<Call>, i: nat, j: nat)
    returns (states: seq<map<string, PendingWork>>, ids: seq<string>, traces: seq<Trace>)
    requires Runnable(cfg, cat, w) && i < j < |calls|
    requires TransientUntil(cfg, cat, w, calls, i, j, calls[i].event.eventID)
    ensures IsHistory(states, ids, traces) && |ids| == |calls| && TransientIn(ids, traces, i, j)
    ensures states[i] == PendingBefore(cfg, cat, w, calls, i)
    ensures ids[i] == calls[i].event.eventID && ids[j] == calls[j].event.eventID
    ensures traces[i] == TraceAt(cfg, cat, w, calls, i) && traces[j] == TraceAt(cfg, cat, w, calls, j)
  {
    states, ids, traces := StatesOf(cfg, cat, w, calls), IdsOf(calls), TracesOf(cfg, cat, w, calls);
    RunIsHistory(cfg, cat, w, calls);
    TransientHistory(cfg, cat, w, calls, i, j);
  }

  /** Retried work is stable: from the first call for an event until its first success or
      permanent error, whatever calls for other events run in between and whatever the
      redelivered messages contain, Add is called once and every attempt to finalize gets
      the same input. */
  lemma RetriedWorkIsStable(cfg: Config, cat: Catalog, w: World, calls: seq<Call>, i: nat, j: nat)
    requires Runnable(cfg, cat, w) && i < j < |calls|
    requires var e := calls[i].event.eventID;
             && calls[j].event.eventID == e && e !in Run(cfg, cat, w, calls[..i]).pending
             && TransientUntil(cfg, cat, w, calls, i, j, e)
    ensures TraceAt(cfg, cat, w, calls, i).added && !TraceAt(cfg, cat, w, calls, j).added
    ensures TraceAt(cfg, cat, w, calls, j).attempt == TraceAt(cfg, cat, w, calls, i).attempt
  {
    var states, ids, traces := HistoryOf(cfg, cat, w, calls, i, j);
    StableInHistory(states, ids, traces, i, j);
  }
}
