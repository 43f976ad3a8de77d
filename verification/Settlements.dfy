/** What one call of the processor does to the pending work and the database and what it
    reports, for every state, event and fate of its durable write. */
module Settlements {
  import opened Window
  import opened Keys
  import S = Sessions
  import A = Answers
  import opened Finalizing
  import opened Conservation
  import opened Processing
  import O = Origins

  /** Some other event has the row of this stream id. */
  ghost predicate IsTaken(processed: map<string, LedgerRow>, e: Event) {
    e.eventID !in processed && exists o :: o in processed && processed[o].streamMessageID == e.streamID
  }

  /** A reading without a finalization: its event is logged, unless the write fails. */
  ghost predicate IsLogging(d: Durable, e: Event, fate: Fate, d': Durable, result: ProcessResult) {
    if fate.Raced? || fate.luck.Broken? || IsTaken(d.processed, e) then d' == d && result == Transient
    else
      && d'.ledger == d.ledger && IsLogged(d.processed, d'.processed, e)
      && result == if fate.luck.Fine? then Processed else Transient
  }

  /** A finalization: the answer of the transaction decides, unless it fails or its reply
      is lost; an error of its own is permanent. */
  ghost predicate IsFinalizing(cat: Catalog, d: Durable, input: Input, id: Id, fate: Fate, d': Durable,
                               result: ProcessResult)
  {
    && d'.processed == d.processed
    && (if fate.Raced? then d' == d && result == Permanent
        else if fate.luck.Broken? then d' == d && result == Transient
        else
          exists outcome ::
            && A.IsAnswer(cat, d.ledger, input, id, d'.ledger, outcome)
            && result == if fate.luck.Lost? then Transient else if outcome.Success? then Processed else Permanent)
  }

  lemma LoggingIs(d: Durable, e: Event, fate: Fate, d': Durable, result: ProcessResult)
    requires if fate.Raced? || fate.luck.Broken? || StreamTaken(d.processed, e) then d' == d && result == Transient
             else d' == d.(processed := WithRow(d.processed, e)) && result == if fate.luck.Fine? then Processed else Transient
    ensures IsLogging(d, e, fate, d', result)
  {
  }

  lemma FinalizingIs(cat: Catalog, d: Durable, input: Input, id: Id, fate: Fate, db: Database, outcome: Outcome)
    requires A.IsAnswer(cat, d.ledger, input, id, db, outcome)
    ensures fate == Unraced(Fine) ==>
              IsFinalizing(cat, d, input, id, fate, d.(ledger := db), if outcome.Success? then Processed else Permanent)
    ensures fate == Unraced(Lost) ==> IsFinalizing(cat, d, input, id, fate, d.(ledger := db), Transient)
    ensures fate == Unraced(Broken) ==> IsFinalizing(cat, d, input, id, fate, d, Transient)
    ensures fate == Raced ==> IsFinalizing(cat, d, input, id, fate, d, Permanent)
  {
  }

  lemma SettledIs(cat: Catalog, d: Durable, work: PendingWork, id: Id, fate: Fate)
    requires cat.Valid() && Sound(cat, d.ledger)
    ensures var (d', result) := Settle(cat, d, work, id, fate);
            if work.input.None? then IsLogging(d, work.event, fate, d', result)
            else IsFinalizing(cat, d, work.input.value, id, fate, d', result)
  {
    var (d', result) := Settle(cat, d, work, id, fate);
    if work.input.None? {
      LoggingIs(d, work.event, fate, d', result);
    } else {
      var (db, outcome) := Finalize(cat, d.ledger, work.input.value, id);
      A.FinalizeAnswers(cat, d.ledger, work.input.value, id);
      FinalizingIs(cat, d, work.input.value, id, fate, db, outcome);
    }
  }

  /** The work of a call: what is pending for its event or, if nothing is, what the answer
      of Add makes of it; None if Add refuses the reading. */
  ghost predicate IsWork(w: World, e: Event, reply: S.Reply, work: Option<PendingWork>) {
    if e.eventID in w.pending then work == Some(w.pending[e.eventID])
    else if !reply.Done? then work == None
    else
      && work.Some? && work.value.event == e
      && (work.value.input.Some? <==> reply.result.finalization.Some?)
      && (work.value.input.Some? ==>
            O.Asks(work.value.input.value, e, reply.result.key, reply.result.finalization.value))
  }

  /** A call without pending work whose reading is refused is a permanent error that only
      the sessions show; any other settles its work, and keeps it exactly when the result
      is transient. */
  ghost predicate IsCall(cat: Catalog, w: World, c: Call, sessions: S.SessionMap, work: Option<PendingWork>, w': World,
                         result: ProcessResult)
  {
    && w'.sessions == (if c.event.eventID in w.pending then w.sessions else sessions)
    && (if work.None? then result == Permanent && w'.durable == w.durable && w'.pending == w.pending
        else
          && (if work.value.input.None? then IsLogging(w.durable, work.value.event, c.fate, w'.durable, result)
              else IsFinalizing(cat, w.durable, work.value.input.value, c.id, c.fate, w'.durable, result))
          && w'.pending == if result == Transient then w.pending[c.event.eventID := work.value]
                           else w.pending - {c.event.eventID})
  }

  lemma CallAfter(cat: Catalog, w: World, c: Call, sessions: S.SessionMap, reply: S.Reply)
    requires cat.Valid() && Sound(cat, w.durable.ledger)
    ensures var (w', trace) := ProcessAfter(cat, w, c, sessions, reply);
            exists work :: IsWork(w, c.event, reply, work) && IsCall(cat, w, c, sessions, work, w', trace.result)
  {
    var (w', trace) := ProcessAfter(cat, w, c, sessions, reply);
    var work := if c.event.eventID in w.pending then Some(w.pending[c.event.eventID]) else WorkOf(c.event, reply);
    assert IsWork(w, c.event, reply, work);
    if work.Some? {
      SettledIs(cat, w.durable, work.value, c.id, c.fate);
    }
    assert IsCall(cat, w, c, sessions, work, w', trace.result);
  }

  /** Process, completely. */
  lemma CallIs(cfg: Config, cat: Catalog, w: World, c: Call)
    requires Runnable(cfg, cat, w) && Sound(cat, w.durable.ledger)
    ensures var e := c.event;
            var (sessions, reply) :=
              S.AddStep(cfg, w.sessions, Reading(e.scaleID, e.plate, e.weightGrams, e.measuredAt), c.victim);
            var (w', trace) := Process(cfg, cat, w, c);
            exists work :: IsWork(w, e, reply, work) && IsCall(cat, w, c, sessions, work, w', trace.result)
  {
    var (sessions, reply) := S.AddStep(cfg, w.sessions, ReadingOf(c.event), c.victim);
    CallAfter(cat, w, c, sessions, reply);
  }
}
