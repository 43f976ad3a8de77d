/** Where a recorded weight comes from: the input of every attempt is the finalization that
    the stabilizer reported for its event, and so a new row holds the middle weight of the
    last window of its passage. */
module Origins {
  import opened Window
  import opened Keys
  import opened Rationals
  import S = Sessions
  import R = Runs
  import P = Passages
  import V = Verdicts
  import A = Answers
  import opened Finalizing
  import opened Conservation
  import opened Processing
  import E = Effects
  import B = Books

  /** The input that asks to record the finalization f of key k, reported for event e. */
  predicate Asks(input: Input, e: Event, k: Key, f: S.Finalization) {
    && input.sessionID == k.scaleID + ":" + k.plate && input.stage == "FINAL"
    && input.eventID == e.eventID && input.transportID == ""
    && input.scaleID == e.scaleID && input.plate == e.plate
    && input.grossWeightGrams == f.weightGrams && input.sampleCount == f.sampleCount
    && input.dispersionGrams == f.dispersionGrams && input.algorithmVersion == f.algorithmVersion
    && input.weighedAt == f.stabilizedAt
    && input.slope == IntText(f.slope.num) + "/" + IntText(f.slope.den)
  }

  /** A call without pending work attempts a finalization exactly when Add reports one for
      the event's own reading, and then asks to record exactly that. */
  lemma AttemptIs(cfg: Config, cat: Catalog, w: World, c: Call)
    requires Runnable(cfg, cat, w) && c.event.eventID !in w.pending
    ensures var e := c.event;
            var reply := S.AddStep(cfg, w.sessions, Reading(e.scaleID, e.plate, e.weightGrams, e.measuredAt), c.victim).1;
            var trace := Process(cfg, cat, w, c).1;
            && (trace.attempt.Some? <==> reply.Done? && reply.result.finalization.Some?)
            && (trace.attempt.Some? ==>
                  Asks(trace.attempt.value, e, reply.result.key, reply.result.finalization.value))
  {
    var (sessions, reply) := S.AddStep(cfg, w.sessions, ReadingOf(c.event), c.victim);
    AttemptAfter(cat, w, c, sessions, reply);
  }

  lemma AttemptAfter(cat: Catalog, w: World, c: Call, sessions: S.SessionMap, reply: S.Reply)
    requires cat.Valid() && c.event.eventID !in w.pending
    ensures var trace := ProcessAfter(cat, w, c, sessions, reply).1;
            && (trace.attempt.Some? <==> reply.Done? && reply.result.finalization.Some?)
            && (trace.attempt.Some? ==>
                  Asks(trace.attempt.value, c.event, reply.result.key, reply.result.finalization.value))
  {
  }

  /** Every pending input was first attempted by an earlier call of its event. */
  lemma {:induction false} PendingHasOrigin(states: seq<map<string, PendingWork>>, ids: seq<string>, traces: seq<Trace>,
                                            j: nat, e: string) returns (i: nat)
    requires IsHistory(states, ids, traces) && j <= |ids| && states[0] == map[] && e in states[j]
    ensures i < j && ids[i] == e && traces[i].added && traces[i].attempt == states[j][e].input
    decreases j
  {
    i := j - 1;
    assert PendingStep(states[j - 1], states[j - 1 + 1], ids[j - 1], traces[j - 1]);
    if ids[j - 1] != e || e in states[j - 1] {
      i := PendingHasOrigin(states, ids, traces, j - 1, e);
    }
  }

  lemma AttemptInHistory(states: seq<map<string, PendingWork>>, ids: seq<string>, traces: seq<Trace>, j: nat)
    returns (i: nat)
    requires IsHistory(states, ids, traces) && j < |ids| && states[0] == map[]
    ensures i <= j && ids[i] == ids[j] && traces[i].added && traces[i].attempt == traces[j].attempt
  {
    assert PendingStep(states[j], states[j + 1], ids[j], traces[j]);
    i := j;
    if ids[j] in states[j] {
      i := PendingHasOrigin(states, ids, traces, j, ids[j]);
    }
  }

  lemma HistoryAt(cfg: Config, cat: Catalog, w: World, calls: seq<Call>, i: nat)
    requires Runnable(cfg, cat, w) && i < |calls|
    ensures IdsOf(calls)[i] == calls[i].event.eventID
    ensures TracesOf(cfg, cat, w, calls)[i] == TraceAt(cfg, cat, w, calls, i)
  {
  }

  lemma HistoryStart(cfg: Config, cat: Catalog, w: World, calls: seq<Call>)
    requires Runnable(cfg, cat, w) && w.pending == map[]
    ensures StatesOf(cfg, cat, w, calls)[0] == map[]
  {
    assert calls[..0] == [];
  }

  /** The call in which the stabilizer reported what call j attempts to record. */
  lemma AttemptHasOrigin(cfg: Config, cat: Catalog, w: World, calls: seq<Call>, j: nat) returns (i: nat)
    requires Runnable(cfg, cat, w) && w.pending == map[] && j < |calls|
    ensures i <= j && calls[i].event.eventID == calls[j].event.eventID
    ensures TraceAt(cfg, cat, w, calls, i).added
    ensures TraceAt(cfg, cat, w, calls, i).attempt == TraceAt(cfg, cat, w, calls, j).attempt
  {
    RunIsHistory(cfg, cat, w, calls);
    HistoryStart(cfg, cat, w, calls);
    i := AttemptInHistory(StatesOf(cfg, cat, w, calls), IdsOf(calls), TracesOf(cfg, cat, w, calls), j);
    HistoryAt(cfg, cat, w, calls, i);
    HistoryAt(cfg, cat, w, calls, j);
  }

  /** The readings that the first n calls gave to the manager, as a run of it. */
  ghost function Fed(cfg: Config, cat: Catalog, w: World, calls: seq<Call>, n: nat): seq<R.Event>
    requires Runnable(cfg, cat, w) && n <= |calls|
  {
    FedBy(B.Feeds(cfg, cat, w, calls), n)
  }

  function FedBy(feeds: seq<Option<R.Event>>, n: nat): seq<R.Event>
    requires n <= |feeds|
    decreases n
  {
    if n == 0 then [] else Extended(FedBy(feeds, n - 1), feeds[n - 1])
  }

  function Extended(es: seq<R.Event>, feed: Option<R.Event>): seq<R.Event> {
    if feed.Some? then es + [feed.value] else es
  }

  lemma FedOneMore(cfg: Config, es: seq<R.Event>, e: R.Event)
    requires cfg.Valid()
    ensures R.After(cfg, es + [e]) == R.Step(cfg, R.After(cfg, es), e).0
    ensures R.LastOutput(cfg, es + [e]) == R.Step(cfg, R.After(cfg, es), e).1
  {
    assert (es + [e])[..|es|] == es;
  }

  /** The sessions after a feed, or none. */
  ghost function NextOf(cfg: Config): (S.SessionMap, Option<R.Event>) -> S.SessionMap
    requires cfg.Valid()
  {
    (ss: S.SessionMap, feed: Option<R.Event>) => if S.Inv(cfg, ss) && feed.Some? then R.Step(cfg, ss, feed.value).0 else ss
  }

  ghost function AfterOf(cfg: Config): seq<R.Event> -> S.SessionMap
    requires cfg.Valid()
  {
    es => R.After(cfg, es)
  }

  lemma AfterExtended(cfg: Config, es: seq<R.Event>, feed: Option<R.Event>)
    requires cfg.Valid()
    ensures AfterOf(cfg)(Extended(es, feed)) == NextOf(cfg)(AfterOf(cfg)(es), feed)
  {
    if feed.Some? {
      FedOneMore(cfg, es, feed.value);
    }
  }

  lemma {:induction false} StatesFollow(after: seq<R.Event> -> S.SessionMap,
                                        next: (S.SessionMap, Option<R.Event>) -> S.SessionMap,
                                        states: seq<S.SessionMap>, feeds: seq<Option<R.Event>>, n: nat)
    requires forall es, feed :: after(Extended(es, feed)) == next(after(es), feed)
    requires |states| == |feeds| + 1 && states[0] == after([]) && n <= |feeds|
    requires forall m {:trigger feeds[m]} :: 0 <= m < |feeds| ==> states[m + 1] == next(states[m], feeds[m])
    ensures states[n] == after(FedBy(feeds, n))
    decreases n
  {
    if n > 0 {
      StatesFollow(after, next, states, feeds, n - 1);
      assert states[n - 1 + 1] == next(states[n - 1], feeds[n - 1]);
    }
  }

  lemma FeedingIsRun(cfg: Config, states: seq<S.SessionMap>, feeds: seq<Option<R.Event>>, n: nat)
    requires cfg.Valid() && B.IsFeeding(cfg, states, feeds) && states[0] == map[] && n <= |feeds|
    ensures states[n] == AfterOf(cfg)(FedBy(feeds, n))
  {
    forall es, feed
      ensures AfterOf(cfg)(Extended(es, feed)) == NextOf(cfg)(AfterOf(cfg)(es), feed)
    {
      AfterExtended(cfg, es, feed);
    }
    forall m | 0 <= m < |feeds|
      ensures states[m + 1] == NextOf(cfg)(states[m], feeds[m])
    {
      assert B.FeedStep(cfg, states[m], feeds[m], states[m + 1]);
    }
    StatesFollow(AfterOf(cfg), NextOf(cfg), states, feeds, n);
  }

  /** The sessions of a processor that started empty are those of a run of the manager. */
  lemma SessionsAreRun(cfg: Config, cat: Catalog, w: World, calls: seq<Call>, n: nat)
    requires Runnable(cfg, cat, w) && w.sessions == map[] && n <= |calls|
    ensures B.SessionsAt(cfg, cat, w, calls, n) == R.After(cfg, Fed(cfg, cat, w, calls, n))
  {
    assert calls[..0] == [];
    B.RunFeeds(cfg, cat, w, calls);
    FeedingIsRun(cfg, B.SessionStates(cfg, cat, w, calls), B.Feeds(cfg, cat, w, calls), n);
  }

  /** What Add answered when call i called it. */
  ghost function ReplyAt(cfg: Config, cat: Catalog, w: World, calls: seq<Call>, i: nat): S.Reply
    requires Runnable(cfg, cat, w) && i < |calls|
  {
    S.AddStep(cfg, B.SessionsAt(cfg, cat, w, calls, i), ReadingOf(calls[i].event), calls[i].victim).1
  }

  lemma FedNext(cfg: Config, cat: Catalog, w: World, calls: seq<Call>, i: nat)
    requires Runnable(cfg, cat, w) && i < |calls| && TraceAt(cfg, cat, w, calls, i).added
    ensures Fed(cfg, cat, w, calls, i + 1) == Fed(cfg, cat, w, calls, i) + [B.FedAt(calls, i)]
  {
  }

  lemma LastOutputIs(cfg: Config, es: seq<R.Event>, ss: S.SessionMap, r: Reading, victim: Key)
    requires cfg.Valid() && ss == R.After(cfg, es)
    ensures R.LastOutput(cfg, es + [R.Add(r, victim)]) == R.Replied(S.AddStep(cfg, ss, r, victim).1)
  {
    FedOneMore(cfg, es, R.Add(r, victim));
  }

  lemma ReplyIsLastOutput(cfg: Config, cat: Catalog, w: World, calls: seq<Call>, i: nat)
    requires Runnable(cfg, cat, w) && w.sessions == map[] && i < |calls| && TraceAt(cfg, cat, w, calls, i).added
    ensures var es := Fed(cfg, cat, w, calls, i + 1);
            && es != [] && es[|es| - 1] == B.FedAt(calls, i)
            && R.LastOutput(cfg, es) == R.Replied(ReplyAt(cfg, cat, w, calls, i))
  {
    SessionsAreRun(cfg, cat, w, calls, i);
    FedNext(cfg, cat, w, calls, i);
    LastOutputIs(cfg, Fed(cfg, cat, w, calls, i), B.SessionsAt(cfg, cat, w, calls, i), ReadingOf(calls[i].event),
                 calls[i].victim);
  }

  lemma AttemptAt(cfg: Config, cat: Catalog, w: World, calls: seq<Call>, i: nat)
    requires Runnable(cfg, cat, w) && i < |calls| && TraceAt(cfg, cat, w, calls, i).added
    requires TraceAt(cfg, cat, w, calls, i).attempt.Some?
    ensures var reply := ReplyAt(cfg, cat, w, calls, i);
            && reply.Done? && reply.result.finalization.Some?
            && Asks(TraceAt(cfg, cat, w, calls, i).attempt.value, calls[i].event, reply.result.key,
                    reply.result.finalization.value)
  {
    var before := Run(cfg, cat, w, calls[..i]);
    var (sessions, reply) := S.AddStep(cfg, before.sessions, ReadingOf(calls[i].event), calls[i].victim);
    PendingAfter(cat, before, calls[i], sessions, reply);
    AttemptAfter(cat, before, calls[i], sessions, reply);
  }

  /** A finalization leaves its session stored, so its reading is the last of a passage. */
  lemma FinalizationEndsAccepted(cfg: Config, es: seq<R.Event>, k: Key)
    requires cfg.Valid() && es != [] && es[|es| - 1].Add? && R.IsFinalizationOf(R.LastOutput(cfg, es), k)
    ensures P.EndsAccepted(cfg, es, k)
  {
    var before := R.After(cfg, es[..|es| - 1]);
    R.FinalizationStep(cfg, before, es[|es| - 1], k);
    E.AddReports(cfg, before, es[|es| - 1].reading, es[|es| - 1].victim);
  }

  /** The input carries the middle weight, the count, the dispersion and the slope of the
      last window of h, and the time of its last reading. */
  ghost predicate IsMeasured(cfg: Config, h: seq<Reading>, input: Input)
    requires cfg.Valid() && Ordered(h)
  {
    && h != [] && V.IsReady(cfg, V.WindowOf(cfg, h))
    && exists st :: V.IsVerdict(cfg, V.WindowOf(cfg, h), st) && IsMeasurement(cfg, input, st, h[|h| - 1].measuredAt)
  }

  predicate IsMeasurement(cfg: Config, input: Input, st: WindowStats, at: Time) {
    && input.grossWeightGrams == st.medianGrams && input.sampleCount == st.sampleCount
    && input.dispersionGrams == st.dispersionGrams && input.weighedAt == at
    && input.slope == IntText(st.slope.num) + "/" + IntText(st.slope.den)
    && input.algorithmVersion == cfg.algorithmVersion
  }

  lemma ReportedIsMeasurement(cfg: Config, e: Event, k: Key, f: S.Finalization, st: WindowStats, at: Time, input: Input)
    requires Asks(input, e, k, f) && V.Reports(cfg, f, st, at)
    ensures IsMeasurement(cfg, input, st, at)
  {
  }

  lemma ReportedIsMeasured(cfg: Config, h: seq<Reading>, e: Event, k: Key, f: S.Finalization, input: Input)
    requires cfg.Valid() && Ordered(h) && V.IsReported(cfg, h, f) && Asks(input, e, k, f)
    ensures IsMeasured(cfg, h, input)
  {
    var st :| V.IsVerdict(cfg, V.WindowOf(cfg, h), st) && V.Reports(cfg, f, st, h[|h| - 1].measuredAt);
    ReportedIsMeasurement(cfg, e, k, f, st, h[|h| - 1].measuredAt, input);
  }

  /** Every input that a run attempts to record is the measurement, by order statistics of
      the readings of its own passage, that some call of the same event ended. */
  lemma AttemptIsMeasured(cfg: Config, cat: Catalog, w: World, calls: seq<Call>, j: nat) returns (i: nat, k: Key)
    requires Runnable(cfg, cat, w) && w.sessions == map[] && w.pending == map[] && j < |calls|
    requires TraceAt(cfg, cat, w, calls, j).attempt.Some?
    ensures i <= j && calls[i].event.eventID == calls[j].event.eventID && TraceAt(cfg, cat, w, calls, i).added
    ensures ReadingKey(ReadingOf(calls[i].event)) == Some(k)
    ensures TraceAt(cfg, cat, w, calls, j).attempt.value.sessionID == k.scaleID + ":" + k.plate
    ensures P.EndsAccepted(cfg, Fed(cfg, cat, w, calls, i + 1), k)
    ensures IsMeasured(cfg, P.HistoryIn(cfg, Fed(cfg, cat, w, calls, i + 1), k), TraceAt(cfg, cat, w, calls, j).attempt.value)
  {
    i := AttemptHasOrigin(cfg, cat, w, calls, j);
    k := MeasuredAt(cfg, cat, w, calls, i);
  }

  lemma MeasuredAt(cfg: Config, cat: Catalog, w: World, calls: seq<Call>, i: nat) returns (k: Key)
    requires Runnable(cfg, cat, w) && w.sessions == map[] && i < |calls|
    requires TraceAt(cfg, cat, w, calls, i).added && TraceAt(cfg, cat, w, calls, i).attempt.Some?
    ensures ReadingKey(ReadingOf(calls[i].event)) == Some(k)
    ensures TraceAt(cfg, cat, w, calls, i).attempt.value.sessionID == k.scaleID + ":" + k.plate
    ensures P.EndsAccepted(cfg, Fed(cfg, cat, w, calls, i + 1), k)
    ensures IsMeasured(cfg, P.HistoryIn(cfg, Fed(cfg, cat, w, calls, i + 1), k), TraceAt(cfg, cat, w, calls, i).attempt.value)
  {
    AttemptAt(cfg, cat, w, calls, i);
    ReplyIsLastOutput(cfg, cat, w, calls, i);
    k := ReplyAt(cfg, cat, w, calls, i).result.key;
    var es := Fed(cfg, cat, w, calls, i + 1);
    FinalizationEndsAccepted(cfg, es, k);
    V.FinalizationReports(cfg, es, k);
    ReportedIsMeasured(cfg, P.HistoryIn(cfg, es, k), calls[i].event, k, R.LastOutput(cfg, es).reply.result.finalization.value,
                       TraceAt(cfg, cat, w, calls, i).attempt.value);
  }

  /** A row that a run records first has as its gross weight, count, dispersion and time the
      measurement of the last window of its passage, and its amounts follow from it. */
  lemma RecordedIsMeasured(cfg: Config, cat: Catalog, w: World, calls: seq<Call>, j: nat) returns (i: nat, k: Key)
    requires Runnable(cfg, cat, w) && w.sessions == map[] && w.pending == map[] && j < |calls|
    requires Sound(cat, w.durable.ledger) && E.ChangesLedger(cfg, cat, w, calls, j)
    ensures i <= j && calls[i].event.eventID == calls[j].event.eventID
    ensures P.EndsAccepted(cfg, Fed(cfg, cat, w, calls, i + 1), k)
    ensures var before, after := Run(cfg, cat, w, calls[..j]).durable.ledger, Run(cfg, cat, w, calls[..j + 1]).durable.ledger;
            exists row, stock, input ::
              && A.IsRowFor(cat, before, input, calls[j].id, row, stock) && A.IsWritten(before, after, row, stock)
              && IsMeasured(cfg, P.HistoryIn(cfg, Fed(cfg, cat, w, calls, i + 1), k), input)
  {
    LedgerBefore(cfg, cat, w, calls, j);
    var input := ChangeIsAnswer(cfg, cat, w, calls, j);
    i, k := AttemptIsMeasured(cfg, cat, w, calls, j);
    var before, after := Run(cfg, cat, w, calls[..j]).durable.ledger, Run(cfg, cat, w, calls[..j + 1]).durable.ledger;
    var row, stock :| A.IsRowFor(cat, before, input, calls[j].id, row, stock) && A.IsWritten(before, after, row, stock);
  }

  lemma LedgerBefore(cfg: Config, cat: Catalog, w: World, calls: seq<Call>, j: nat)
    requires Runnable(cfg, cat, w) && j < |calls| && Sound(cat, w.durable.ledger)
    ensures Sound(cat, Run(cfg, cat, w, calls[..j]).durable.ledger)
  {
    E.LedgerStaysSound(cfg, cat, w, calls[..j]);
  }

  /** A call that changes the ledger writes the answer to its attempt. */
  lemma ChangeIsAnswer(cfg: Config, cat: Catalog, w: World, calls: seq<Call>, j: nat) returns (input: Input)
    requires Runnable(cfg, cat, w) && j < |calls| && E.ChangesLedger(cfg, cat, w, calls, j)
    requires Sound(cat, Run(cfg, cat, w, calls[..j]).durable.ledger)
    ensures TraceAt(cfg, cat, w, calls, j).attempt == Some(input)
    ensures exists row, stock ::
      && A.IsRowFor(cat, Run(cfg, cat, w, calls[..j]).durable.ledger, input, calls[j].id, row, stock)
      && A.IsWritten(Run(cfg, cat, w, calls[..j]).durable.ledger, Run(cfg, cat, w, calls[..j + 1]).durable.ledger, row, stock)
  {
    var before := Run(cfg, cat, w, calls[..j]);
    var (sessions, reply) := S.AddStep(cfg, before.sessions, ReadingOf(calls[j].event), calls[j].victim);
    RunOneMore(cfg, cat, w, calls, j);
    input := ChangeAfter(cat, before, calls[j], sessions, reply);
  }

  lemma ChangeAfter(cat: Catalog, w: World, c: Call, sessions: S.SessionMap, reply: S.Reply) returns (input: Input)
    requires cat.Valid() && Sound(cat, w.durable.ledger)
    requires ProcessAfter(cat, w, c, sessions, reply).0.durable.ledger != w.durable.ledger
    ensures ProcessAfter(cat, w, c, sessions, reply).1.attempt == Some(input)
    ensures exists row, stock ::
      && A.IsRowFor(cat, w.durable.ledger, input, c.id, row, stock)
      && A.IsWritten(w.durable.ledger, ProcessAfter(cat, w, c, sessions, reply).0.durable.ledger, row, stock)
  {
    E.DurableAfter(cat, w, c, sessions, reply);
    input := E.Settled(w, c, reply).value.input.value;
    FinalizeRecords(cat, w.durable.ledger, input, c.id);
    var t := FindTransport(cat, w.durable.ledger, input).value;
    A.NewRowIs(cat, w.durable.ledger, input, c.id, t);
  }
}
