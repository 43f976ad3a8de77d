/** What follows for a worker: where an event ends that its processor sees again, what a
    second passage gets, and that the report agrees with the stock. */
module Books {
  import opened Window
  import opened Keys
  import S = Sessions
  import R = Runs
  import opened Finalizing
  import opened Conservation
  import opened Processing
  import opened Effects
  import opened Reports

  /** The database keeps one final weighing per scale and plate: a later passage of the
      same key, with any weight and event, is told the first one, or another weighing of
      its own event, and changes nothing. */
  lemma LaterPassageChangesNothing(cat: Catalog, db: Database, e: Event, k: Key, f: S.Finalization, id: Id)
    requires cat.Valid() && HasSession(db.weighings, SessionID(k), FINAL_STAGE)
    ensures var (db', out) := Finalize(cat, db, InputOf(e, k, f), id);
            && db' == db
            && (ValidInput(InputOf(e, k, f)) ==>
                  out.Success? && out.weighing in db.weighings && IsFor(out.weighing, InputOf(e, k, f)))
            && (!ValidInput(InputOf(e, k, f)) ==> out == ErrValidation)
  {
    var input := InputOf(e, k, f);
    FinalizeChangesOnce(cat, db, input, id);
    if ValidInput(input) {
      var i :| 0 <= i < |db.weighings| && db.weighings[i].sessionID == input.sessionID
               && db.weighings[i].stage == input.stage;
      assert IsFor(db.weighings[i], input);
      assert FindExisting(db, input).Some?;
      FoundIsReturned(cat, db, input, id, FindExisting(db, input).value);
    }
  }

  /** An event without pending work, new or redelivered, goes to Add again. Exactly when
      its session refuses the reading, the session ends up FAILED; the call is then a
      permanent error that writes nothing. Otherwise the event's work is settled like any
      other. */
  lemma RefusedCallIff(cfg: Config, cat: Catalog, w: World, c: Call, k: Key)
    requires Runnable(cfg, cat, w) && c.event.eventID !in w.pending && ReadingKey(ReadingOf(c.event)) == Some(k)
    ensures var (w', trace) := Process(cfg, cat, w, c);
            && trace.added
            && (R.Refuses(cfg, w.sessions, k, ReadingOf(c.event)) <==>
                  k in w'.sessions && w'.sessions[k].state == S.Failed)
            && (R.Refuses(cfg, w.sessions, k, ReadingOf(c.event)) ==>
                  trace.result == Permanent && w'.durable == w.durable && w'.pending == w.pending)
            && (!R.Refuses(cfg, w.sessions, k, ReadingOf(c.event)) ==>
                  exists work :: WorkFor(work, c.event, trace)
                                 && (w'.durable, trace.result) == Settle(cat, w.durable, work, c.id, c.fate))
  {
    var r := ReadingOf(c.event);
    R.RefusedIff(cfg, w.sessions, r, c.victim, k);
    var (sessions, reply) := S.AddStep(cfg, w.sessions, r, c.victim);
    SessionsAfter(cat, w, c, sessions, reply);
    if reply.Done? {
      DurableAfter(cat, w, c, sessions, reply);
      assert WorkFor(WorkOf(c.event, reply).value, c.event, ProcessAfter(cat, w, c, sessions, reply).1);
    } else {
      RefusedIsPermanent(cat, w, c, sessions, reply);
    }
  }

  /** The work of the event's own reading. */
  ghost predicate WorkFor(work: PendingWork, e: Event, trace: Trace) {
    work.event == e && work.input == trace.attempt
  }

  lemma RefusedIsPermanent(cat: Catalog, w: World, c: Call, sessions: S.SessionMap, reply: S.Reply)
    requires cat.Valid() && c.event.eventID !in w.pending && !reply.Done?
    ensures ProcessAfter(cat, w, c, sessions, reply) == (w.(sessions := sessions), Trace(Permanent, true, None))
  {
  }

  /** The reading that call m gives to the manager, as an event of its run. */
  ghost function FedAt(calls: seq<Call>, m: nat): R.Event
    requires m < |calls|
  {
    R.Add(ReadingOf(calls[m].event), calls[m].victim)
  }

  ghost function SessionsAt(cfg: Config, cat: Catalog, w: World, calls: seq<Call>, m: nat): S.SessionMap
    requires Runnable(cfg, cat, w) && m <= |calls|
  {
    Run(cfg, cat, w, calls[..m]).sessions
  }

  /** A call steps the manager if it calls Add, and leaves it alone otherwise. */
  lemma SessionsStep(cfg: Config, cat: Catalog, w: World, calls: seq<Call>, m: nat)
    requires Runnable(cfg, cat, w) && m < |calls|
    ensures SessionsAt(cfg, cat, w, calls, m + 1)
         == if TraceAt(cfg, cat, w, calls, m).added then R.Step(cfg, SessionsAt(cfg, cat, w, calls, m), FedAt(calls, m)).0
            else SessionsAt(cfg, cat, w, calls, m)
  {
    var before := Run(cfg, cat, w, calls[..m]);
    var (sessions, reply) := S.AddStep(cfg, before.sessions, ReadingOf(calls[m].event), calls[m].victim);
    RunOneMore(cfg, cat, w, calls, m);
    SessionsAfter(cat, before, calls[m], sessions, reply);
    PendingAfter(cat, before, calls[m], sessions, reply);
  }

  /** The call keeps the session of k, if it feeds the manager at all. */
  ghost predicate Keeps(cfg: Config, ss: S.SessionMap, feed: Option<R.Event>, k: Key)
    requires cfg.Valid()
  {
    feed.Some? && k in ss ==> !R.Releases(cfg, ss, feed.value, k)
  }

  ghost function FeedAt(cfg: Config, cat: Catalog, w: World, calls: seq<Call>, m: nat): Option<R.Event>
    requires Runnable(cfg, cat, w) && m < |calls|
  {
    if TraceAt(cfg, cat, w, calls, m).added then Some(FedAt(calls, m)) else None
  }

  /** None of the calls from i to j, without j, releases the session of k. */
  ghost predicate SessionKept(cfg: Config, cat: Catalog, w: World, calls: seq<Call>, i: nat, j: nat, k: Key)
    requires Runnable(cfg, cat, w) && j <= |calls|
  {
    forall m: nat :: i <= m < j ==> Keeps(cfg, SessionsAt(cfg, cat, w, calls, m), FeedAt(cfg, cat, w, calls, m), k)
  }

  ghost predicate FeedStep(cfg: Config, ss: S.SessionMap, feed: Option<R.Event>, ss': S.SessionMap)
    requires cfg.Valid()
  {
    && S.Inv(cfg, ss) && S.Inv(cfg, ss')
    && ss' == if feed.Some? then R.Step(cfg, ss, feed.value).0 else ss
  }

  /** The sessions along a run of calls that feed the manager or do not. */
  ghost predicate IsFeeding(cfg: Config, states: seq<S.SessionMap>, feeds: seq<Option<R.Event>>)
    requires cfg.Valid()
  {
    && |states| == |feeds| + 1
    && forall m {:trigger feeds[m]} :: 0 <= m < |feeds| ==> FeedStep(cfg, states[m], feeds[m], states[m + 1])
  }

  ghost predicate KeptAlong(cfg: Config, states: seq<S.SessionMap>, feeds: seq<Option<R.Event>>, i: nat, j: nat, k: Key)
    requires cfg.Valid() && |states| == |feeds| + 1 && j <= |feeds|
  {
    forall m {:trigger feeds[m]} :: i <= m < j ==> Keeps(cfg, states[m], feeds[m], k)
  }

  lemma RefusesNext(cfg: Config, ss: S.SessionMap, feed: Option<R.Event>, ss': S.SessionMap, k: Key, r: Reading)
    requires cfg.Valid() && FeedStep(cfg, ss, feed, ss') && Keeps(cfg, ss, feed, k) && R.Refuses(cfg, ss, k, r)
    ensures R.Refuses(cfg, ss', k, r)
  {
    if feed.Some? {
      R.RefusesStays(cfg, ss, feed.value, k, r);
    }
  }

  lemma {:induction false} StillRefuses(cfg: Config, states: seq<S.SessionMap>, feeds: seq<Option<R.Event>>, i: nat, j: nat,
                                        k: Key, r: Reading)
    requires cfg.Valid() && IsFeeding(cfg, states, feeds) && i <= j <= |feeds|
    requires R.Refuses(cfg, states[i], k, r) && KeptAlong(cfg, states, feeds, i, j, k)
    ensures R.Refuses(cfg, states[j], k, r)
    decreases j
  {
    if i < j {
      StillRefuses(cfg, states, feeds, i, j - 1, k, r);
      assert FeedStep(cfg, states[j - 1], feeds[j - 1], states[j - 1 + 1]);
      RefusesNext(cfg, states[j - 1], feeds[j - 1], states[j], k, r);
    }
  }

  ghost function SessionStates(cfg: Config, cat: Catalog, w: World, calls: seq<Call>): (states: seq<S.SessionMap>)
    requires Runnable(cfg, cat, w)
    ensures |states| == |calls| + 1
  {
    seq(|calls| + 1, m requires 0 <= m <= |calls| => SessionsAt(cfg, cat, w, calls, m))
  }

  ghost function Feeds(cfg: Config, cat: Catalog, w: World, calls: seq<Call>): (feeds: seq<Option<R.Event>>)
    requires Runnable(cfg, cat, w)
    ensures |feeds| == |calls|
  {
    seq(|calls|, m requires 0 <= m < |calls| => FeedAt(cfg, cat, w, calls, m))
  }

  lemma SessionsFeed(cfg: Config, cat: Catalog, w: World, calls: seq<Call>, m: nat)
    requires Runnable(cfg, cat, w) && m < |calls|
    ensures FeedStep(cfg, SessionsAt(cfg, cat, w, calls, m), FeedAt(cfg, cat, w, calls, m),
                     SessionsAt(cfg, cat, w, calls, m + 1))
  {
    SessionsStep(cfg, cat, w, calls, m);
  }

  lemma RunFeeds(cfg: Config, cat: Catalog, w: World, calls: seq<Call>)
    requires Runnable(cfg, cat, w)
    ensures IsFeeding(cfg, SessionStates(cfg, cat, w, calls), Feeds(cfg, cat, w, calls))
  {
    var states, feeds := SessionStates(cfg, cat, w, calls), Feeds(cfg, cat, w, calls);
    forall m | 0 <= m < |calls|
      ensures FeedStep(cfg, states[m], feeds[m], states[m + 1])
    {
      SessionsFeed(cfg, cat, w, calls, m);
    }
  }

  lemma RunKept(cfg: Config, cat: Catalog, w: World, calls: seq<Call>, i: nat, j: nat, k: Key)
    requires Runnable(cfg, cat, w) && j <= |calls| && SessionKept(cfg, cat, w, calls, i, j, k)
    ensures KeptAlong(cfg, SessionStates(cfg, cat, w, calls), Feeds(cfg, cat, w, calls), i, j, k)
  {
    var states, feeds := SessionStates(cfg, cat, w, calls), Feeds(cfg, cat, w, calls);
    forall m | i <= m < j
      ensures Keeps(cfg, states[m], feeds[m], k)
    {
      assert Keeps(cfg, SessionsAt(cfg, cat, w, calls, m), FeedAt(cfg, cat, w, calls, m), k);
    }
  }

  lemma RefusesLater(cfg: Config, cat: Catalog, w: World, calls: seq<Call>, i: nat, j: nat, k: Key, r: Reading)
    requires Runnable(cfg, cat, w) && i <= j <= |calls| && SessionKept(cfg, cat, w, calls, i, j, k)
    requires R.Refuses(cfg, SessionsAt(cfg, cat, w, calls, i), k, r)
    ensures R.Refuses(cfg, SessionsAt(cfg, cat, w, calls, j), k, r)
  {
    RunFeeds(cfg, cat, w, calls);
    RunKept(cfg, cat, w, calls, i, j, k);
    StillRefuses(cfg, SessionStates(cfg, cat, w, calls), Feeds(cfg, cat, w, calls), i, j, k, r);
  }

  lemma RefusesFromThenOn(cfg: Config, cat: Catalog, w: World, calls: seq<Call>, i: nat, k: Key)
    requires Runnable(cfg, cat, w) && i < |calls| && TraceAt(cfg, cat, w, calls, i).added
    requires ReadingKey(ReadingOf(calls[i].event)) == Some(k) && k in SessionsAt(cfg, cat, w, calls, i + 1)
    ensures R.Refuses(cfg, SessionsAt(cfg, cat, w, calls, i + 1), k, ReadingOf(calls[i].event))
  {
    SessionsStep(cfg, cat, w, calls, i);
    R.RefusesAfterAdd(cfg, SessionsAt(cfg, cat, w, calls, i), ReadingOf(calls[i].event), calls[i].victim, k);
  }

  lemma RefusesUntil(cfg: Config, cat: Catalog, w: World, calls: seq<Call>, i: nat, j: nat, k: Key)
    requires Runnable(cfg, cat, w) && i < j <= |calls| && TraceAt(cfg, cat, w, calls, i).added
    requires ReadingKey(ReadingOf(calls[i].event)) == Some(k) && k in SessionsAt(cfg, cat, w, calls, i + 1)
    requires SessionKept(cfg, cat, w, calls, i + 1, j, k)
    ensures R.Refuses(cfg, SessionsAt(cfg, cat, w, calls, j), k, ReadingOf(calls[i].event))
  {
    RefusesFromThenOn(cfg, cat, w, calls, i, k);
    RefusesLater(cfg, cat, w, calls, i + 1, j, k, ReadingOf(calls[i].event));
  }

  /** Call j is a permanent error that writes nothing and fails the session of k. */
  ghost predicate IsRefusedAt(cfg: Config, cat: Catalog, w: World, calls: seq<Call>, j: nat, k: Key)
    requires Runnable(cfg, cat, w) && j < |calls|
  {
    var before, after := Run(cfg, cat, w, calls[..j]), Run(cfg, cat, w, calls[..j + 1]);
    && TraceAt(cfg, cat, w, calls, j).result == Permanent && TraceAt(cfg, cat, w, calls, j).added
    && after.durable == before.durable && after.pending == before.pending
    && k in after.sessions && after.sessions[k].state == S.Failed
  }

  lemma RefusedAt(cfg: Config, cat: Catalog, w: World, calls: seq<Call>, j: nat, k: Key)
    requires Runnable(cfg, cat, w) && j < |calls| && ReadingKey(ReadingOf(calls[j].event)) == Some(k)
    requires calls[j].event.eventID !in Run(cfg, cat, w, calls[..j]).pending
    requires R.Refuses(cfg, SessionsAt(cfg, cat, w, calls, j), k, ReadingOf(calls[j].event))
    ensures IsRefusedAt(cfg, cat, w, calls, j, k)
  {
    RefusedCallIff(cfg, cat, Run(cfg, cat, w, calls[..j]), calls[j], k);
    RunOneMore(cfg, cat, w, calls, j);
  }

  /** A redelivery while its session lives. Call i gave an event's reading to Add and its
      session was still stored afterwards; no call since released that session. Then a
      later call with the same event and no pending work, as after a failed
      acknowledgement, is a permanent error that writes nothing and fails the session. */
  lemma RedeliveredIsRefused(cfg: Config, cat: Catalog, w: World, calls: seq<Call>, i: nat, j: nat, k: Key)
    requires Runnable(cfg, cat, w) && i < j < |calls| && calls[j].event == calls[i].event
    requires TraceAt(cfg, cat, w, calls, i).added && calls[j].event.eventID !in Run(cfg, cat, w, calls[..j]).pending
    requires ReadingKey(ReadingOf(calls[i].event)) == Some(k) && k in SessionsAt(cfg, cat, w, calls, i + 1)
    requires SessionKept(cfg, cat, w, calls, i + 1, j, k)
    ensures IsRefusedAt(cfg, cat, w, calls, j, k)
  {
    RefusesUntil(cfg, cat, w, calls, i, j, k);
    RefusedAt(cfg, cat, w, calls, j, k);
  }

  /** A redelivery after its session is gone, by a low weight, an eviction or a crash of the
      worker: Add opens a new session and the call succeeds again. One reading finalizes
      nothing, so the weighings and inventories stay as they are, and of the event's row
      the first is kept. */
  lemma RedeliveredIsProcessedAgain(cfg: Config, cat: Catalog, w: World, c: Call, k: Key)
    requires Runnable(cfg, cat, w) && c.event.eventID !in w.pending && ReadingKey(ReadingOf(c.event)) == Some(k)
    requires k !in w.sessions && c.fate == Unraced(Fine) && !StreamTaken(w.durable.processed, c.event)
    ensures var (w', trace) := Process(cfg, cat, w, c);
            && trace.result == Processed && k in w'.sessions
            && w'.durable == w.durable.(processed := WithRow(w.durable.processed, c.event))
  {
    var r := ReadingOf(c.event);
    var (sessions, reply) := S.AddStep(cfg, w.sessions, r, c.victim);
    R.RefusedIff(cfg, w.sessions, r, c.victim, k);
    NewSessionIsStored(cfg, w.sessions, r, c.victim, k);
    NoEarlyFinalization(cfg, w.sessions, r, c.victim, k);
    SessionsAfter(cat, w, c, sessions, reply);
    DurableAfter(cat, w, c, sessions, reply);
  }

  lemma NewSessionIsStored(cfg: Config, ss: S.SessionMap, r: Reading, victim: Key, k: Key)
    requires cfg.Valid() && S.Inv(cfg, ss) && ReadingKey(r) == Some(k) && k !in ss
    ensures k in S.AddStep(cfg, ss, r, victim).0
  {
    S.AdmittedCanReceive(cfg, ss, r, victim);
    S.AdmitKeepsBounds(cfg, ss, k, r.measuredAt, victim);
  }

  lemma NoEarlyFinalization(cfg: Config, ss: S.SessionMap, r: Reading, victim: Key, k: Key)
    requires cfg.Valid() && S.Inv(cfg, ss) && ReadingKey(r) == Some(k) && k !in ss
    requires S.AddStep(cfg, ss, r, victim).1.Done?
    ensures S.AddStep(cfg, ss, r, victim).1.result.finalization.None?
  {
    var reply := S.AddStep(cfg, ss, r, victim).1;
    AddReports(cfg, ss, r, victim);
    if R.IsFinalizationOf(R.Replied(reply), k) {
      R.FinalizationStep(cfg, ss, R.Add(r, victim), k);
    }
  }

  const PASSED := Event(1, "00000000-0000-0000-0000-000000000001", "SCALE-1", "ABC1D23", 1_000, 1, 1)

  lemma {:induction false} CleanPlate(s: string)
    requires forall i :: 0 <= i < |s| ==> 'A' <= s[i] <= 'Z' || '0' <= s[i] <= '9'
    ensures NormalizePlate(s) == s
    decreases |s|
  {
    if s != [] {
      CleanPlate(s[1..]);
      assert [s[0]] + s[1..] == s;
    }
  }

  lemma CleanCode(s: string)
    requires s != "" && forall i :: 0 <= i < |s| ==> !IsSpace(s[i]) && !('a' <= s[i] <= 'z')
    ensures NormalizeCode(s) == s
  {
    assert TrimSpace(s) == s;
    assert ToUpper(s) == s;
  }

  /** A worker that has just started, with the event's row in the database. */
  function Restarted(e: Event): World {
    World(map[], map[], Durable(Database(map[], map[], []), map[e.eventID := LedgerRow(e.streamID, e.scaleID, e.plate)]))
  }

  lemma RestartedProcessesAgain(cfg: Config, cat: Catalog, e: Event, k: Key, victim: Key, id: Id)
    requires cfg.Valid() && cat.Valid() && ReadingKey(ReadingOf(e)) == Some(k)
    ensures Runnable(cfg, cat, Restarted(e))
    ensures Process(cfg, cat, Restarted(e), Call(e, victim, id, Unraced(Fine))).1.result == Processed
  {
    RedeliveredIsProcessedAgain(cfg, cat, Restarted(e), Call(e, victim, id, Unraced(Fine)), k);
  }

  lemma PassedIsValid()
    ensures ReadingKey(ReadingOf(PASSED)) == Some(Key(PASSED.scaleID, PASSED.plate))
  {
    CleanPlate(PASSED.plate);
    CleanCode(PASSED.scaleID);
  }

  /** Not every redelivery is refused: this event was recorded, its acknowledgement failed
      and the worker restarted; its redelivery is processed again. */
  lemma RefusalIsNotCertain(cfg: Config, cat: Catalog, victim: Key, id: Id)
    requires cfg.Valid() && cat.Valid()
    ensures Runnable(cfg, cat, Restarted(PASSED))
    ensures Process(cfg, cat, Restarted(PASSED), Call(PASSED, victim, id, Unraced(Fine))).1.result == Processed
  {
    PassedIsValid();
    RestartedProcessesAgain(cfg, cat, PASSED, Key(PASSED.scaleID, PASSED.plate), victim, id);
  }

  ghost predicate AllFinal(ws: seq<Weighing>) {
    forall i :: 0 <= i < |ws| ==> ws[i].stage == FINAL_STAGE
  }

  ghost predicate WorkIsFinal(pending: map<string, PendingWork>) {
    forall e :: e in pending && pending[e].input.Some? ==> pending[e].input.value.stage == FINAL_STAGE
  }

  lemma FinalizeKeepsStage(cat: Catalog, db: Database, input: Input, id: Id)
    requires cat.Valid() && AllFinal(db.weighings) && input.stage == FINAL_STAGE
    ensures AllFinal(Finalize(cat, db, input, id).0.weighings)
  {
  }

  lemma CallKeepsStage(cat: Catalog, w: World, c: Call, sessions: S.SessionMap, reply: S.Reply)
    requires cat.Valid() && AllFinal(w.durable.ledger.weighings) && WorkIsFinal(w.pending)
    ensures var w' := ProcessAfter(cat, w, c, sessions, reply).0;
            AllFinal(w'.durable.ledger.weighings) && WorkIsFinal(w'.pending)
  {
    var work := Settled(w, c, reply);
    DurableAfter(cat, w, c, sessions, reply);
    PendingAfter(cat, w, c, sessions, reply);
    if work.Some? && work.value.input.Some? {
      FinalizeKeepsStage(cat, w.durable.ledger, work.value.input.value, c.id);
    }
  }

  lemma {:induction false} RunKeepsStage(cfg: Config, cat: Catalog, w: World, calls: seq<Call>)
    requires Runnable(cfg, cat, w) && AllFinal(w.durable.ledger.weighings) && WorkIsFinal(w.pending)
    ensures var w' := Run(cfg, cat, w, calls);
            AllFinal(w'.durable.ledger.weighings) && WorkIsFinal(w'.pending)
    decreases |calls|
  {
    if calls != [] {
      var front := calls[..|calls| - 1];
      var c := calls[|calls| - 1];
      RunKeepsStage(cfg, cat, w, front);
      var before := Run(cfg, cat, w, front);
      var (sessions, reply) := S.AddStep(cfg, before.sessions, ReadingOf(c.event), c.victim);
      CallKeepsStage(cat, before, c, sessions, reply);
    }
  }

  /** From readings to the report: after any run of the processor on a ledger it alone
      writes, through failures, lost replies and retries, the report's unfiltered net
      total is the sum of all inventories. */
  lemma ReportAgreesWithStock(cfg: Config, cat: Catalog, w: World, calls: seq<Call>, keys: seq<StockKey>)
    requires Runnable(cfg, cat, w) && w.pending == map[]
    requires Sound(cat, w.durable.ledger) && AllFinal(w.durable.ledger.weighings)
    requires var ledger := Run(cfg, cat, w, calls).durable.ledger;
             Distinct(keys) && forall k :: k in keys <==> k in ledger.inventory
    ensures var ledger := Run(cfg, cat, w, calls).durable.ledger;
            UngroupedRow(Selected(ledger, EVERYTHING, ledger.weighings)).netWeightGrams == TotalStock(ledger, keys)
  {
    RunKeepsStage(cfg, cat, w, calls);
    LedgerStaysSound(cfg, cat, w, calls);
    NetTotalIsAllStock(cat, Run(cfg, cat, w, calls).durable.ledger, keys);
  }
}
