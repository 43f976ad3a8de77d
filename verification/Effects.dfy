/** What the processor does to the database over whole runs: the ledger stays sound, every
    session is weighed at most once, and the inputs it builds are valid. */
module Effects {
  import opened Arithmetic
  import opened Window
  import opened Rationals
  import opened OrderStatistics
  import opened Keys
  import S = Sessions
  import opened Finalizing
  import opened Conservation
  import opened Processing

  lemma SettleKeepsSound(cat: Catalog, d: Durable, work: PendingWork, id: Id, fate: Fate)
    requires cat.Valid() && Sound(cat, d.ledger)
    ensures Sound(cat, Settle(cat, d, work, id, fate).0.ledger)
  {
    if work.input.Some? {
      FinalizeKeepsSound(cat, d.ledger, work.input.value, id);
    }
  }

  /** The weighings after one call extend the ones before it. */
  lemma SettleAppends(cat: Catalog, d: Durable, work: PendingWork, id: Id, fate: Fate)
    requires cat.Valid()
    ensures d.ledger.weighings <= Settle(cat, d, work, id, fate).0.ledger.weighings
    ensures d.processed.Keys <= Settle(cat, d, work, id, fate).0.processed.Keys
  {
    if work.input.Some? {
      FinalizeAppends(cat, d.ledger, work.input.value, id);
    }
  }

  lemma FinalizeAppends(cat: Catalog, db: Database, input: Input, id: Id)
    requires cat.Valid()
    ensures db.weighings <= Finalize(cat, db, input, id).0.weighings
  {
  }

  /** The work a call settles, if it settles any. */
  ghost function Settled(w: World, c: Call, reply: S.Reply): Option<PendingWork> {
    if c.event.eventID in w.pending then Some(w.pending[c.event.eventID]) else WorkOf(c.event, reply)
  }

  lemma DurableAfter(cat: Catalog, w: World, c: Call, sessions: S.SessionMap, reply: S.Reply)
    requires cat.Valid()
    ensures var (w', trace) := ProcessAfter(cat, w, c, sessions, reply);
            var work := Settled(w, c, reply);
            && (work.None? ==> w'.durable == w.durable && trace.attempt == None && trace.result == Permanent)
            && (work.Some? ==> w'.durable == Settle(cat, w.durable, work.value, c.id, c.fate).0
                               && trace.result == Settle(cat, w.durable, work.value, c.id, c.fate).1
                               && trace.attempt == work.value.input)
  {
  }

  /** In every run the ledger stays sound and only grows. */
  lemma {:induction false} LedgerStaysSound(cfg: Config, cat: Catalog, w: World, calls: seq<Call>)
    requires Runnable(cfg, cat, w) && Sound(cat, w.durable.ledger)
    ensures Sound(cat, Run(cfg, cat, w, calls).durable.ledger)
    decreases |calls|
  {
    if calls != [] {
      var front := calls[..|calls| - 1];
      LedgerStaysSound(cfg, cat, w, front);
      var before := Run(cfg, cat, w, front);
      var c := calls[|calls| - 1];
      var (sessions, reply) := S.AddStep(cfg, before.sessions, ReadingOf(c.event), c.victim);
      DurableAfter(cat, before, c, sessions, reply);
      var work := Settled(before, c, reply);
      if work.Some? {
        SettleKeepsSound(cat, before.durable, work.value, c.id, c.fate);
      }
    }
  }

  lemma LedgerGrows(cfg: Config, cat: Catalog, w: World, calls: seq<Call>, i: nat, j: nat)
    requires Runnable(cfg, cat, w) && i <= j <= |calls|
    ensures WeighingsAt(cfg, cat, w, calls, i) <= WeighingsAt(cfg, cat, w, calls, j)
  {
    var states := seq(|calls| + 1, k requires 0 <= k <= |calls| => WeighingsAt(cfg, cat, w, calls, k));
    forall k | 0 <= k < |calls|
      ensures states[k] <= states[k + 1]
    {
      LedgerGrowsByOne(cfg, cat, w, calls, k);
    }
    PrefixesGrow(states, i, j);
  }

  lemma {:induction false} PrefixesGrow(states: seq<seq<Weighing>>, i: nat, j: nat)
    requires i <= j < |states| && forall k :: 0 <= k < |states| - 1 ==> states[k] <= states[k + 1]
    ensures states[i] <= states[j]
    decreases j
  {
    if i < j {
      PrefixesGrow(states, i, j - 1);
      PrefixTransitive(states[i], states[j - 1], states[j - 1 + 1]);
    }
  }

  /** The weighings after the first i calls. */
  ghost function WeighingsAt(cfg: Config, cat: Catalog, w: World, calls: seq<Call>, i: nat): seq<Weighing>
    requires Runnable(cfg, cat, w) && i <= |calls|
  {
    Run(cfg, cat, w, calls[..i]).durable.ledger.weighings
  }

  lemma LedgerGrowsByOne(cfg: Config, cat: Catalog, w: World, calls: seq<Call>, i: nat)
    requires Runnable(cfg, cat, w) && i < |calls|
    ensures WeighingsAt(cfg, cat, w, calls, i) <= WeighingsAt(cfg, cat, w, calls, i + 1)
  {
    RunOneMore(cfg, cat, w, calls, i);
    CallAppends(cfg, cat, Run(cfg, cat, w, calls[..i]), calls[i]);
  }

  lemma PrefixTransitive(a: seq<Weighing>, b: seq<Weighing>, c: seq<Weighing>)
    requires a <= b && b <= c
    ensures a <= c
  {
  }

  lemma CallAppends(cfg: Config, cat: Catalog, w: World, c: Call)
    requires Runnable(cfg, cat, w)
    ensures w.durable.ledger.weighings <= Process(cfg, cat, w, c).0.durable.ledger.weighings
  {
    var (sessions, reply) := S.AddStep(cfg, w.sessions, ReadingOf(c.event), c.victim);
    DurableAfter(cat, w, c, sessions, reply);
    var work := Settled(w, c, reply);
    if work.Some? {
      SettleAppends(cat, w.durable, work.value, c.id, c.fate);
    }
  }

  ghost predicate HasSession(ws: seq<Weighing>, sessionID: string, stage: string) {
    exists i :: 0 <= i < |ws| && ws[i].sessionID == sessionID && ws[i].stage == stage
  }

  /** A finalization changes the ledger only by adding its session's first weighing. */
  lemma FinalizeChangesOnce(cat: Catalog, db: Database, input: Input, id: Id)
    requires cat.Valid()
    ensures var db' := Finalize(cat, db, input, id).0;
            db' != db ==> !HasSession(db.weighings, input.sessionID, input.stage)
                          && HasSession(db'.weighings, input.sessionID, input.stage)
  {
    var db' := Finalize(cat, db, input, id).0;
    if db' != db {
      FinalizeRecords(cat, db, input, id);
      var last := db'.weighings[|db.weighings|];
      assert last.sessionID == input.sessionID && last.stage == input.stage;
      assert NoneFor(db.weighings, input);
    }
  }

  lemma CallChangesOnce(cfg: Config, cat: Catalog, w: World, c: Call)
    requires Runnable(cfg, cat, w)
    ensures var (w', trace) := Process(cfg, cat, w, c);
            w'.durable.ledger != w.durable.ledger ==>
              && trace.attempt.Some?
              && !HasSession(w.durable.ledger.weighings, trace.attempt.value.sessionID, trace.attempt.value.stage)
              && HasSession(w'.durable.ledger.weighings, trace.attempt.value.sessionID, trace.attempt.value.stage)
  {
    var (sessions, reply) := S.AddStep(cfg, w.sessions, ReadingOf(c.event), c.victim);
    DurableAfter(cat, w, c, sessions, reply);
    var work := Settled(w, c, reply);
    if work.Some? {
      SettleChangesOnce(cat, w.durable, work.value, c.id, c.fate);
    }
  }

  lemma SettleChangesOnce(cat: Catalog, d: Durable, work: PendingWork, id: Id, fate: Fate)
    requires cat.Valid()
    ensures var d' := Settle(cat, d, work, id, fate).0;
            d'.ledger != d.ledger ==>
              && work.input.Some?
              && !HasSession(d.ledger.weighings, work.input.value.sessionID, work.input.value.stage)
              && HasSession(d'.ledger.weighings, work.input.value.sessionID, work.input.value.stage)
  {
    if work.input.Some? {
      FinalizeChangesOnce(cat, d.ledger, work.input.value, id);
    }
  }

  /** Call i of the run changes inventories, weighings or transports. */
  ghost predicate ChangesLedger(cfg: Config, cat: Catalog, w: World, calls: seq<Call>, i: nat)
    requires Runnable(cfg, cat, w) && i < |calls|
  {
    Run(cfg, cat, w, calls[..i + 1]).durable.ledger != Run(cfg, cat, w, calls[..i]).durable.ledger
  }

  /** At most once per session: in any run, with lost replies, failures and retries, two
      different calls never both change the ledger for the same session and stage. */
  lemma AtMostOnce(cfg: Config, cat: Catalog, w: World, calls: seq<Call>, i: nat, j: nat)
    requires Runnable(cfg, cat, w) && i < j < |calls|
    requires ChangesLedger(cfg, cat, w, calls, i) && ChangesLedger(cfg, cat, w, calls, j)
    ensures var a, b := TraceAt(cfg, cat, w, calls, i).attempt, TraceAt(cfg, cat, w, calls, j).attempt;
            a.Some? && b.Some? && (a.value.sessionID != b.value.sessionID || a.value.stage != b.value.stage)
  {
    RunOneMore(cfg, cat, w, calls, i);
    RunOneMore(cfg, cat, w, calls, j);
    CallChangesOnce(cfg, cat, Run(cfg, cat, w, calls[..i]), calls[i]);
    CallChangesOnce(cfg, cat, Run(cfg, cat, w, calls[..j]), calls[j]);
    LedgerGrows(cfg, cat, w, calls, i + 1, j);
    var a := TraceAt(cfg, cat, w, calls, i).attempt.value;
    HasSessionGrows(WeighingsAt(cfg, cat, w, calls, i + 1), WeighingsAt(cfg, cat, w, calls, j), a.sessionID, a.stage);
  }

  ghost predicate HasEvent(ws: seq<Weighing>, eventID: string) {
    exists i :: 0 <= i < |ws| && ws[i].eventID == eventID
  }

  lemma HasEventGrows(ws: seq<Weighing>, us: seq<Weighing>, eventID: string)
    requires HasEvent(ws, eventID) && ws <= us
    ensures HasEvent(us, eventID)
  {
    var i :| 0 <= i < |ws| && ws[i].eventID == eventID;
    assert us[i] == ws[i];
  }

  /** A finalization changes the ledger only by adding its event's first weighing. */
  lemma FinalizeChangesOncePerEvent(cat: Catalog, db: Database, input: Input, id: Id)
    requires cat.Valid() && Finalize(cat, db, input, id).0 != db
    ensures input.eventID != "" ==> !HasEvent(db.weighings, input.eventID)
    ensures HasEvent(Finalize(cat, db, input, id).0.weighings, input.eventID)
  {
    FinalizeRecords(cat, db, input, id);
    var db' := Finalize(cat, db, input, id).0;
    assert db'.weighings[|db.weighings|].eventID == input.eventID;
    assert NoneFor(db.weighings, input);
  }

  lemma SettleChangesOncePerEvent(cat: Catalog, d: Durable, work: PendingWork, id: Id, fate: Fate)
    requires cat.Valid() && Settle(cat, d, work, id, fate).0.ledger != d.ledger
    ensures work.input.Some?
    ensures work.input.value.eventID != "" ==> !HasEvent(d.ledger.weighings, work.input.value.eventID)
    ensures HasEvent(Settle(cat, d, work, id, fate).0.ledger.weighings, work.input.value.eventID)
  {
    FinalizeChangesOncePerEvent(cat, d.ledger, work.input.value, id);
  }

  /** Pending work finalizes the event it is filed under. */
  ghost predicate OwnEvents(pending: map<string, PendingWork>) {
    forall e :: e in pending && pending[e].input.Some? ==> pending[e].input.value.eventID == e
  }

  lemma CallKeepsOwnEvents(cat: Catalog, w: World, c: Call, sessions: S.SessionMap, reply: S.Reply)
    requires cat.Valid() && OwnEvents(w.pending)
    ensures OwnEvents(ProcessAfter(cat, w, c, sessions, reply).0.pending)
    ensures var work := Settled(w, c, reply);
            work.Some? && work.value.input.Some? ==> work.value.input.value.eventID == c.event.eventID
  {
  }

  lemma {:induction false} RunKeepsOwnEvents(cfg: Config, cat: Catalog, w: World, calls: seq<Call>)
    requires Runnable(cfg, cat, w) && OwnEvents(w.pending)
    ensures OwnEvents(Run(cfg, cat, w, calls).pending)
    decreases |calls|
  {
    if calls != [] {
      var front := calls[..|calls| - 1];
      RunKeepsOwnEvents(cfg, cat, w, front);
      var before := Run(cfg, cat, w, front);
      var c := calls[|calls| - 1];
      var (sessions, reply) := S.AddStep(cfg, before.sessions, ReadingOf(c.event), c.victim);
      CallKeepsOwnEvents(cat, before, c, sessions, reply);
    }
  }

  lemma CallChangesOncePerEvent(cfg: Config, cat: Catalog, w: World, c: Call)
    requires Runnable(cfg, cat, w) && OwnEvents(w.pending)
    requires Process(cfg, cat, w, c).0.durable.ledger != w.durable.ledger
    ensures c.event.eventID != "" ==> !HasEvent(w.durable.ledger.weighings, c.event.eventID)
    ensures HasEvent(Process(cfg, cat, w, c).0.durable.ledger.weighings, c.event.eventID)
  {
    var (sessions, reply) := S.AddStep(cfg, w.sessions, ReadingOf(c.event), c.victim);
    DurableAfter(cat, w, c, sessions, reply);
    CallKeepsOwnEvents(cat, w, c, sessions, reply);
    SettleChangesOncePerEvent(cat, w.durable, Settled(w, c, reply).value, c.id, c.fate);
  }

  /** One event raises inventory at most once: in any run, before and after its first
      success, through retries, redeliveries and lost replies, two different
      calls that change the ledger are of different events. */
  lemma OneEventOnce(cfg: Config, cat: Catalog, w: World, calls: seq<Call>, i: nat, j: nat)
    requires Runnable(cfg, cat, w) && OwnEvents(w.pending) && i < j < |calls|
    requires ChangesLedger(cfg, cat, w, calls, i) && ChangesLedger(cfg, cat, w, calls, j)
    requires calls[i].event.eventID != ""
    ensures calls[i].event.eventID != calls[j].event.eventID
  {
    RunKeepsOwnEvents(cfg, cat, w, calls[..i]);
    RunKeepsOwnEvents(cfg, cat, w, calls[..j]);
    RunOneMore(cfg, cat, w, calls, i);
    RunOneMore(cfg, cat, w, calls, j);
    CallChangesOncePerEvent(cfg, cat, Run(cfg, cat, w, calls[..i]), calls[i]);
    CallChangesOncePerEvent(cfg, cat, Run(cfg, cat, w, calls[..j]), calls[j]);
    LedgerGrows(cfg, cat, w, calls, i + 1, j);
    HasEventGrows(WeighingsAt(cfg, cat, w, calls, i + 1), WeighingsAt(cfg, cat, w, calls, j), calls[i].event.eventID);
  }

  lemma HasSessionGrows(ws: seq<Weighing>, us: seq<Weighing>, sessionID: string, stage: string)
    requires HasSession(ws, sessionID, stage) && ws <= us
    ensures HasSession(us, sessionID, stage)
  {
    var i :| 0 <= i < |ws| && ws[i].sessionID == sessionID && ws[i].stage == stage;
    assert us[i] == ws[i];
  }

  lemma {:induction false} PlateHasNoColon(s: string)
    ensures forall i :: 0 <= i < |NormalizePlate(s)| ==> IsLetterOrDigit(NormalizePlate(s)[i])
    decreases |s|
  {
    if s != [] {
      PlateHasNoColon(s[1..]);
    }
  }

  lemma AfterColon(a: string, p: string, i: int)
    requires |a| < i <= |a| + |p|
    ensures (a + ":" + p)[i] == p[i - |a| - 1]
  {
  }

  lemma SplitAtColon(a: string, p: string, b: string, q: string)
    requires a + ":" + p == b + ":" + q
    requires (forall i :: 0 <= i < |p| ==> p[i] != ':') && (forall i :: 0 <= i < |q| ==> q[i] != ':')
    ensures a == b && p == q
  {
    var s := a + ":" + p;
    var m, n := |a|, |b|;
    assert s[m] == ':';
    assert (b + ":" + q)[n] == ':';
    if m < n {
      AfterColon(a, p, n);
    } else if n < m {
      AfterColon(b, q, m);
    }
    assert a == s[..|a|] && p == s[|a| + 1..];
  }

  /** Session ids tell (scale, plate) keys apart, although a scale code may contain the
      separator: a normalized plate never does. */
  lemma SessionIDInjective(k: Key, l: Key, p: string, q: string)
    requires k.plate == NormalizePlate(p) && l.plate == NormalizePlate(q) && SessionID(k) == SessionID(l)
    ensures k == l
  {
    PlateHasNoColon(p);
    PlateHasNoColon(q);
    SplitAtColon(k.scaleID, k.plate, l.scaleID, l.plate);
  }

  lemma {:induction false} InkSurvivesTrim(s: string, i: nat)
    requires i < |s| && !IsSpace(s[i])
    ensures TrimSpace(s) != ""
    decreases |s|
  {
    if IsSpace(s[0]) {
      InkSurvivesTrim(s[1..], i - 1);
    } else if IsSpace(s[|s| - 1]) {
      InkSurvivesTrim(s[..|s| - 1], i);
    }
  }

  lemma KeyInk(r: Reading)
    requires ReadingKey(r).Some?
    ensures TrimSpace(r.scaleID) != ""
    ensures TrimSpace(r.plate) != ""
    ensures TrimSpace(SessionID(ReadingKey(r).value)) != ""
  {
    var k := ReadingKey(r).value;
    assert |k.scaleID| == |TrimSpace(r.scaleID)|;
    PlateInk(r.plate);
    InkSurvivesTrim(SessionID(k), |k.scaleID|);
  }

  lemma {:induction false} PlateInk(s: string)
    requires NormalizePlate(s) != ""
    ensures exists i :: 0 <= i < |s| && !IsSpace(s[i])
    ensures TrimSpace(s) != ""
    decreases |s|
  {
    if IsLetterOrDigit(UpperChar(s[0])) {
      assert !IsSpace(s[0]);
      InkSurvivesTrim(s, 0);
    } else {
      PlateInk(s[1..]);
      var i :| 0 <= i < |s[1..]| && !IsSpace(s[1..][i]);
      assert !IsSpace(s[i + 1]);
      InkSurvivesTrim(s, i + 1);
    }
  }

  lemma SlopeTextInk(r: Rational)
    ensures TrimSpace(SlopeText(r)) != ""
  {
    var t := SlopeText(r);
    InkSurvivesTrim(t, |IntText(r.num)|);
  }

  /** A finalization reports a positive weight, a count of samples and a dispersion that
      is not negative, at the time of a real reading. */
  ghost predicate Reportable(cfg: Config, f: S.Finalization) {
    f.weightGrams > 0 && f.sampleCount > 0 && f.dispersionGrams >= 0 && f.stabilizedAt != 0
    && f.algorithmVersion == cfg.algorithmVersion
  }

  lemma SummaryInRange(cfg: Config, duration: int, weights: seq<int>, slope: Slope)
    requires weights != [] && SortedBy(weights, IntLeq)
    requires forall i :: 0 <= i < |weights| ==> 0 < weights[i] <= MAX_INT64
    ensures var st := Summary(cfg, duration, weights, slope);
            st.medianGrams > 0 && st.sampleCount > 0 && st.dispersionGrams >= 0
  {
    PercentilesInRange(|weights|);
    assert IntLeq(weights[PercentileIndex(|weights|, 5)], weights[PercentileIndex(|weights|, 95)]);
    if |weights| % 2 == 0 {
      assert IntLeq(weights[|weights| / 2 - 1], weights[|weights| / 2]);
    }
  }

  lemma StatsInRange(cfg: Config, rs: seq<Reading>)
    requires cfg.Valid() && Ordered(rs) && Evaluate(cfg, rs).Some?
    ensures var st := Evaluate(cfg, rs).value; st.medianGrams > 0 && st.sampleCount > 0 && st.dispersionGrams >= 0
  {
    SortedWeightsArePositive(rs);
    SummaryInRange(cfg, Sub(rs[|rs| - 1].measuredAt, rs[0].measuredAt), SortedWeights(rs), TheilSenSlope(rs));
  }

  lemma AcceptReports(cfg: Config, k: Key, s: S.Session, r: Reading)
    requires cfg.Valid() && Ordered(S.Pushed(cfg, s, r)) && r.measuredAt != 0
    ensures var reply := S.Accept(cfg, k, s, r).1;
            reply.Done? && reply.result.key == k
            && (reply.result.finalization.Some? ==> Reportable(cfg, reply.result.finalization.value))
  {
    var w := S.Pushed(cfg, s, r);
    if Evaluate(cfg, w).Some? {
      StatsInRange(cfg, w);
    }
  }

  lemma DeliverReports(cfg: Config, k: Key, s: S.Session, r: Reading)
    requires cfg.Valid() && S.CanReceive(cfg, k, s, r)
    ensures var reply := S.Deliver(cfg, k, s, r).1;
            reply.Done? ==>
              && reply.result.key == k
              && (reply.result.finalization.Some? ==> Reportable(cfg, reply.result.finalization.value))
  {
    if S.Accepts(s, r) {
      S.NotZero(r);
      S.PushedIsOrdered(cfg, k, s, r);
      AcceptReports(cfg, k, s, r);
    }
  }

  lemma AddReports(cfg: Config, ss: S.SessionMap, r: Reading, victim: Key)
    requires cfg.Valid() && S.Inv(cfg, ss)
    ensures var reply := S.AddStep(cfg, ss, r, victim).1;
            reply.Done? ==>
              && ReadingKey(r) == Some(reply.result.key)
              && (reply.result.finalization.Some? ==> Reportable(cfg, reply.result.finalization.value))
  {
    if ReadingKey(r).Some? {
      var k := ReadingKey(r).value;
      S.AdmittedCanReceive(cfg, ss, r, victim);
      DeliverReports(cfg, k, S.Admit(cfg, ss, k, r.measuredAt, victim)[k], r);
    }
  }

  lemma ReportableIsValid(cfg: Config, e: Event, k: Key, f: S.Finalization)
    requires ReadingKey(ReadingOf(e)) == Some(k) && Reportable(cfg, f)
    ensures ValidInput(InputOf(e, k, f))
        <==> TrimSpace(cfg.algorithmVersion) != "" && (e.eventID != "" ==> IsUuid(e.eventID))
  {
    KeyInk(ReadingOf(e));
    SlopeTextInk(f.slope);
    InkSurvivesTrim(FINAL_STAGE, 0);
  }

  /** The input built from any finalization passes validation exactly when the event id
      is a UUID and the algorithm version is not blank, and is keyed by the reading's scale
      and plate alone. */
  lemma BuiltInputIsValid(cfg: Config, ss: S.SessionMap, e: Event, victim: Key)
    requires cfg.Valid() && S.Inv(cfg, ss)
    requires var work := WorkOf(e, S.AddStep(cfg, ss, ReadingOf(e), victim).1); work.Some? && work.value.input.Some?
    ensures var input := WorkOf(e, S.AddStep(cfg, ss, ReadingOf(e), victim).1).value.input.value;
            && (ValidInput(input) <==> TrimSpace(cfg.algorithmVersion) != "" && (e.eventID != "" ==> IsUuid(e.eventID)))
            && ReadingKey(ReadingOf(e)).Some? && input.sessionID == SessionID(ReadingKey(ReadingOf(e)).value)
            && input.stage == FINAL_STAGE && input.eventID == e.eventID
  {
    AddReports(cfg, ss, ReadingOf(e), victim);
    var reply := S.AddStep(cfg, ss, ReadingOf(e), victim).1;
    ReportableIsValid(cfg, e, reply.result.key, reply.result.finalization.value);
  }
}
