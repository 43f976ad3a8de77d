/** The processor as a worker process runs it: a map of pending work in front of the
    manager, the event ledger and the finalization service. */
module Processors {
  import opened Window
  import opened Keys
  import opened Rationals
  import S = Sessions
  import M = Managers
  import opened Finalizing
  import opened Conservation
  import opened Stores
  import opened Processing

  /** PostgresLedger: the processed_scale_events table. */
  class EventLedger {
    var processed: map<string, LedgerRow>

    constructor ()
      ensures processed == map[]
    {
      processed := map[];
    }

    /** One INSERT ... ON CONFLICT (event_id) DO NOTHING: it answers, or fails without
        effect, or takes effect and its reply is lost. The unique index on the stream id
        refuses a new row with the stream id of another event. */
    method Process(event: Event, luck: Luck) returns (ok: bool)
      modifies this
      ensures ok == (luck.Fine? && !StreamTaken(old(processed), event))
      ensures processed
           == if luck.Broken? || StreamTaken(old(processed), event) then old(processed)
              else WithRow(old(processed), event)
      ensures ok ==> IsLogged(old(processed), processed, event)
    {
      if luck.Broken? || StreamTaken(processed, event) {
        return false;
      }
      if event.eventID !in processed {
        processed := processed[event.eventID := LedgerRow(event.streamID, event.scaleID, event.plate)];
      }
      ok := luck.Fine?;
    }
  }

  /** How the durable write of a call may go. */
  datatype Conditions = Conditions(ledger: Luck, finalization: Trouble)

  class FinalizingProcessor {
    const manager: M.Manager
    const ledger: EventLedger
    const finalizer: Store
    var pending: map<string, PendingWork>

    ghost predicate Valid()
      reads this, manager, manager.Repr, ledger, finalizer
    {
      && manager.Valid()
      && this !in manager.Repr && ledger !in manager.Repr && finalizer !in manager.Repr
    }

    ghost function Durables(): Durable
      reads ledger, finalizer
    {
      Durable(finalizer.Db(), ledger.processed)
    }

    ghost function Model(): World
      requires Valid()
      reads this, manager, manager.Repr, ledger, finalizer
    {
      World(manager.Model(), pending, Durables())
    }

    constructor (m: M.Manager, l: EventLedger, f: Store)
      requires m.Valid() && l !in m.Repr && f !in m.Repr
      ensures manager == m && ledger == l && finalizer == f && pending == map[]
      ensures Valid()
    {
      manager, ledger, finalizer, pending := m, l, f, map[];
      new;
    }

    /** The finalization of pending work. */
    method CallFinalizer(cat: Catalog, input: Input, id: Id, trouble: Trouble) returns (answer: Answer, ghost luck: Luck)
      requires cat.Valid() && Sound(cat, finalizer.Db())
      modifies finalizer
      ensures Sound(cat, finalizer.Db())
      ensures answer.Answered? <==> luck.Fine?
      ensures var (db, outcome) := Finalizing.Finalize(cat, old(finalizer.Db()), input, id);
              && finalizer.Db() == (if luck.Broken? then old(finalizer.Db()) else db)
              && (answer.Answered? ==> answer.outcome == outcome)
    {
      answer := finalizer.Finalize(cat, input, id, trouble);
      luck := if answer.Answered? then Fine else if trouble.LostReply? then Lost else Broken;
    }

    /** The part of Process after the pending work is known. */
    method Complete(cat: Catalog, work: PendingWork, event: Event, id: Id, conditions: Conditions, ghost added: bool)
      returns (result: ProcessResult, ghost luck: Luck)
      requires cat.Valid() && Sound(cat, finalizer.Db())
      modifies this`pending, ledger, finalizer
      ensures var (w, trace) := Processing.Complete(cat, World(map[], old(pending), old(Durables())), work,
                                                    Call(event, Key("", ""), id, Unraced(luck)), added);
              pending == w.pending && Durables() == w.durable && result == trace.result
      ensures Sound(cat, finalizer.Db())
    {
      if work.input.None? {
        luck := conditions.ledger;
        var ok := ledger.Process(work.event, conditions.ledger);
        if !ok {
          return Transient, luck;
        }
        pending := pending - {event.eventID};
        return Processed, luck;
      }
      var answer;
      answer, luck := CallFinalizer(cat, work.input.value, id, conditions.finalization);
      if answer.DatabaseError? {
        return Transient, luck;
      }
      pending := pending - {event.eventID};
      result := if answer.outcome.Success? then Processed else Permanent;
    }

    /** Process once Add has answered; Add is called only when no work is pending. */
    method Finish(cat: Catalog, event: Event, reply: S.Reply, ghost before: World, ghost victim: Key, id: Id,
                  conditions: Conditions)
      returns (result: ProcessResult, ghost luck: Luck)
      requires cat.Valid() && Sound(cat, finalizer.Db())
      requires pending == before.pending && Durables() == before.durable
      modifies this`pending, ledger, finalizer
      ensures Sound(cat, finalizer.Db())
      ensures var (w, trace) := ProcessAfter(cat, before, Call(event, victim, id, Unraced(luck)), before.sessions, reply);
              pending == w.pending && Durables() == w.durable && result == trace.result
    {
      if event.eventID in pending {
        result, luck := Complete(cat, pending[event.eventID], event, id, conditions, false);
        return;
      }
      var work := WorkOf(event, reply);
      if work.None? {
        return Permanent, Fine;
      }
      pending := pending[event.eventID := work.value];
      result, luck := Complete(cat, work.value, event, id, conditions, true);
    }

    twostate lemma SameManager()
      requires old(Valid()) && unchanged(manager) && forall o :: o in manager.Repr ==> unchanged(o)
      ensures Valid() && manager.Model() == old(manager.Model())
    {
    }

    /** The reading of an event without pending work goes to the manager. */
    method Feed(event: Event) returns (reply: S.Reply, ghost victim: Key)
      requires Valid()
      modifies manager, manager.Repr
      ensures Valid() && Durables() == old(Durables())
      ensures (manager.Model(), reply) == S.AddStep(manager.config, old(manager.Model()), ReadingOf(event), victim)
    {
      reply, victim := manager.Add(ReadingOf(event));
    }

    method FinishHere(cat: Catalog, event: Event, reply: S.Reply, ghost before: World, ghost victim: Key, id: Id,
                      conditions: Conditions)
      returns (result: ProcessResult, ghost luck: Luck)
      requires Valid() && cat.Valid() && Sound(cat, finalizer.Db())
      requires pending == before.pending && Durables() == before.durable
      modifies this`pending, ledger, finalizer
      ensures Valid() && Sound(cat, finalizer.Db())
      ensures var (w, trace) := ProcessAfter(cat, before, Call(event, victim, id, Unraced(luck)), before.sessions, reply);
              Model() == w.(sessions := old(manager.Model())) && result == trace.result
    {
      result, luck := Finish(cat, event, reply, before, victim, id, conditions);
      SameManager();
    }

    /** Process. */
    method Process(cat: Catalog, event: Event, id: Id, conditions: Conditions)
      returns (result: ProcessResult, ghost victim: Key, ghost luck: Luck)
      requires Valid() && cat.Valid() && Sound(cat, finalizer.Db())
      modifies this, manager, manager.Repr, ledger, finalizer
      ensures Valid() && Sound(cat, finalizer.Db())
      ensures var (w, trace) := Processing.Process(manager.config, cat, old(Model()), Call(event, victim, id, Unraced(luck)));
              Model() == w && result == trace.result
    {
      ghost var before := Model();
      victim := Key("", "");
      var reply := S.InvalidReading;
      if event.eventID !in pending {
        reply, victim := Feed(event);
      }
      ghost var sessions := manager.Model();
      result, luck := FinishHere(cat, event, reply, before, victim, id, conditions);
      ProcessIs(manager.config, cat, before, Call(event, victim, id, Unraced(luck)), sessions, reply);
    }
  }

  /** Process calls Add only for an event without pending work. */
  lemma ProcessIs(cfg: Config, cat: Catalog, w: World, c: Call, sessions: S.SessionMap, reply: S.Reply)
    requires cfg.Valid() && cat.Valid() && S.Inv(cfg, w.sessions)
    requires if c.event.eventID in w.pending then sessions == w.sessions
             else (sessions, reply) == S.AddStep(cfg, w.sessions, ReadingOf(c.event), c.victim)
    ensures var (a, t) := ProcessAfter(cat, w, c, w.sessions, reply);
            Processing.Process(cfg, cat, w, c) == (a.(sessions := sessions), t)
  {
    var add := S.AddStep(cfg, w.sessions, ReadingOf(c.event), c.victim);
    if c.event.eventID in w.pending {
      PendingIgnoresAdd(cat, w, c, w.sessions, reply, add);
    } else {
      SessionsComeFromAdd(cat, w, c, w.sessions, sessions, reply);
    }
  }

  lemma PendingIgnoresAdd(cat: Catalog, w: World, c: Call, sessions: S.SessionMap, reply: S.Reply, add: (S.SessionMap,
                          S.Reply))
    requires cat.Valid() && c.event.eventID in w.pending
    ensures ProcessAfter(cat, w, c, add.0, add.1) == ProcessAfter(cat, w, c, sessions, reply)
    ensures ProcessAfter(cat, w, c, sessions, reply).0.sessions == w.sessions
  {
  }

  lemma SessionsComeFromAdd(cat: Catalog, w: World, c: Call, sessions: S.SessionMap, sessions': S.SessionMap,
                            reply: S.Reply)
    requires cat.Valid() && c.event.eventID !in w.pending
    ensures var (a, t) := ProcessAfter(cat, w, c, sessions, reply);
            ProcessAfter(cat, w, c, sessions', reply) == (a.(sessions := sessions'), t)
  {
  }
}
