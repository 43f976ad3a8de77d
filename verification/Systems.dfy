/** The whole system in motion: workers that crash and share a group, transports opened and
    cancelled, other finalizations. Its ledger and its report. */
module Systems {
  import opened Window
  import opened Keys
  import S = Sessions
  import opened Finalizing
  import opened Conservation
  import opened Processing
  import opened Streams
  import opened Delivery
  import opened Reports
  import T = Transactions
  import E = Effects
  import B = Books

  /** What an action does to the database. */
  ghost function DurableAfter(cat: Catalog, parse: Parser, s: System, a: Action, sessions: S.SessionMap, reply: S.Reply)
    : Durable
    requires cat.Valid()
  {
    if a.Process? && EventAt(parse, s, a.c).Some? then
      ProcessedWorld(cat, parse, s, a, sessions, reply).durable
    else if a.Others? then s.durable.(ledger := T.Apply(cat, s.durable.ledger, a.op))
    else s.durable
  }

  ghost function ProcessedWorld(cat: Catalog, parse: Parser, s: System, a: Action, sessions: S.SessionMap, reply: S.Reply)
    : World
    requires cat.Valid() && a.Process? && EventAt(parse, s, a.c).Some?
  {
    var x := s.consumers[a.c];
    ProcessAfter(cat, World(x.sessions, x.pending, s.durable),
                 Call(EventAt(parse, s, a.c).value, a.victim, a.id, a.fate), sessions, reply).0
  }

  lemma DurableChange(cat: Catalog, limit: nat, parse: Parser, s: System, a: Action, sessions: S.SessionMap,
                      reply: S.Reply)
    requires cat.Valid()
    ensures DoWith(cat, limit, parse, s, a, sessions, reply).durable == DurableAfter(cat, parse, s, a, sessions, reply)
  {
  }

  lemma ApplyKeepsSound(cat: Catalog, db: Database, op: T.Op)
    requires cat.Valid() && Sound(cat, db)
    ensures Sound(cat, T.Apply(cat, db, op))
  {
    match op
    case DidFinalize(input, id) => FinalizeKeepsSound(cat, db, input, id);
    case DidOpen(t, row) => OpenKeepsSound(cat, db, t, row);
    case DidCancel(t) => CancelKeepsSound(cat, db, t);
  }

  lemma CallKeepsSound(cat: Catalog, w: World, c: Call, sessions: S.SessionMap, reply: S.Reply)
    requires cat.Valid() && Sound(cat, w.durable.ledger)
    ensures Sound(cat, ProcessAfter(cat, w, c, sessions, reply).0.durable.ledger)
  {
    var work := E.Settled(w, c, reply);
    E.DurableAfter(cat, w, c, sessions, reply);
    if work.Some? {
      E.SettleKeepsSound(cat, w.durable, work.value, c.id, c.fate);
    }
  }

  lemma StepKeepsSound(cat: Catalog, limit: nat, parse: Parser, s: System, a: Action, sessions: S.SessionMap,
                       reply: S.Reply)
    requires cat.Valid() && Sound(cat, s.durable.ledger)
    ensures Sound(cat, DoWith(cat, limit, parse, s, a, sessions, reply).durable.ledger)
  {
    DurableChange(cat, limit, parse, s, a, sessions, reply);
    if a.Process? && EventAt(parse, s, a.c).Some? {
      var x := s.consumers[a.c];
      CallKeepsSound(cat, World(x.sessions, x.pending, s.durable),
                     Call(EventAt(parse, s, a.c).value, a.victim, a.id, a.fate), sessions, reply);
    } else if a.Others? {
      ApplyKeepsSound(cat, s.durable.ledger, a.op);
    }
  }

  /** In every state that several workers, crashes, lost replies, races, openings,
      cancellations and other finalizations can reach, inventories are the sums of their
      weighings, and no session and no event has two weighings. */
  lemma {:induction false} LedgerStaysSound(cfg: Config, cat: Catalog, limit: nat, parse: Parser, s: System,
                                            actions: seq<Action>)
    requires AllRunnable(cfg, cat, s) && Sound(cat, s.durable.ledger)
    ensures Sound(cat, Delivery.Run(cfg, cat, limit, parse, s, actions).durable.ledger)
    decreases |actions|
  {
    if actions != [] {
      LedgerStaysSound(cfg, cat, limit, parse, s, actions[..|actions| - 1]);
      var before := Delivery.Run(cfg, cat, limit, parse, s, actions[..|actions| - 1]);
      var (sessions, reply) := AddAt(cfg, cat, parse, before, actions[|actions| - 1]);
      StepKeepsSound(cat, limit, parse, before, actions[|actions| - 1], sessions, reply);
    }
  }

  /** Everything weighed, or about to be, is of the stage the processor writes. */
  ghost predicate OnlyFinal(s: System) {
    && B.AllFinal(s.durable.ledger.weighings)
    && forall c :: c in s.consumers ==> B.WorkIsFinal(s.consumers[c].pending)
  }

  ghost predicate FinalOp(a: Action) {
    a.Others? && a.op.DidFinalize? ==> a.op.input.stage == FINAL_STAGE
  }

  /** Where the pending work of consumer c comes from after a step. */
  ghost predicate PendingFrom(cat: Catalog, parse: Parser, s: System, s': System, a: Action, sessions: S.SessionMap,
                              reply: S.Reply, c: nat)
    requires cat.Valid() && c in s'.consumers
  {
    || s'.consumers[c].pending == map[]
    || (c in s.consumers && s'.consumers[c].pending == s.consumers[c].pending)
    || (a.Process? && a.c == c && EventAt(parse, s, c).Some?
        && s'.consumers[c].pending == ProcessedWorld(cat, parse, s, a, sessions, reply).pending)
  }

  lemma ProcessChangesPending(cat: Catalog, limit: nat, parse: Parser, s: System, a: Action, sessions: S.SessionMap,
                              reply: S.Reply, c: nat)
    requires cat.Valid() && a.Process? && c in DoWith(cat, limit, parse, s, a, sessions, reply).consumers
    ensures PendingFrom(cat, parse, s, DoWith(cat, limit, parse, s, a, sessions, reply), a, sessions, reply, c)
  {
  }

  lemma OthersKeepPending(cat: Catalog, limit: nat, parse: Parser, s: System, a: Action, sessions: S.SessionMap,
                          reply: S.Reply, c: nat)
    requires cat.Valid() && !a.Process? && c in DoWith(cat, limit, parse, s, a, sessions, reply).consumers
    ensures PendingFrom(cat, parse, s, DoWith(cat, limit, parse, s, a, sessions, reply), a, sessions, reply, c)
  {
  }

  lemma StepKeepsStage(cat: Catalog, limit: nat, parse: Parser, s: System, a: Action, sessions: S.SessionMap,
                       reply: S.Reply)
    requires cat.Valid() && OnlyFinal(s) && FinalOp(a)
    ensures OnlyFinal(DoWith(cat, limit, parse, s, a, sessions, reply))
  {
    var s' := DoWith(cat, limit, parse, s, a, sessions, reply);
    DurableChange(cat, limit, parse, s, a, sessions, reply);
    if a.Process? && EventAt(parse, s, a.c).Some? {
      var x := s.consumers[a.c];
      B.CallKeepsStage(cat, World(x.sessions, x.pending, s.durable),
                       Call(EventAt(parse, s, a.c).value, a.victim, a.id, a.fate), sessions, reply);
    } else if a.Others? && a.op.DidFinalize? {
      B.FinalizeKeepsStage(cat, s.durable.ledger, a.op.input, a.op.id);
    }
    forall c | c in s'.consumers
      ensures B.WorkIsFinal(s'.consumers[c].pending)
    {
      if a.Process? {
        ProcessChangesPending(cat, limit, parse, s, a, sessions, reply, c);
      } else {
        OthersKeepPending(cat, limit, parse, s, a, sessions, reply, c);
      }
    }
  }

  lemma {:induction false} StageStaysFinal(cfg: Config, cat: Catalog, limit: nat, parse: Parser, s: System,
                                           actions: seq<Action>)
    requires AllRunnable(cfg, cat, s) && OnlyFinal(s) && forall i :: 0 <= i < |actions| ==> FinalOp(actions[i])
    ensures OnlyFinal(Delivery.Run(cfg, cat, limit, parse, s, actions))
    decreases |actions|
  {
    if actions != [] {
      StageStaysFinal(cfg, cat, limit, parse, s, actions[..|actions| - 1]);
      var before := Delivery.Run(cfg, cat, limit, parse, s, actions[..|actions| - 1]);
      var (sessions, reply) := AddAt(cfg, cat, parse, before, actions[|actions| - 1]);
      StepKeepsStage(cat, limit, parse, before, actions[|actions| - 1], sessions, reply);
    }
  }

  /** From stream messages to the report: in every state of the whole system the report's
      unfiltered net total is the sum of all inventories, when all that finalizes is of
      the stage the processor writes. */
  lemma ReportAgreesWithStock(cfg: Config, cat: Catalog, limit: nat, parse: Parser, s: System, actions: seq<Action>,
                              keys: seq<StockKey>)
    requires AllRunnable(cfg, cat, s) && Sound(cat, s.durable.ledger)
    requires OnlyFinal(s) && forall i :: 0 <= i < |actions| ==> FinalOp(actions[i])
    requires var ledger := Delivery.Run(cfg, cat, limit, parse, s, actions).durable.ledger;
             Distinct(keys) && forall k :: k in keys <==> k in ledger.inventory
    ensures var ledger := Delivery.Run(cfg, cat, limit, parse, s, actions).durable.ledger;
            UngroupedRow(Selected(ledger, EVERYTHING, ledger.weighings)).netWeightGrams == TotalStock(ledger, keys)
  {
    LedgerStaysSound(cfg, cat, limit, parse, s, actions);
    StageStaysFinal(cfg, cat, limit, parse, s, actions);
    NetTotalIsAllStock(cat, Delivery.Run(cfg, cat, limit, parse, s, actions).durable.ledger, keys);
  }
}
