/** What races cannot do: reverse a status, lose a reported success, fail a check, affect
    no row, deny a retry its winner, or deadlock. */
module Races {
  import opened Window
  import opened Keys
  import opened Finalizing
  import opened Conservation
  import opened Transactions

  /** db' is later than db: transports stay and only OPEN ones change, to CANCELLED or
      WEIGHED; weighings are only appended; inventories never fall. */
  ghost predicate Later(db: Database, db': Database) {
    && (forall t :: t in db.transports ==> t in db'.transports && LaterRow(db.transports[t], db'.transports[t]))
    && db.weighings <= db'.weighings
    && (forall k :: StockOf(db, k) <= StockOf(db', k))
  }

  predicate LaterRow(row: Transport, row': Transport) {
    row' == row || (row.status == OPEN && (row' == row.(status := CANCELLED) || row' == row.(status := WEIGHED)))
  }

  lemma CommitIsLater(cat: Catalog, db: Database, tx: Tx)
    requires TxInv(cat, db, tx) && tx.pc == AtCommit
    ensures Later(db, Record(db, tx.Row(), tx.stock))
  {
    assert LockedInv(cat, db, tx.input, tx.locked.value);
  }

  lemma OpenIsLater(cat: Catalog, db: Database, t: Id, row: Transport)
    ensures Later(db, OpenTransport(cat, db, t, row))
  {
  }

  lemma CancelIsLater(db: Database, t: Id)
    ensures Later(db, CancelTransport(db, t))
  {
  }

  ghost predicate Writes(s: Server, a: Action) {
    a.Open? || a.Cancel? || (a.Commit? && a.n in s.txs && s.txs[a.n].pc == AtCommit)
  }

  lemma ReadsKeepDatabase(cat: Catalog, s: Server, a: Action)
    requires !Writes(s, a)
    ensures Do(cat, s, a).db == s.db
  {
  }

  lemma StepIsLater(cat: Catalog, s: Server, a: Action)
    requires AllTxInv(cat, s.db, s.txs)
    ensures Later(s.db, Do(cat, s, a).db)
  {
    if !Writes(s, a) {
      ReadsKeepDatabase(cat, s, a);
    } else if a.Open? {
      OpenIsLater(cat, s.db, a.t, a.row);
    } else if a.Cancel? {
      CancelIsLater(s.db, a.t);
    } else {
      CommitDoes(cat, s, a.n, a.reported);
      CommitIsLater(cat, s.db, s.txs[a.n]);
    }
  }

  lemma LaterTransitive(a: Database, b: Database, c: Database)
    requires Later(a, b) && Later(b, c)
    ensures Later(a, c)
  {
    forall t | t in a.transports
      ensures t in c.transports && LaterRow(a.transports[t], c.transports[t])
    {
      assert t in b.transports && LaterRow(a.transports[t], b.transports[t]);
    }
    forall k
      ensures StockOf(a, k) <= StockOf(c, k)
    {
      assert StockOf(a, k) <= StockOf(b, k);
    }
  }

  /** In every interleaving a transport only goes from OPEN to CANCELLED or WEIGHED,
      weighings are never changed or removed, and inventories never fall. */
  lemma {:induction false} StatusesMoveForward(cat: Catalog, db0: Database, s: Server, actions: seq<Action>)
    requires cat.Valid() && Inv(cat, db0, s)
    ensures Later(s.db, Run(cat, s, actions).db)
    decreases |actions|
  {
    if actions != [] {
      var before := actions[..|actions| - 1];
      StatusesMoveForward(cat, db0, s, before);
      RunKeepsInv(cat, db0, s, before);
      StepIsLater(cat, Run(cat, s, before), actions[|actions| - 1]);
      LaterTransitive(s.db, Run(cat, s, before).db, Run(cat, s, actions).db);
    }
  }

  lemma RowInsertedMeetsChecks(cat: Catalog, db: Database, tx: Tx)
    requires cat.Valid() && Sound(cat, db) && TxInv(cat, db, tx) && tx.pc == AtInsertSession
    ensures MeetsChecks(tx.Row())
  {
    StockNonNegative(cat, db, tx.locked.value.Stock());
    InsertedRowMeetsChecks(tx.input, tx.id, tx.locked.value, tx.stock);
  }

  /** In every reachable state the row a transaction inserts meets every CHECK, the
      conditional UPDATE affects exactly one row, and a reported success is in the
      database and is for the caller's event or session. */
  lemma NoSurprises(cat: Catalog, db0: Database, actions: seq<Action>, n: nat)
    requires cat.Valid() && Sound(cat, db0)
    ensures var s := Run(cat, Initial(db0), actions);
            n in s.txs ==>
              && (s.txs[n].pc == AtInsertSession ==> s.txs[n].locked.Some? && MeetsChecks(s.txs[n].Row()))
              && (s.txs[n].pc == AtUpdate ==> UpdatesOneRow(s.db, s.txs[n]))
              && (s.txs[n].reply.Replied? && s.txs[n].reply.outcome.Success? ==>
                    && s.txs[n].reply.outcome.weighing in s.db.weighings
                    && IsFor(s.txs[n].reply.outcome.weighing, s.txs[n].input))
  {
    var s := Run(cat, Initial(db0), actions);
    assert Inv(cat, db0, Initial(db0));
    RunKeepsInv(cat, db0, Initial(db0), actions);
    if n in s.txs {
      assert TxInv(cat, s.db, s.txs[n]);
      if s.txs[n].pc == AtInsertSession {
        RowInsertedMeetsChecks(cat, s.db, s.txs[n]);
      }
    }
  }

  /** A transaction that is sure to be told an existing weighing, or an error. */
  ghost predicate Served(db: Database, tx: Tx) {
    match tx.pc
    case AtEvent => !NoneFor(db.weighings, tx.input)
    case AtSession => !NoneInSession(db.weighings, tx.input.sessionID, tx.input.stage)
    case AtReturn => tx.existing.Some?
    case Ended => tx.reply.Failed? || (tx.reply.Replied? && tx.reply.outcome.Success?)
    case _ => false
  }

  lemma StatementKeepsServed(cat: Catalog, db: Database, tx: Tx)
    requires TxInv(cat, db, tx) && Served(db, tx)
    ensures Served(db, Statement(cat, db, tx)) && Statement(cat, db, tx).input == tx.input
  {
  }

  lemma LaterKeepsServed(db: Database, db': Database, tx: Tx)
    requires Served(db, tx) && db.weighings <= db'.weighings
    ensures Served(db', tx)
  {
    if tx.pc == AtEvent {
      var i :| 0 <= i < |db.weighings| && IsFor(db.weighings[i], tx.input);
      assert db'.weighings[i] == db.weighings[i];
    } else if tx.pc == AtSession {
      var i :| 0 <= i < |db.weighings| && db.weighings[i].sessionID == tx.input.sessionID
               && db.weighings[i].stage == tx.input.stage;
      assert db'.weighings[i] == db.weighings[i];
    }
  }

  lemma OthersStayPut(cat: Catalog, s: Server, a: Action, n: nat)
    requires n in s.txs && (a.Open? || a.Cancel? || a.n != n)
    ensures n in Do(cat, s, a).txs && Do(cat, s, a).txs[n] == s.txs[n]
  {
  }

  lemma OwnStepKeepsServed(cat: Catalog, s: Server, a: Action, n: nat)
    requires n in s.txs && TxInv(cat, s.db, s.txs[n]) && Served(s.db, s.txs[n]) && !a.Open? && !a.Cancel? && a.n == n
    ensures var s' := Do(cat, s, a);
            n in s'.txs && Served(s.db, s'.txs[n]) && s'.txs[n].input == s.txs[n].input
  {
    if a.Advance? {
      StatementKeepsServed(cat, s.db, s.txs[n]);
    }
  }

  lemma StepKeepsServed(cat: Catalog, s: Server, a: Action, n: nat)
    requires AllTxInv(cat, s.db, s.txs) && n in s.txs && Served(s.db, s.txs[n])
    ensures var s' := Do(cat, s, a);
            n in s'.txs && Served(s'.db, s'.txs[n]) && s'.txs[n].input == s.txs[n].input
  {
    var s' := Do(cat, s, a);
    if a.Open? || a.Cancel? || a.n != n {
      OthersStayPut(cat, s, a, n);
    } else {
      OwnStepKeepsServed(cat, s, a, n);
    }
    StepIsLater(cat, s, a);
    LaterKeepsServed(s.db, s'.db, s'.txs[n]);
  }

  lemma {:induction false} RunKeepsServed(cat: Catalog, db0: Database, s: Server, actions: seq<Action>, n: nat)
    requires cat.Valid() && Inv(cat, db0, s) && n in s.txs && Served(s.db, s.txs[n])
    ensures var s' := Run(cat, s, actions);
            n in s'.txs && Served(s'.db, s'.txs[n]) && s'.txs[n].input == s.txs[n].input
    decreases |actions|
  {
    if actions != [] {
      var before := actions[..|actions| - 1];
      RunKeepsServed(cat, db0, s, before, n);
      RunKeepsInv(cat, db0, s, before);
      StepKeepsServed(cat, Run(cat, s, before), actions[|actions| - 1], n);
    }
  }

  lemma UniqueForKeys(ws: seq<Weighing>, w: Weighing, x: Weighing, input: Input)
    requires UniqueKeys(ws) && w in ws && x in ws && IsFor(x, input)
    requires w.sessionID == input.sessionID && w.stage == input.stage && w.eventID == input.eventID
    ensures x == w
  {
    var i :| 0 <= i < |ws| && ws[i] == w;
    var j :| 0 <= j < |ws| && ws[j] == x;
    assert i < j || j < i || i == j;
  }

  lemma ServedIsToldTheWinner(cat: Catalog, db: Database, tx: Tx, w: Weighing)
    requires UniqueKeys(db.weighings) && TxInv(cat, db, tx) && Served(db, tx) && w in db.weighings
    requires w.sessionID == tx.input.sessionID && w.stage == tx.input.stage && w.eventID == tx.input.eventID
    ensures tx.reply in {Waiting, Failed, Replied(Success(w))}
  {
    if tx.reply.Replied? {
      ServedReplies(cat, db, tx);
      UniqueForKeys(db.weighings, w, tx.reply.outcome.weighing, tx.input);
    }
  }

  lemma StillThere(ws: seq<Weighing>, us: seq<Weighing>, w: Weighing)
    requires w in ws && ws <= us
    ensures w in us
  {
    var i :| 0 <= i < |ws| && ws[i] == w;
    assert us[i] == w;
  }

  lemma StartedIsServed(db: Database, input: Input, id: Id, w: Weighing)
    requires ValidInput(input) && w in db.weighings
    requires w.sessionID == input.sessionID && w.stage == input.stage && w.eventID == input.eventID
    ensures Served(db, Started(input, id)) && Started(input, id).input == input
  {
    var i :| 0 <= i < |db.weighings| && db.weighings[i] == w;
    assert IsFor(db.weighings[i], input);
  }

  /** A commit that reported failure, or any lost reply, is repaired by a retry: once a
      weighing of the event and session is committed, a finalization begun later is told
      that weighing or a database error, whatever runs in between. */
  lemma RetryIsToldTheWinner(cat: Catalog, db0: Database, s: Server, w: Weighing, n: nat, input: Input, id: Id,
                             actions: seq<Action>)
    requires cat.Valid() && Inv(cat, db0, s) && n !in s.txs && ValidInput(input)
    requires w in s.db.weighings
    requires w.sessionID == input.sessionID && w.stage == input.stage && w.eventID == input.eventID
    ensures var txs := Run(cat, Do(cat, s, Begin(n, input, id)), actions).txs;
            n in txs && txs[n].reply in {Waiting, Failed, Replied(Success(w))}
  {
    var s1 := Do(cat, s, Begin(n, input, id));
    var s2 := Run(cat, s1, actions);
    StepKeepsInv(cat, db0, s, Begin(n, input, id));
    StartedIsServed(s.db, input, id, w);
    RunKeepsServed(cat, db0, s1, actions, n);
    RunKeepsInv(cat, db0, s1, actions);
    StatusesMoveForward(cat, db0, s1, actions);
    StillThere(s.db.weighings, s2.db.weighings, w);
    assert TxInv(cat, s2.db, s2.txs[n]);
    ServedIsToldTheWinner(cat, s2.db, s2.txs[n], w);
  }

  lemma ServedReplies(cat: Catalog, db: Database, tx: Tx)
    requires TxInv(cat, db, tx) && Served(db, tx) && tx.reply.Replied?
    ensures tx.reply.outcome.Success?
  {
  }

  /** A duplicate that read too early: its session is weighed meanwhile, and it can only
      end in an error. */
  ghost predicate Doomed(db: Database, tx: Tx) {
    match tx.pc
    case Ended => !(tx.reply.Replied? && tx.reply.outcome.Success?)
    case _ =>
      && tx.pc in {AtFind, AtLock, AtUpsert, AtInsertSession}
      && !NoneInSession(db.weighings, tx.input.sessionID, tx.input.stage)
  }

  lemma StatementKeepsDoomed(cat: Catalog, db: Database, tx: Tx)
    requires Doomed(db, tx)
    ensures Doomed(db, Statement(cat, db, tx))
  {
  }

  lemma LaterKeepsDoomed(db: Database, db': Database, tx: Tx)
    requires Doomed(db, tx) && db.weighings <= db'.weighings
    ensures Doomed(db', tx)
  {
    if tx.pc != Ended {
      var i :| 0 <= i < |db.weighings| && db.weighings[i].sessionID == tx.input.sessionID
               && db.weighings[i].stage == tx.input.stage;
      assert db'.weighings[i] == db.weighings[i];
    }
  }

  lemma OwnStepKeepsDoomed(cat: Catalog, s: Server, a: Action, n: nat)
    requires n in s.txs && Doomed(s.db, s.txs[n]) && !a.Open? && !a.Cancel? && a.n == n
    ensures n in Do(cat, s, a).txs && Doomed(s.db, Do(cat, s, a).txs[n])
  {
    if a.Advance? {
      StatementKeepsDoomed(cat, s.db, s.txs[n]);
    }
  }

  lemma StepKeepsDoomed(cat: Catalog, s: Server, a: Action, n: nat)
    requires AllTxInv(cat, s.db, s.txs) && n in s.txs && Doomed(s.db, s.txs[n])
    ensures var s' := Do(cat, s, a); n in s'.txs && Doomed(s'.db, s'.txs[n])
  {
    var s' := Do(cat, s, a);
    if a.Open? || a.Cancel? || a.n != n {
      OthersStayPut(cat, s, a, n);
    } else {
      OwnStepKeepsDoomed(cat, s, a, n);
    }
    StepIsLater(cat, s, a);
    LaterKeepsDoomed(s.db, s'.db, s'.txs[n]);
  }

  lemma {:induction false} RunKeepsDoomed(cat: Catalog, db0: Database, s: Server, actions: seq<Action>, n: nat)
    requires cat.Valid() && Inv(cat, db0, s) && n in s.txs && Doomed(s.db, s.txs[n])
    ensures var s' := Run(cat, s, actions); n in s'.txs && Doomed(s'.db, s'.txs[n])
    decreases |actions|
  {
    if actions != [] {
      var before := actions[..|actions| - 1];
      RunKeepsDoomed(cat, db0, s, before, n);
      RunKeepsInv(cat, db0, s, before);
      StepKeepsDoomed(cat, Run(cat, s, before), actions[|actions| - 1], n);
    }
  }

  /** Not yet past its idempotency reads, or past them with something found. */
  predicate BeforeItsReads(tx: Tx) {
    tx.pc in {AtEvent, AtSession, AtReturn}
  }

  lemma ServedOrDoomed(cat: Catalog, db: Database, tx: Tx, w: Weighing)
    requires TxInv(cat, db, tx) && tx.pc != Ended && w in db.weighings
    requires w.sessionID == tx.input.sessionID && w.stage == tx.input.stage
    ensures if BeforeItsReads(tx) then Served(db, tx) else Doomed(db, tx)
  {
    var i :| 0 <= i < |db.weighings| && db.weighings[i] == w;
    assert IsFor(db.weighings[i], tx.input);
  }

  /** A concurrent duplicate. When a weighing of its session is committed, a transaction
      still in flight will succeed only with an existing weighing, and whether it can is
      decided at that moment: of its answers other than a database error, success comes
      exactly if it had not finished its idempotency reads with nothing found. */
  lemma DuplicateSucceedsIff(cat: Catalog, db0: Database, s: Server, w: Weighing, n: nat, actions: seq<Action>)
    requires cat.Valid() && Inv(cat, db0, s) && n in s.txs && s.txs[n].pc != Ended && w in s.db.weighings
    requires w.sessionID == s.txs[n].input.sessionID && w.stage == s.txs[n].input.stage
    ensures var txs := Run(cat, s, actions).txs;
            n in txs && (txs[n].reply.Replied? ==> (txs[n].reply.outcome.Success? <==> BeforeItsReads(s.txs[n])))
  {
    assert TxInv(cat, s.db, s.txs[n]);
    ServedOrDoomed(cat, s.db, s.txs[n], w);
    if BeforeItsReads(s.txs[n]) {
      ServedSucceeds(cat, db0, s, n, actions);
    } else {
      DoomedFails(cat, db0, s, n, actions);
    }
  }

  lemma ServedSucceeds(cat: Catalog, db0: Database, s: Server, n: nat, actions: seq<Action>)
    requires cat.Valid() && Inv(cat, db0, s) && n in s.txs && Served(s.db, s.txs[n])
    ensures var txs := Run(cat, s, actions).txs;
            n in txs && (txs[n].reply.Replied? ==> txs[n].reply.outcome.Success?)
  {
    RunKeepsServed(cat, db0, s, actions, n);
    RunKeepsInv(cat, db0, s, actions);
    var s' := Run(cat, s, actions);
    assert TxInv(cat, s'.db, s'.txs[n]);
  }

  lemma DoomedFails(cat: Catalog, db0: Database, s: Server, n: nat, actions: seq<Action>)
    requires cat.Valid() && Inv(cat, db0, s) && n in s.txs && Doomed(s.db, s.txs[n])
    ensures var txs := Run(cat, s, actions).txs;
            n in txs && (txs[n].reply.Replied? ==> !txs[n].reply.outcome.Success?)
  {
    RunKeepsDoomed(cat, db0, s, actions, n);
    RunKeepsInv(cat, db0, s, actions);
    var s' := Run(cat, s, actions);
    assert TxInv(cat, s'.db, s'.txs[n]);
  }

  /** The order in which a transaction acquires its locks. */
  function Rank(pc: Pc): nat {
    match pc
    case AtEvent => 0
    case AtSession => 1
    case AtFind => 2
    case AtLock => 3
    case AtUpsert => 4
    case AtInsertSession => 5
    case AtInsertEvent => 6
    case AtUpdate => 7
    case AtCommit => 8
    case AtReturn => 9
    case Ended => 10
  }

  /** A transaction waits only for one that is further along and has not ended. */
  lemma WaitsForLaterOnly(cat: Catalog, db: Database, a: Tx, b: Tx)
    requires TxInv(cat, db, a) && TxInv(cat, db, b) && WaitsFor(a, b)
    ensures Rank(a.pc) < Rank(b.pc) && b.pc != Ended
  {
  }

  /** Transactions, each waiting for the next. */
  ghost predicate WaitChain(txs: map<nat, Tx>, chain: seq<nat>) {
    && (forall i :: 0 <= i < |chain| ==> chain[i] in txs)
    && (forall i :: 0 <= i < |chain| - 1 ==> WaitsFor(txs[chain[i]], txs[chain[i + 1]]))
  }

  lemma {:induction false} ChainClimbs(cat: Catalog, db: Database, txs: map<nat, Tx>, chain: seq<nat>)
    requires AllTxInv(cat, db, txs) && WaitChain(txs, chain) && |chain| >= 2
    ensures Rank(txs[chain[0]].pc) < Rank(txs[chain[|chain| - 1]].pc)
    decreases |chain|
  {
    var last := |chain| - 1;
    var a, b := txs[chain[last - 1]], txs[chain[last]];
    assert WaitsFor(txs[chain[last - 1]], txs[chain[last - 1 + 1]]);
    WaitsForLaterOnly(cat, db, a, b);
    if last > 1 {
      var front := chain[..last];
      assert front[last - 1] == chain[last - 1];
      PrefixIsChain(txs, chain, last);
      ChainClimbs(cat, db, txs, front);
    }
  }

  lemma PrefixIsChain(txs: map<nat, Tx>, chain: seq<nat>, n: nat)
    requires WaitChain(txs, chain) && n <= |chain|
    ensures WaitChain(txs, chain[..n])
  {
    var front := chain[..n];
    forall i | 0 <= i < n - 1
      ensures WaitsFor(txs[front[i]], txs[front[i + 1]])
    {
      assert WaitsFor(txs[chain[i]], txs[chain[i + 1]]);
    }
  }

  /** No deadlock: the wait-for relation has no cycle in any reachable state. */
  lemma NoWaitCycle(cat: Catalog, db0: Database, actions: seq<Action>, chain: seq<nat>)
    requires cat.Valid() && Sound(cat, db0)
    requires |chain| >= 2 && WaitChain(Run(cat, Initial(db0), actions).txs, chain)
    ensures chain[0] != chain[|chain| - 1]
  {
    var s := Reached(cat, db0, actions);
    ChainClimbs(cat, s.db, s.txs, chain);
  }

  lemma Reached(cat: Catalog, db0: Database, actions: seq<Action>) returns (s: Server)
    requires cat.Valid() && Sound(cat, db0)
    ensures s == Run(cat, Initial(db0), actions) && AllTxInv(cat, s.db, s.txs)
  {
    s := Run(cat, Initial(db0), actions);
    assert Inv(cat, db0, Initial(db0));
    RunKeepsInv(cat, db0, Initial(db0), actions);
  }

  ghost predicate IsFurthest(txs: map<nat, Tx>, n: nat) {
    && n in txs && txs[n].pc != Ended
    && forall m :: m in txs && txs[m].pc != Ended ==> Rank(txs[m].pc) <= Rank(txs[n].pc)
  }

  lemma {:induction false} FurthestExists(txs: map<nat, Tx>, n: nat)
    requires n in txs && txs[n].pc != Ended
    ensures exists m :: IsFurthest(txs, m)
    decreases 10 - Rank(txs[n].pc)
  {
    if !IsFurthest(txs, n) {
      var m :| m in txs && txs[m].pc != Ended && Rank(txs[m].pc) > Rank(txs[n].pc);
      FurthestExists(txs, m);
    }
  }

  /** The step a transaction takes next. */
  ghost predicate IsNextOf(a: Action, tx: Tx, n: nat) {
    match tx.pc
    case AtFind => a.Find? && a.n == n
    case AtCommit => a == Commit(n, true)
    case AtReturn => a == Commit(n, true)
    case _ => a == Advance(n)
  }

  lemma StatementClimbs(cat: Catalog, db: Database, tx: Tx)
    requires tx.pc == AtUpsert ==> tx.locked.Some?
    requires tx.pc !in {AtFind, AtCommit, AtReturn, Ended}
    ensures Rank(Statement(cat, db, tx).pc) > Rank(tx.pc)
  {
  }

  /** Some step of n brings it closer to its end. */
  ghost predicate Proceeds(cat: Catalog, s: Server, n: nat)
    requires n in s.txs
  {
    exists a :: IsNextOf(a, s.txs[n], n) && n in Do(cat, s, a).txs && Rank(Do(cat, s, a).txs[n].pc) > Rank(s.txs[n].pc)
  }

  lemma FinderProceeds(cat: Catalog, s: Server, n: nat)
    requires n in s.txs && s.txs[n].pc == AtFind
    ensures Proceeds(cat, s, n)
  {
    var t := FindTransport(cat, s.db, s.txs[n].input);
    var a := Find(n, if t.Some? then t.value else "");
    assert IsNextOf(a, s.txs[n], n) && Do(cat, s, a).txs[n] == FindRow(cat, s.db, s.txs[n], a.t);
  }

  lemma CommitterProceeds(cat: Catalog, s: Server, n: nat)
    requires n in s.txs && s.txs[n].pc in {AtCommit, AtReturn} && TxInv(cat, s.db, s.txs[n])
    ensures Proceeds(cat, s, n)
  {
    var a := Commit(n, true);
    if s.txs[n].pc == AtCommit {
      CommitDoes(cat, s, n, true);
    }
    assert IsNextOf(a, s.txs[n], n) && Do(cat, s, a).txs[n].pc == Ended;
  }

  lemma StatementProceeds(cat: Catalog, s: Server, n: nat)
    requires n in s.txs && s.txs[n].pc !in {AtFind, AtCommit, AtReturn, Ended} && TxInv(cat, s.db, s.txs[n])
    requires !Blocked(s.txs, n)
    ensures Proceeds(cat, s, n)
  {
    var a := Advance(n);
    StatementClimbs(cat, s.db, s.txs[n]);
    assert IsNextOf(a, s.txs[n], n) && Do(cat, s, a).txs[n] == Statement(cat, s.db, s.txs[n]);
  }

  lemma FurthestIsNotBlocked(cat: Catalog, db: Database, txs: map<nat, Tx>, n: nat)
    requires AllTxInv(cat, db, txs) && IsFurthest(txs, n)
    ensures !Blocked(txs, n)
  {
    forall m | m in txs && WaitsFor(txs[n], txs[m])
      ensures false
    {
      WaitsForLaterOnly(cat, db, txs[n], txs[m]);
    }
  }

  /** Progress: while a transaction is in flight, one of them is not blocked and its next
      step brings it closer to its end. */
  lemma SomeTransactionProceeds(cat: Catalog, db0: Database, actions: seq<Action>, n: nat)
    requires cat.Valid() && Sound(cat, db0)
    requires n in Run(cat, Initial(db0), actions).txs && Run(cat, Initial(db0), actions).txs[n].pc != Ended
    ensures var s := Run(cat, Initial(db0), actions);
            exists m :: m in s.txs && s.txs[m].pc != Ended && !Blocked(s.txs, m) && Proceeds(cat, s, m)
  {
    var s := Reached(cat, db0, actions);
    FurthestExists(s.txs, n);
    var m :| IsFurthest(s.txs, m);
    FurthestIsNotBlocked(cat, s.db, s.txs, m);
    assert TxInv(cat, s.db, s.txs[m]);
    if s.txs[m].pc == AtFind {
      FinderProceeds(cat, s, m);
    } else if s.txs[m].pc in {AtCommit, AtReturn} {
      CommitterProceeds(cat, s, m);
    } else {
      StatementProceeds(cat, s, m);
    }
  }
}
