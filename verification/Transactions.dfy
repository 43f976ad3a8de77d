/** Finalizations running at the same time. Each transaction moves through its statements
    under READ COMMITTED; row locks, unique-index waits, rollback and commits with a lost
    reply are steps of one machine, interleaved with opening and cancelling. */
module Transactions {
  import opened Window
  import opened Keys
  import opened Finalizing
  import opened Conservation

  /** The statement a transaction runs next. Find and Lock are the two halves of the
      SELECT ... FOR UPDATE: its snapshot picks a row, then it locks that row and checks
      the WHERE again. InsertSession and InsertEvent are the two unique indexes, in the
      order in which the INSERT enters them. */
  datatype Pc = AtEvent | AtSession | AtFind | AtLock | AtUpsert | AtInsertSession | AtInsertEvent | AtUpdate | AtCommit
              | AtReturn | Ended

  /** What the caller has been told. */
  datatype Reply = Waiting | Replied(outcome: Outcome) | Failed

  /** A transaction: found is the row its snapshot picked, locked the row it holds, stock
      the upsert's RETURNING, existing the weighing an idempotency read found. */
  datatype Tx = Tx(
    input: Input,
    id: Id,
    pc: Pc,
    found: Option<Id>,
    locked: Option<LockedTransport>,
    stock: int,
    existing: Option<Weighing>,
    reply: Reply)
  {
    predicate HoldsRow(t: Id) {
      locked.Some? && locked.value.id == t
    }

    predicate HoldsStock(k: StockKey) {
      locked.Some? && locked.value.Stock() == k && pc in {AtInsertSession, AtInsertEvent, AtUpdate, AtCommit}
    }

    predicate HoldsSession(sessionID: string, stage: string) {
      input.sessionID == sessionID && input.stage == stage && pc in {AtInsertEvent, AtUpdate, AtCommit}
    }

    predicate HoldsEvent(eventID: string) {
      input.eventID == eventID && pc in {AtUpdate, AtCommit}
    }

    /** The row this transaction inserts. */
    function Row(): Weighing
      requires locked.Some?
    {
      NewWeighing(input, id, locked.value, stock)
    }

    function End(r: Reply): Tx {
      this.(pc := Ended, found := None, locked := None, reply := r)
    }
  }

  /** What a committed operation did, in commit order. */
  datatype Op = DidFinalize(input: Input, id: Id) | DidOpen(t: Id, row: Transport) | DidCancel(t: Id)

  datatype Server = Server(db: Database, txs: map<nat, Tx>, log: seq<Op>)

  /** One step of the system. Commit's reported is false when the commit takes effect but
      the caller sees an error. Abort is any failure, crash or cancellation. */
  datatype Action =
    | Begin(n: nat, input: Input, id: Id)
    | Find(n: nat, t: Id)
    | Advance(n: nat)
    | Commit(n: nat, reported: bool)
    | Abort(n: nat)
    | Open(t: Id, row: Transport)
    | Cancel(t: Id)

  /** a cannot run its next statement until b ends: a row lock or an index entry. */
  predicate WaitsFor(a: Tx, b: Tx) {
    match a.pc
    case AtLock => a.found.Some? && b.HoldsRow(a.found.value)
    case AtUpsert => a.locked.Some? && b.HoldsStock(a.locked.value.Stock())
    case AtInsertSession => b.HoldsSession(a.input.sessionID, a.input.stage)
    case AtInsertEvent => a.input.eventID != "" && b.HoldsEvent(a.input.eventID)
    case _ => false
  }

  ghost predicate Blocked(txs: map<nat, Tx>, n: nat) {
    n in txs && exists m :: m in txs && m != n && WaitsFor(txs[n], txs[m])
  }

  function Started(input: Input, id: Id): Tx {
    if !ValidInput(input) then Tx(input, id, Ended, None, None, 0, None, Replied(ErrValidation))
    else Tx(input, id, if input.eventID != "" then AtEvent else AtSession, None, None, 0, None, Waiting)
  }

  /** The statement at tx.pc on the committed database, once nothing blocks it. */
  ghost function Statement(cat: Catalog, db: Database, tx: Tx): Tx {
    match tx.pc
    case AtEvent =>
      var w := FindByEvent(db.weighings, tx.input.eventID);
      if w.Some? then tx.(pc := AtReturn, existing := w) else tx.(pc := AtSession)
    case AtSession =>
      var w := FindBySession(db.weighings, tx.input.sessionID, tx.input.stage);
      if w.Some? then tx.(pc := AtReturn, existing := w) else tx.(pc := AtFind)
    case AtLock =>
      if tx.found.None? || !Matches(cat, db, tx.input, tx.found.value) then tx.End(Replied(ErrNotFound))
      else
        var locked := Lock(cat, tx.input, tx.found.value, db.transports[tx.found.value]);
        if locked.status != OPEN then tx.End(Replied(ErrConflict))
        else if tx.input.grossWeightGrams <= locked.tareWeightGrams then tx.End(Replied(ErrValidation))
        else tx.(pc := AtUpsert, locked := Some(locked))
    case AtUpsert =>
      if tx.locked.None? then tx
      else
        var locked := tx.locked.value;
        tx.(pc := AtInsertSession,
            stock := StockOf(db, locked.Stock()) + tx.input.grossWeightGrams - locked.tareWeightGrams)
    case AtInsertSession =>
      if tx.locked.None? || !MeetsChecks(tx.Row())
         || FindBySession(db.weighings, tx.input.sessionID, tx.input.stage).Some?
      then tx.End(Failed)
      else tx.(pc := AtInsertEvent)
    case AtInsertEvent =>
      if tx.input.eventID != "" && FindByEvent(db.weighings, tx.input.eventID).Some? then tx.End(Failed)
      else tx.(pc := AtUpdate)
    case AtUpdate =>
      if UpdatesOneRow(db, tx) then tx.(pc := AtCommit) else tx.End(Replied(ErrConflict))
    case _ => tx
  }

  /** RowsAffected() == 1. */
  predicate UpdatesOneRow(db: Database, tx: Tx) {
    tx.locked.Some? && tx.locked.value.id in db.transports && db.transports[tx.locked.value.id].status == OPEN
  }

  ghost function FindRow(cat: Catalog, db: Database, tx: Tx, t: Id): Tx {
    if Matches(cat, db, tx.input, t) then tx.(pc := AtLock, found := Some(t))
    else if forall u :: !Matches(cat, db, tx.input, u) then tx.End(Replied(ErrNotFound))
    else tx
  }

  function Told(r: Outcome, reported: bool): Reply {
    if reported then Replied(r) else Failed
  }

  /** One step; a step that is not enabled changes nothing. */
  ghost function Do(cat: Catalog, s: Server, a: Action): Server {
    match a
    case Begin(n, input, id) =>
      if n in s.txs then s else s.(txs := s.txs[n := Started(input, id)])
    case Find(n, t) =>
      if n !in s.txs || s.txs[n].pc != AtFind then s
      else s.(txs := s.txs[n := FindRow(cat, s.db, s.txs[n], t)])
    case Advance(n) =>
      if n !in s.txs || Blocked(s.txs, n) then s
      else s.(txs := s.txs[n := Statement(cat, s.db, s.txs[n])])
    case Commit(n, reported) =>
      if n !in s.txs then s
      else
        var tx := s.txs[n];
        if tx.pc == AtReturn && tx.existing.Some? then
          s.(txs := s.txs[n := tx.End(Told(Success(tx.existing.value), reported))])
        else if tx.pc == AtCommit && tx.locked.Some? && tx.locked.value.id in s.db.transports then
          Server(Record(s.db, tx.Row(), tx.stock),
                 s.txs[n := tx.End(Told(Success(tx.Row()), reported))],
                 s.log + [DidFinalize(tx.input, tx.id)])
        else s
    case Abort(n) =>
      if n !in s.txs || s.txs[n].pc == Ended then s
      else s.(txs := s.txs[n := s.txs[n].End(Failed)])
    case Open(t, row) =>
      Server(OpenTransport(cat, s.db, t, row), s.txs, s.log + [DidOpen(t, row)])
    case Cancel(t) =>
      if exists n :: n in s.txs && s.txs[n].HoldsRow(t) then s
      else Server(CancelTransport(s.db, t), s.txs, s.log + [DidCancel(t)])
  }

  ghost function Run(cat: Catalog, s: Server, actions: seq<Action>): Server
    decreases |actions|
  {
    if actions == [] then s
    else Do(cat, Run(cat, s, actions[..|actions| - 1]), actions[|actions| - 1])
  }

  /** An operation on a database nobody else uses. */
  ghost function Apply(cat: Catalog, db: Database, op: Op): Database
    requires cat.Valid()
  {
    match op
    case DidFinalize(input, id) => Finalize(cat, db, input, id).0
    case DidOpen(t, row) => OpenTransport(cat, db, t, row)
    case DidCancel(t) => CancelTransport(db, t)
  }

  /** The operations of a log, one after another. */
  ghost function Replay(cat: Catalog, db: Database, log: seq<Op>): Database
    requires cat.Valid()
    decreases |log|
  {
    if log == [] then db else Apply(cat, Replay(cat, db, log[..|log| - 1]), log[|log| - 1])
  }

  /** What one in-flight transaction knows about the committed database: the locked row
      is OPEN and unchanged, the inventory under its lock has not moved, nobody has
      committed its session or event key; and what it reported is true. */
  ghost predicate TxInv(cat: Catalog, db: Database, tx: Tx) {
    && (tx.pc != Ended ==> ValidInput(tx.input) && tx.reply.Waiting?)
    && (tx.pc in {AtUpsert, AtInsertSession, AtInsertEvent, AtUpdate, AtCommit} <==> tx.locked.Some?)
    && (tx.pc == AtLock ==> tx.found.Some?)
    && (tx.pc == AtEvent ==> tx.input.eventID != "")
    && (tx.locked.Some? ==> LockedInv(cat, db, tx.input, tx.locked.value))
    && (tx.pc in {AtInsertSession, AtInsertEvent, AtUpdate, AtCommit} ==>
          tx.stock == StockOf(db, tx.locked.value.Stock()) + tx.input.grossWeightGrams - tx.locked.value.tareWeightGrams)
    && (tx.pc in {AtInsertEvent, AtUpdate, AtCommit} ==> NoneInSession(db.weighings, tx.input.sessionID, tx.input.stage))
    && (tx.pc in {AtUpdate, AtCommit} ==> NoneWithEvent(db.weighings, tx.input.eventID))
    && (tx.pc == AtReturn ==> tx.existing.Some? && tx.existing.value in db.weighings && IsFor(tx.existing.value, tx.input))
    && (tx.reply.Replied? && tx.reply.outcome.Success? ==>
          tx.reply.outcome.weighing in db.weighings && IsFor(tx.reply.outcome.weighing, tx.input))
  }

  ghost predicate LockedInv(cat: Catalog, db: Database, input: Input, locked: LockedTransport) {
    && Matches(cat, db, input, locked.id)
    && locked == Lock(cat, input, locked.id, db.transports[locked.id])
    && locked.status == OPEN
    && input.grossWeightGrams > locked.tareWeightGrams
  }

  ghost predicate NoneInSession(ws: seq<Weighing>, sessionID: string, stage: string) {
    forall i :: 0 <= i < |ws| ==> !(ws[i].sessionID == sessionID && ws[i].stage == stage)
  }

  ghost predicate NoneWithEvent(ws: seq<Weighing>, eventID: string) {
    eventID == "" || forall i :: 0 <= i < |ws| ==> ws[i].eventID != eventID
  }

  /** Two transactions never hold the same row, inventory or index entry. */
  ghost predicate Disjoint(a: Tx, b: Tx) {
    && !(a.locked.Some? && b.HoldsRow(a.locked.value.id))
    && !(a.locked.Some? && a.HoldsStock(a.locked.value.Stock()) && b.HoldsStock(a.locked.value.Stock()))
    && !(a.HoldsSession(a.input.sessionID, a.input.stage) && b.HoldsSession(a.input.sessionID, a.input.stage))
    && !(a.input.eventID != "" && a.HoldsEvent(a.input.eventID) && b.HoldsEvent(a.input.eventID))
  }

  lemma DisjointIsSymmetric(a: Tx, b: Tx)
    requires Disjoint(a, b)
    ensures Disjoint(b, a)
  {
  }

  ghost predicate AllDisjoint(txs: map<nat, Tx>) {
    forall n, m :: n in txs && m in txs && n != m ==> Disjoint(txs[n], txs[m])
  }

  ghost predicate AllTxInv(cat: Catalog, db: Database, txs: map<nat, Tx>) {
    forall n :: n in txs ==> TxInv(cat, db, txs[n])
  }

  /** The ids of the weighings a log records. */
  function Ids(log: seq<Op>): seq<Id>
    decreases |log|
  {
    if log == [] then []
    else Ids(log[..|log| - 1]) + (if log[|log| - 1].DidFinalize? then [log[|log| - 1].id] else [])
  }

  ghost predicate Inv(cat: Catalog, db0: Database, s: Server)
    requires cat.Valid()
  {
    && Sound(cat, s.db)
    && AllTxInv(cat, s.db, s.txs)
    && AllDisjoint(s.txs)
    && s.db == Replay(cat, db0, s.log)
    && |s.db.weighings| == |db0.weighings| + |Ids(s.log)|
  }

  lemma ReadKeepsTxInv(cat: Catalog, db: Database, tx: Tx)
    requires TxInv(cat, db, tx) && tx.pc in {AtEvent, AtSession}
    ensures TxInv(cat, db, Statement(cat, db, tx))
  {
  }

  lemma LockKeepsTxInv(cat: Catalog, db: Database, tx: Tx)
    requires TxInv(cat, db, tx) && tx.pc == AtLock
    ensures TxInv(cat, db, Statement(cat, db, tx))
  {
  }

  lemma WriteKeepsTxInv(cat: Catalog, db: Database, tx: Tx)
    requires TxInv(cat, db, tx) && tx.pc in {AtUpsert, AtInsertSession, AtInsertEvent, AtUpdate}
    ensures TxInv(cat, db, Statement(cat, db, tx))
  {
  }

  lemma StatementKeepsTxInv(cat: Catalog, db: Database, tx: Tx)
    requires TxInv(cat, db, tx)
    ensures TxInv(cat, db, Statement(cat, db, tx))
  {
    if tx.pc in {AtEvent, AtSession} {
      ReadKeepsTxInv(cat, db, tx);
    } else if tx.pc == AtLock {
      LockKeepsTxInv(cat, db, tx);
    } else if tx.pc in {AtUpsert, AtInsertSession, AtInsertEvent, AtUpdate} {
      WriteKeepsTxInv(cat, db, tx);
    }
  }

  lemma FindKeepsTxInv(cat: Catalog, db: Database, tx: Tx, t: Id)
    requires TxInv(cat, db, tx) && tx.pc == AtFind
    ensures TxInv(cat, db, FindRow(cat, db, tx, t))
  {
  }

  lemma LockingKeepsDisjoint(cat: Catalog, db: Database, a: Tx, b: Tx)
    requires a.pc == AtLock && a.found.Some? && !WaitsFor(a, b)
    ensures Disjoint(Statement(cat, db, a), b)
  {
  }

  /** A statement acquires only what nobody holds. */
  lemma StatementKeepsDisjoint(cat: Catalog, db: Database, a: Tx, b: Tx)
    requires TxInv(cat, db, a) && Disjoint(a, b) && !WaitsFor(a, b)
    ensures Disjoint(Statement(cat, db, a), b)
  {
    var a' := Statement(cat, db, a);
    if a.pc == AtLock {
      LockingKeepsDisjoint(cat, db, a, b);
    } else if a'.pc == Ended || a'.locked.None? {
      IdleIsDisjoint(a', b);
    } else {
      assert a'.locked == a.locked && a'.input == a.input;
    }
  }

  lemma TxChangeKeepsInv(cat: Catalog, db0: Database, s: Server, n: nat, tx: Tx)
    requires cat.Valid() && Inv(cat, db0, s) && TxInv(cat, s.db, tx)
    requires forall m :: m in s.txs && m != n ==> Disjoint(tx, s.txs[m])
    ensures Inv(cat, db0, s.(txs := s.txs[n := tx]))
  {
    var txs := s.txs[n := tx];
    forall i, j | i in txs && j in txs && i != j
      ensures Disjoint(txs[i], txs[j])
    {
      if i == n {
      } else if j == n {
        DisjointIsSymmetric(txs[j], txs[i]);
      } else {
        assert Disjoint(s.txs[i], s.txs[j]);
      }
    }
  }

  lemma AdvanceKeepsInv(cat: Catalog, db0: Database, s: Server, n: nat)
    requires cat.Valid() && Inv(cat, db0, s) && n in s.txs && !Blocked(s.txs, n)
    ensures Inv(cat, db0, Do(cat, s, Advance(n)))
  {
    var tx := Statement(cat, s.db, s.txs[n]);
    StatementKeepsTxInv(cat, s.db, s.txs[n]);
    forall m | m in s.txs && m != n
      ensures Disjoint(tx, s.txs[m])
    {
      StatementKeepsDisjoint(cat, s.db, s.txs[n], s.txs[m]);
    }
    TxChangeKeepsInv(cat, db0, s, n, tx);
  }

  lemma IdleIsDisjoint(a: Tx, b: Tx)
    requires a.locked.None? && a.pc !in {AtInsertEvent, AtUpdate, AtCommit}
    ensures Disjoint(a, b)
  {
  }

  /** A transaction that ends without writing, or starts, or only reads. */
  lemma IdleTxKeepsInv(cat: Catalog, db0: Database, s: Server, n: nat, tx: Tx)
    requires cat.Valid() && Inv(cat, db0, s) && TxInv(cat, s.db, tx)
    requires tx.locked.None? && tx.pc !in {AtInsertEvent, AtUpdate, AtCommit}
    ensures Inv(cat, db0, s.(txs := s.txs[n := tx]))
  {
    forall m | m in s.txs && m != n
      ensures Disjoint(tx, s.txs[m])
    {
      IdleIsDisjoint(tx, s.txs[m]);
    }
    TxChangeKeepsInv(cat, db0, s, n, tx);
  }

  /** Another transaction's commit touches nothing this one relies on. */
  lemma CommitKeepsOther(cat: Catalog, db: Database, a: Tx, b: Tx)
    requires TxInv(cat, db, a) && TxInv(cat, db, b) && a.pc == AtCommit && Disjoint(a, b)
    ensures TxInv(cat, Record(db, a.Row(), a.stock), b)
  {
    var w := a.Row();
    var db' := Record(db, w, a.stock);
    if b.locked.Some? {
      assert b.locked.value.id != w.transportID;
      assert LockedInv(cat, db', b.input, b.locked.value);
    }
  }

  lemma FoundNothing(ws: seq<Weighing>, input: Input)
    requires NoneInSession(ws, input.sessionID, input.stage) && NoneWithEvent(ws, input.eventID)
    ensures NoneFor(ws, input)
  {
  }

  lemma NothingIsFound(db: Database, input: Input)
    requires NoneFor(db.weighings, input)
    ensures FindExisting(db, input) == None
  {
  }

  lemma ReadyAtCommit(cat: Catalog, db: Database, tx: Tx)
    requires TxInv(cat, db, tx) && tx.pc == AtCommit
    ensures tx.locked.Some? && Ready(cat, db, tx.input, tx.locked.value.id)
    ensures tx.Row() == NewRow(cat, db, tx.input, tx.id, tx.locked.value.id)
    ensures tx.stock == NewStock(cat, db, tx.input, tx.locked.value.id)
  {
    FoundNothing(db.weighings, tx.input);
  }

  /** At its commit a transaction does exactly what Finalize alone would do now. */
  lemma CommitIsFinalize(cat: Catalog, db: Database, tx: Tx)
    requires cat.Valid() && Sound(cat, db) && TxInv(cat, db, tx) && tx.pc == AtCommit
    ensures Finalize(cat, db, tx.input, tx.id) == (Record(db, tx.Row(), tx.stock), Success(tx.Row()))
    ensures Sound(cat, Record(db, tx.Row(), tx.stock))
  {
    ReadyAtCommit(cat, db, tx);
    ReadyFinalizes(cat, db, tx.input, tx.id, tx.locked.value.id);
  }

  lemma ReadyFinalizes(cat: Catalog, db: Database, input: Input, id: Id, t: Id)
    requires cat.Valid() && Sound(cat, db) && Ready(cat, db, input, t)
    ensures Finalize(cat, db, input, id) == (Recorded(cat, db, input, id, t), Success(NewRow(cat, db, input, id, t)))
    ensures Sound(cat, Recorded(cat, db, input, id, t))
  {
    NothingIsFound(db, input);
    MatchIsUnique(cat, db, input, t, FindTransport(cat, db, input).value);
    ReadyRecords(cat, db, input, id, t);
    RecordKeepsSound(cat, db, input, id, t);
  }

  lemma LogExtends(cat: Catalog, db0: Database, log: seq<Op>, op: Op)
    requires cat.Valid()
    ensures Replay(cat, db0, log + [op]) == Apply(cat, Replay(cat, db0, log), op)
    ensures Ids(log + [op]) == Ids(log) + (if op.DidFinalize? then [op.id] else [])
  {
    assert (log + [op])[..|log|] == log && (log + [op])[|log|] == op;
  }

  lemma CommitKeepsTxs(cat: Catalog, db: Database, txs: map<nat, Tx>, n: nat, reported: bool)
    requires AllTxInv(cat, db, txs) && AllDisjoint(txs) && n in txs && txs[n].pc == AtCommit
    ensures var txs' := txs[n := txs[n].End(Told(Success(txs[n].Row()), reported))];
            AllTxInv(cat, Record(db, txs[n].Row(), txs[n].stock), txs') && AllDisjoint(txs')
  {
    var tx := txs[n];
    var db' := Record(db, tx.Row(), tx.stock);
    var txs' := txs[n := tx.End(Told(Success(tx.Row()), reported))];
    forall m | m in txs'
      ensures TxInv(cat, db', txs'[m])
    {
      if m == n {
        EndedInv(cat, db', tx, reported);
      } else {
        CommitKeepsOther(cat, db, tx, txs[m]);
      }
    }
    EndedIsDisjoint(txs, n, txs'[n]);
  }

  /** One more operation on the database, with every transaction's knowledge intact. */
  lemma OperationKeepsInv(cat: Catalog, db0: Database, s: Server, op: Op, db: Database, txs: map<nat, Tx>)
    requires cat.Valid() && Inv(cat, db0, s)
    requires db == Apply(cat, s.db, op) && Sound(cat, db) && AllTxInv(cat, db, txs) && AllDisjoint(txs)
    requires |db.weighings| == |s.db.weighings| + (if op.DidFinalize? then 1 else 0)
    ensures Inv(cat, db0, Server(db, txs, s.log + [op]))
  {
    LogExtends(cat, db0, s.log, op);
  }

  lemma CommitDoes(cat: Catalog, s: Server, n: nat, reported: bool)
    requires n in s.txs && s.txs[n].pc == AtCommit && TxInv(cat, s.db, s.txs[n])
    ensures Do(cat, s, Commit(n, reported))
         == Server(Record(s.db, s.txs[n].Row(), s.txs[n].stock),
                   s.txs[n := s.txs[n].End(Told(Success(s.txs[n].Row()), reported))],
                   s.log + [DidFinalize(s.txs[n].input, s.txs[n].id)])
  {
  }

  lemma CommitKeepsInv(cat: Catalog, db0: Database, s: Server, n: nat, reported: bool)
    requires cat.Valid() && Inv(cat, db0, s) && n in s.txs && s.txs[n].pc == AtCommit
    ensures Inv(cat, db0, Do(cat, s, Commit(n, reported)))
  {
    var tx := s.txs[n];
    CommitKeepsTxs(cat, s.db, s.txs, n, reported);
    CommitIsFinalize(cat, s.db, tx);
    CommitDoes(cat, s, n, reported);
    OneMoreWeighing(s.db, tx);
    OperationKeepsInv(cat, db0, s, DidFinalize(tx.input, tx.id), Record(s.db, tx.Row(), tx.stock),
                      s.txs[n := tx.End(Told(Success(tx.Row()), reported))]);
  }

  lemma OneMoreWeighing(db: Database, tx: Tx)
    requires tx.locked.Some? && tx.locked.value.id in db.transports
    ensures |Record(db, tx.Row(), tx.stock).weighings| == |db.weighings| + 1
  {
  }

  lemma EndedInv(cat: Catalog, db: Database, tx: Tx, reported: bool)
    requires tx.locked.Some? && tx.Row() in db.weighings
    ensures TxInv(cat, db, tx.End(Told(Success(tx.Row()), reported)))
  {
  }

  lemma EndedIsDisjoint(txs: map<nat, Tx>, n: nat, tx: Tx)
    requires AllDisjoint(txs) && tx.pc == Ended && tx.locked.None?
    ensures AllDisjoint(txs[n := tx])
  {
    var txs' := txs[n := tx];
    forall i, j | i in txs' && j in txs' && i != j
      ensures Disjoint(txs'[i], txs'[j])
    {
      if i == n {
        IdleIsDisjoint(tx, txs'[j]);
      } else if j == n {
        IdleIsDisjoint(tx, txs'[i]);
        DisjointIsSymmetric(tx, txs'[i]);
      } else {
        assert Disjoint(txs[i], txs[j]);
      }
    }
  }

  /** A change of transports that leaves the locked row alone. */
  lemma TransportsChangeKeepsTx(cat: Catalog, db: Database, db': Database, tx: Tx)
    requires TxInv(cat, db, tx)
    requires db'.inventory == db.inventory && db'.weighings == db.weighings
    requires tx.locked.Some? ==>
      tx.locked.value.id in db'.transports && db'.transports[tx.locked.value.id] == db.transports[tx.locked.value.id]
    ensures TxInv(cat, db', tx)
  {
    if tx.locked.Some? {
      assert LockedInv(cat, db', tx.input, tx.locked.value);
    }
  }

  lemma OpenKeepsTxs(cat: Catalog, db: Database, txs: map<nat, Tx>, t: Id, row: Transport)
    requires AllTxInv(cat, db, txs)
    ensures AllTxInv(cat, OpenTransport(cat, db, t, row), txs)
    ensures OpenTransport(cat, db, t, row).weighings == db.weighings
  {
    var db' := OpenTransport(cat, db, t, row);
    forall m | m in txs
      ensures TxInv(cat, db', txs[m])
    {
      TransportsChangeKeepsTx(cat, db, db', txs[m]);
    }
  }

  lemma OpenKeepsInv(cat: Catalog, db0: Database, s: Server, t: Id, row: Transport)
    requires cat.Valid() && Inv(cat, db0, s)
    ensures Inv(cat, db0, Do(cat, s, Open(t, row)))
  {
    OpenKeepsSound(cat, s.db, t, row);
    OpenKeepsTxs(cat, s.db, s.txs, t, row);
    OperationKeepsInv(cat, db0, s, DidOpen(t, row), OpenTransport(cat, s.db, t, row), s.txs);
  }

  lemma CancelKeepsTxs(cat: Catalog, db: Database, txs: map<nat, Tx>, t: Id)
    requires AllTxInv(cat, db, txs) && forall n :: n in txs ==> !txs[n].HoldsRow(t)
    ensures AllTxInv(cat, CancelTransport(db, t), txs)
    ensures CancelTransport(db, t).weighings == db.weighings
  {
    var db' := CancelTransport(db, t);
    forall m | m in txs
      ensures TxInv(cat, db', txs[m])
    {
      TransportsChangeKeepsTx(cat, db, db', txs[m]);
    }
  }

  lemma CancelKeepsInv(cat: Catalog, db0: Database, s: Server, t: Id)
    requires cat.Valid() && Inv(cat, db0, s)
    ensures Inv(cat, db0, Do(cat, s, Cancel(t)))
  {
    if !exists n :: n in s.txs && s.txs[n].HoldsRow(t) {
      CancelKeepsSound(cat, s.db, t);
      CancelKeepsTxs(cat, s.db, s.txs, t);
      OperationKeepsInv(cat, db0, s, DidCancel(t), CancelTransport(s.db, t), s.txs);
    }
  }

  lemma EndingKeepsInv(cat: Catalog, db0: Database, s: Server, n: nat, r: Reply)
    requires cat.Valid() && Inv(cat, db0, s) && n in s.txs
    requires r.Replied? && r.outcome.Success? ==>
      r.outcome.weighing in s.db.weighings && IsFor(r.outcome.weighing, s.txs[n].input)
    ensures Inv(cat, db0, s.(txs := s.txs[n := s.txs[n].End(r)]))
  {
    IdleTxKeepsInv(cat, db0, s, n, s.txs[n].End(r));
  }

  lemma BeginKeepsInv(cat: Catalog, db0: Database, s: Server, n: nat, input: Input, id: Id)
    requires cat.Valid() && Inv(cat, db0, s)
    ensures Inv(cat, db0, Do(cat, s, Begin(n, input, id)))
  {
    if n !in s.txs {
      IdleTxKeepsInv(cat, db0, s, n, Started(input, id));
    }
  }

  lemma FindIsIdle(cat: Catalog, db: Database, tx: Tx, t: Id)
    requires tx.pc == AtFind && tx.locked.None?
    ensures FindRow(cat, db, tx, t).locked.None? && FindRow(cat, db, tx, t).pc in {AtFind, AtLock, Ended}
  {
  }

  lemma FindKeepsInv(cat: Catalog, db0: Database, s: Server, n: nat, t: Id)
    requires cat.Valid() && Inv(cat, db0, s)
    ensures Inv(cat, db0, Do(cat, s, Find(n, t)))
  {
    if n in s.txs && s.txs[n].pc == AtFind {
      FindKeepsTxInv(cat, s.db, s.txs[n], t);
      FindIsIdle(cat, s.db, s.txs[n], t);
      IdleTxKeepsInv(cat, db0, s, n, FindRow(cat, s.db, s.txs[n], t));
    }
  }

  lemma ReturnDoes(cat: Catalog, s: Server, n: nat, reported: bool)
    requires n in s.txs && s.txs[n].pc == AtReturn && s.txs[n].existing.Some?
    ensures Do(cat, s, Commit(n, reported))
         == s.(txs := s.txs[n := s.txs[n].End(Told(Success(s.txs[n].existing.value), reported))])
  {
  }

  lemma NothingToCommit(cat: Catalog, s: Server, n: nat, reported: bool)
    requires n in s.txs && s.txs[n].pc !in {AtReturn, AtCommit}
    ensures Do(cat, s, Commit(n, reported)) == s
  {
  }

  lemma ExistingIsCommitted(cat: Catalog, db: Database, tx: Tx)
    requires TxInv(cat, db, tx) && tx.pc == AtReturn
    ensures tx.existing.Some? && tx.existing.value in db.weighings && IsFor(tx.existing.value, tx.input)
  {
  }

  lemma ReturnKeepsInv(cat: Catalog, db0: Database, s: Server, n: nat, reported: bool)
    requires cat.Valid() && Inv(cat, db0, s) && n in s.txs && s.txs[n].pc == AtReturn
    ensures Inv(cat, db0, Do(cat, s, Commit(n, reported)))
  {
    ExistingIsCommitted(cat, s.db, s.txs[n]);
    ReturnDoes(cat, s, n, reported);
    EndingKeepsInv(cat, db0, s, n, Told(Success(s.txs[n].existing.value), reported));
  }

  /** Every step keeps the invariant. */
  lemma StepKeepsInv(cat: Catalog, db0: Database, s: Server, a: Action)
    requires cat.Valid() && Inv(cat, db0, s)
    ensures Inv(cat, db0, Do(cat, s, a))
  {
    match a
    case Begin(n, input, id) => BeginKeepsInv(cat, db0, s, n, input, id);
    case Find(n, t) => FindKeepsInv(cat, db0, s, n, t);
    case Advance(n) =>
      if n in s.txs && !Blocked(s.txs, n) {
        AdvanceKeepsInv(cat, db0, s, n);
      }
    case Commit(n, reported) =>
      if n in s.txs {
        if s.txs[n].pc == AtCommit {
          CommitKeepsInv(cat, db0, s, n, reported);
        } else if s.txs[n].pc == AtReturn {
          ReturnKeepsInv(cat, db0, s, n, reported);
        } else {
          NothingToCommit(cat, s, n, reported);
        }
      }
    case Abort(n) =>
      if n in s.txs {
        EndingKeepsInv(cat, db0, s, n, Failed);
      }
    case Open(t, row) => OpenKeepsInv(cat, db0, s, t, row);
    case Cancel(t) => CancelKeepsInv(cat, db0, s, t);
  }

  ghost function Initial(db: Database): Server {
    Server(db, map[], [])
  }

  lemma {:induction false} RunKeepsInv(cat: Catalog, db0: Database, s: Server, actions: seq<Action>)
    requires cat.Valid() && Inv(cat, db0, s)
    ensures Inv(cat, db0, Run(cat, s, actions))
    decreases |actions|
  {
    if actions != [] {
      RunKeepsInv(cat, db0, s, actions[..|actions| - 1]);
      StepKeepsInv(cat, db0, Run(cat, s, actions[..|actions| - 1]), actions[|actions| - 1]);
    }
  }

  /** Serial equivalence and conservation: after any interleaving of finalizations,
      openings and cancellations the database is the one a serial replay of the committed
      operations, in commit order, produces; each replayed finalization added one weighing;
      and inventories equal the sums of their weighings, with unique keys. */
  lemma SerialEquivalence(cat: Catalog, db0: Database, actions: seq<Action>)
    requires cat.Valid() && Sound(cat, db0)
    ensures var s := Run(cat, Initial(db0), actions);
            && s.db == Replay(cat, db0, s.log)
            && |s.db.weighings| == |db0.weighings| + |Ids(s.log)|
            && Sound(cat, s.db)
  {
    assert Inv(cat, db0, Initial(db0));
    RunKeepsInv(cat, db0, Initial(db0), actions);
  }
}
