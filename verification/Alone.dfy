/** A finalization that nobody interferes with: its steps through the machine of
    Transactions have exactly the result of Finalize, for every input. */
module Alone {
  import opened Window
  import opened Finalizing
  import opened Conservation
  import opened Transactions

  /** The row the snapshot picks, if there is one. */
  ghost function Pick(cat: Catalog, db: Database, input: Input): Id {
    var t := FindTransport(cat, db, input);
    if t.Some? then t.value else ""
  }

  /** Every statement in order; one whose turn does not come changes nothing. */
  ghost function Schedule(cat: Catalog, db: Database, input: Input, id: Id): seq<Action> {
    [Begin(0, input, id), Advance(0), Advance(0), Find(0, Pick(cat, db, input)),
     Advance(0), Advance(0), Advance(0), Advance(0), Advance(0), Commit(0, true)]
  }

  ghost function Single(db: Database, tx: Tx, log: seq<Op>): Server {
    Server(db, map[0 := tx], log)
  }

  lemma AdvanceAlone(cat: Catalog, db: Database, tx: Tx, log: seq<Op>)
    ensures Do(cat, Single(db, tx, log), Advance(0)) == Single(db, Statement(cat, db, tx), log)
  {
    assert map[0 := tx][0 := Statement(cat, db, tx)] == map[0 := Statement(cat, db, tx)];
  }

  lemma FindAlone(cat: Catalog, db: Database, tx: Tx, log: seq<Op>, t: Id)
    ensures Do(cat, Single(db, tx, log), Find(0, t))
         == Single(db, if tx.pc == AtFind then FindRow(cat, db, tx, t) else tx, log)
  {
    if tx.pc == AtFind {
      assert map[0 := tx][0 := FindRow(cat, db, tx, t)] == map[0 := FindRow(cat, db, tx, t)];
    }
  }

  /** The statement repeated n times. */
  ghost function Statements(cat: Catalog, db: Database, tx: Tx, n: nat): Tx
    decreases n
  {
    if n == 0 then tx else Statements(cat, db, Statement(cat, db, tx), n - 1)
  }

  ghost function Times(n: nat): seq<Action>
    decreases n
  {
    if n == 0 then [] else [Advance(0)] + Times(n - 1)
  }

  lemma {:induction false} AdvanceTimes(cat: Catalog, db: Database, tx: Tx, n: nat)
    ensures Run(cat, Single(db, tx, []), Times(n)) == Single(db, Statements(cat, db, tx, n), [])
    decreases n
  {
    if n > 0 {
      AdvanceAlone(cat, db, tx, []);
      RunOneAction(cat, Single(db, tx, []), Advance(0));
      RunConcat(cat, Single(db, tx, []), [Advance(0)], Times(n - 1));
      AdvanceTimes(cat, db, Statement(cat, db, tx), n - 1);
    }
  }

  lemma {:induction false} RunConcat(cat: Catalog, s: Server, a: seq<Action>, b: seq<Action>)
    ensures Run(cat, s, a + b) == Run(cat, Run(cat, s, a), b)
    decreases |b|
  {
    if b == [] {
      assert a + b == a;
    } else {
      RunConcat(cat, s, a, b[..|b| - 1]);
      assert (a + b)[..|a + b| - 1] == a + b[..|b| - 1];
    }
  }

  /** The transaction up to its commit. */
  ghost function BeforeCommit(cat: Catalog, db: Database, input: Input, id: Id): Tx {
    var read := Statements(cat, db, Started(input, id), 2);
    var found := if read.pc == AtFind then FindRow(cat, db, read, Pick(cat, db, input)) else read;
    Statements(cat, db, found, 5)
  }

  lemma RunOneAction(cat: Catalog, s: Server, a: Action)
    ensures Run(cat, s, [a]) == Do(cat, s, a)
  {
    assert [a][..0] == [];
  }

  lemma ScheduleRuns(cat: Catalog, db: Database, input: Input, id: Id)
    ensures Run(cat, Initial(db), Schedule(cat, db, input, id))
         == Do(cat, Single(db, BeforeCommit(cat, db, input, id), []), Commit(0, true))
  {
    var t := Pick(cat, db, input);
    var started := Started(input, id);
    var read := Statements(cat, db, started, 2);
    var found := if read.pc == AtFind then FindRow(cat, db, read, t) else read;
    var a, b, c, d, e := [Begin(0, input, id)], Times(2), [Find(0, t)], Times(5), [Commit(0, true)];
    TimesTwoAndFive();
    assert Schedule(cat, db, input, id) == (((a + b) + c) + d) + e;
    RunOneAction(cat, Initial(db), Begin(0, input, id));
    assert Do(cat, Initial(db), Begin(0, input, id)) == Single(db, started, []);
    RunConcat(cat, Initial(db), a, b);
    AdvanceTimes(cat, db, started, 2);
    RunConcat(cat, Initial(db), a + b, c);
    RunOneAction(cat, Single(db, read, []), Find(0, t));
    FindAlone(cat, db, read, [], t);
    RunConcat(cat, Initial(db), (a + b) + c, d);
    AdvanceTimes(cat, db, found, 5);
    RunConcat(cat, Initial(db), ((a + b) + c) + d, e);
    RunOneAction(cat, Single(db, Statements(cat, db, found, 5), []), Commit(0, true));
  }

  lemma TimesTwoAndFive()
    ensures Times(2) == [Advance(0), Advance(0)]
    ensures Times(5) == [Advance(0), Advance(0), Advance(0), Advance(0), Advance(0)]
  {
    assert Times(1) == [Advance(0)] + Times(0);
    assert Times(2) == [Advance(0)] + Times(1);
    assert Times(3) == [Advance(0)] + Times(2);
    assert Times(4) == [Advance(0)] + Times(3);
  }

  lemma {:induction false} RestingStays(cat: Catalog, db: Database, tx: Tx, n: nat)
    requires tx.pc in {AtFind, AtCommit, AtReturn, Ended}
    ensures Statements(cat, db, tx, n) == tx
    decreases n
  {
    if n > 0 {
      RestingStays(cat, db, tx, n - 1);
    }
  }

  /** After the reads: an existing weighing, or at the locking query. */
  lemma ReadsFindExisting(cat: Catalog, db: Database, input: Input, id: Id)
    requires ValidInput(input)
    ensures var read := Statements(cat, db, Started(input, id), 2);
            var existing := FindExisting(db, input);
            && read.input == input && read.id == id && read.locked.None? && read.reply.Waiting?
            && (existing.Some? ==> read.pc == AtReturn && read.existing == existing)
            && (existing.None? ==> read.pc == AtFind)
  {
    var started := Started(input, id);
    var once := Statement(cat, db, started);
    assert Statements(cat, db, started, 2) == Statements(cat, db, once, 1);
    assert Statements(cat, db, once, 1) == Statements(cat, db, Statement(cat, db, once), 0);
  }

  /** From the row picked to the commit, or to the business error Finalize reports. */
  lemma WritesAlone(cat: Catalog, db: Database, tx: Tx, t: Id)
    requires cat.Valid() && Sound(cat, db) && ValidInput(tx.input)
    requires FindExisting(db, tx.input).None? && FindTransport(cat, db, tx.input) == Some(t)
    requires tx.pc == AtLock && tx.found == Some(t) && tx.locked.None? && tx.reply.Waiting?
    ensures var done := Statements(cat, db, tx, 5);
            var (db', outcome) := Finalize(cat, db, tx.input, tx.id);
            && (outcome.Success? ==> AtTheCommit(db, done, tx.input, tx.id) && db' == Record(db, done.Row(), done.stock)
                                     && outcome.weighing == done.Row())
            && (!outcome.Success? ==> done.pc == Ended && done.reply == Replied(outcome) && db' == db)
  {
    var locked := Statement(cat, db, tx);
    Unrolled(cat, db, tx);
    if locked.pc == Ended {
      RestingStays(cat, db, locked, 4);
      RefusedAlone(cat, db, tx, t);
    } else {
      ReadyAlone(cat, db, tx, t);
    }
  }

  ghost predicate AtTheCommit(db: Database, tx: Tx, input: Input, id: Id) {
    tx.pc == AtCommit && tx.locked.Some? && tx.locked.value.id in db.transports && tx.input == input && tx.id == id
  }

  lemma RefusedAlone(cat: Catalog, db: Database, tx: Tx, t: Id)
    requires cat.Valid() && ValidInput(tx.input)
    requires FindExisting(db, tx.input).None? && FindTransport(cat, db, tx.input) == Some(t)
    requires tx.pc == AtLock && tx.found == Some(t) && Statement(cat, db, tx).pc == Ended
    ensures Finalize(cat, db, tx.input, tx.id).0 == db
    ensures Statement(cat, db, tx).reply == Replied(Finalize(cat, db, tx.input, tx.id).1)
    ensures !Finalize(cat, db, tx.input, tx.id).1.Success?
  {
  }

  lemma Unrolled(cat: Catalog, db: Database, tx: Tx)
    ensures Statements(cat, db, tx, 5) == Statements(cat, db, Statement(cat, db, tx), 4)
  {
  }

  /** A ready transaction passes its four writes. */
  lemma ReadyAlone(cat: Catalog, db: Database, tx: Tx, t: Id)
    requires cat.Valid() && Sound(cat, db) && ValidInput(tx.input)
    requires FindExisting(db, tx.input).None? && FindTransport(cat, db, tx.input) == Some(t)
    requires tx.pc == AtLock && tx.found == Some(t) && tx.locked.None? && tx.reply.Waiting?
    requires Statement(cat, db, tx).pc == AtUpsert
    ensures var done := Statements(cat, db, tx, 5);
            && AtTheCommit(db, done, tx.input, tx.id)
            && Finalize(cat, db, tx.input, tx.id) == (Record(db, done.Row(), done.stock), Success(done.Row()))
  {
    var locked := Statement(cat, db, tx);
    LockStep(cat, db, tx, t);
    var upserted := Statement(cat, db, locked);
    UpsertStep(cat, db, locked, t);
    RecordKeepsSound(cat, db, tx.input, tx.id, t);
    SessionPasses(cat, db, upserted);
    UpdateStep(cat, db, upserted.(pc := AtUpdate));
    FourStatements(cat, db, locked);
    Unrolled(cat, db, tx);
    ReadyRecords(cat, db, tx.input, tx.id, t);
  }

  lemma LockStep(cat: Catalog, db: Database, tx: Tx, t: Id)
    requires ValidInput(tx.input) && FindExisting(db, tx.input).None? && Matches(cat, db, tx.input, t)
    requires tx.pc == AtLock && tx.found == Some(t) && Statement(cat, db, tx).pc == AtUpsert
    ensures Ready(cat, db, tx.input, t)
    ensures Statement(cat, db, tx) == tx.(pc := AtUpsert, locked := Some(Lock(cat, tx.input, t, db.transports[t])))
  {
  }

  lemma UpsertStep(cat: Catalog, db: Database, tx: Tx, t: Id)
    requires Ready(cat, db, tx.input, t) && tx.pc == AtUpsert
    requires tx.locked == Some(Lock(cat, tx.input, t, db.transports[t]))
    ensures Statement(cat, db, tx) == tx.(pc := AtInsertSession, stock := NewStock(cat, db, tx.input, t))
    ensures Statement(cat, db, tx).Row() == NewRow(cat, db, tx.input, tx.id, t)
  {
  }

  lemma UpdateStep(cat: Catalog, db: Database, tx: Tx)
    requires tx.pc == AtUpdate && UpdatesOneRow(db, tx)
    ensures Statement(cat, db, tx) == tx.(pc := AtCommit)
  {
  }

  lemma SessionPasses(cat: Catalog, db: Database, tx: Tx)
    requires tx.pc == AtInsertSession && tx.locked.Some? && MeetsChecks(tx.Row()) && NoneFor(db.weighings, tx.input)
    ensures Statement(cat, db, tx) == tx.(pc := AtInsertEvent)
    ensures Statement(cat, db, tx.(pc := AtInsertEvent)) == tx.(pc := AtUpdate)
  {
    var bySession := FindBySession(db.weighings, tx.input.sessionID, tx.input.stage);
    assert bySession.None?;
    if tx.input.eventID != "" {
      assert FindByEvent(db.weighings, tx.input.eventID).None?;
    }
  }

  lemma FourStatements(cat: Catalog, db: Database, tx: Tx)
    ensures Statements(cat, db, tx, 4)
         == Statement(cat, db, Statement(cat, db, Statement(cat, db, Statement(cat, db, tx))))
  {
    var a := Statement(cat, db, tx);
    var b := Statement(cat, db, a);
    var c := Statement(cat, db, b);
    assert Statements(cat, db, tx, 4) == Statements(cat, db, a, 3);
    assert Statements(cat, db, a, 3) == Statements(cat, db, b, 2);
    assert Statements(cat, db, b, 2) == Statements(cat, db, c, 1);
    assert Statements(cat, db, c, 1) == Statements(cat, db, Statement(cat, db, c), 0);
  }

  /** The commit of tx gives db' and the answer outcome. */
  ghost predicate EndsAs(db: Database, tx: Tx, db': Database, outcome: Outcome) {
    || (tx.pc == Ended && tx.reply == Replied(outcome) && db' == db)
    || (tx.pc == AtReturn && tx.existing.Some? && outcome == Success(tx.existing.value) && db' == db)
    || (AtTheCommit(db, tx, tx.input, tx.id) && db' == Record(db, tx.Row(), tx.stock) && outcome == Success(tx.Row()))
  }

  lemma CommitAlone(cat: Catalog, db: Database, tx: Tx, db': Database, outcome: Outcome)
    requires EndsAs(db, tx, db', outcome)
    ensures var s := Do(cat, Single(db, tx, []), Commit(0, true));
            s.db == db' && 0 in s.txs && s.txs[0].reply == Replied(outcome)
  {
  }

  lemma StatementsEnd(cat: Catalog, db: Database, input: Input, id: Id)
    requires cat.Valid() && Sound(cat, db)
    ensures var (db', outcome) := Finalize(cat, db, input, id);
            EndsAs(db, BeforeCommit(cat, db, input, id), db', outcome)
  {
    if !ValidInput(input) {
      RestingStays(cat, db, Started(input, id), 2);
      RestingStays(cat, db, Started(input, id), 5);
    } else {
      ReadsFindExisting(cat, db, input, id);
      var read := Statements(cat, db, Started(input, id), 2);
      if FindExisting(db, input).Some? {
        RestingStays(cat, db, read, 5);
        FoundIsReturned(cat, db, input, id, FindExisting(db, input).value);
      } else {
        FoundEnds(cat, db, input, id, read);
      }
    }
  }

  lemma FoundEnds(cat: Catalog, db: Database, input: Input, id: Id, read: Tx)
    requires cat.Valid() && Sound(cat, db) && ValidInput(input) && FindExisting(db, input).None?
    requires read.pc == AtFind && read.input == input && read.id == id && read.locked.None? && read.reply.Waiting?
    ensures var found := FindRow(cat, db, read, Pick(cat, db, input));
            var (db', outcome) := Finalize(cat, db, input, id);
            EndsAs(db, Statements(cat, db, found, 5), db', outcome)
  {
    var found := FindRow(cat, db, read, Pick(cat, db, input));
    if FindTransport(cat, db, input).None? {
      RestingStays(cat, db, found, 5);
    } else {
      WritesAlone(cat, db, found, Pick(cat, db, input));
    }
  }

  /** Alone, the machine does what Finalize does: same database and same answer, for
      successes, existing weighings and every business error. */
  lemma AloneIsFinalize(cat: Catalog, db: Database, input: Input, id: Id)
    requires cat.Valid() && Sound(cat, db)
    ensures var s := Run(cat, Initial(db), Schedule(cat, db, input, id));
            var (db', outcome) := Finalize(cat, db, input, id);
            s.db == db' && 0 in s.txs && s.txs[0].reply == Replied(outcome)
  {
    ScheduleRuns(cat, db, input, id);
    StatementsEnd(cat, db, input, id);
    var (db', outcome) := Finalize(cat, db, input, id);
    CommitAlone(cat, db, BeforeCommit(cat, db, input, id), db', outcome);
  }
}
