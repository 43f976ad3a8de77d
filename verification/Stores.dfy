/** The finalization transaction statement by statement on a database that nobody else
    uses, with rollback when a statement fails and with a commit whose reply is lost. */
module Stores {
  import opened Arithmetic
  import opened Window
  import opened Keys
  import opened Finalizing
  import opened Conservation
  import opened Answers

  /** The statements of the transaction, in order. */
  datatype Statement = BEGIN | READ_EVENT | READ_SESSION | LOCK | COST | UPSERT | MARGIN | INSERT | UPDATE | COMMIT

  /** What goes wrong while the transaction runs: a statement fails, or the commit takes
      effect and reports failure. */
  datatype Trouble = Nothing | Fails(at: Statement) | LostReply

  /** Finalize's result: a weighing, a business error, or a database error. */
  datatype Answer = Answered(outcome: Outcome) | DatabaseError

  class Store {
    var transports: map<Id, Transport>
    var inventory: map<StockKey, int>
    var weighings: seq<Weighing>

    ghost function Db(): Database
      reads this
    {
      Database(transports, inventory, weighings)
    }

    constructor ()
      ensures Db() == Database(map[], map[], [])
      ensures forall cat :: Sound(cat, Db())
    {
      transports, inventory, weighings := map[], map[], [];
      new;
      forall cat
        ensures Sound(cat, Db())
      {
        EmptyIsSound(cat);
      }
    }

    method Rollback(transports0: map<Id, Transport>, inventory0: map<StockKey, int>, weighings0: seq<Weighing>)
      modifies this
      ensures Db() == Database(transports0, inventory0, weighings0)
    {
      transports, inventory, weighings := transports0, inventory0, weighings0;
    }

    /** INSERT ... ON CONFLICT DO UPDATE ... RETURNING. */
    method Upsert(k: StockKey, net: int) returns (stock: int)
      modifies this`inventory
      ensures stock == StockOf(old(Db()), k) + net
      ensures inventory == old(inventory)[k := stock]
    {
      stock := if k in inventory then inventory[k] + net else net;
      inventory := inventory[k := stock];
    }

    /** The statements from the load cost to the commit, once the transport t is locked
        and ready. The asserts say that no CHECK and no unique index refuses the row and
        that the conditional UPDATE changes exactly one row. */
    method Write(cat: Catalog, input: Input, id: Id, t: Id, trouble: Trouble) returns (answer: Answer)
      requires cat.Valid() && Ready(cat, Db(), input, t) && MeetsChecks(NewRow(cat, Db(), input, id, t))
      modifies this
      ensures answer.Answered? ==>
        && answer.outcome == Success(NewRow(cat, old(Db()), input, id, t))
        && Db() == Recorded(cat, old(Db()), input, id, t)
      ensures answer.DatabaseError? ==>
        Db() == if trouble.LostReply? then Recorded(cat, old(Db()), input, id, t) else old(Db())
      ensures answer.DatabaseError? ==> trouble != Nothing
    {
      var transports0, inventory0, weighings0 := transports, inventory, weighings;
      var locked := Lock(cat, input, t, transports[t]);
      var net := input.grossWeightGrams - locked.tareWeightGrams;
      if trouble == Fails(COST) {
        return DatabaseError;
      }
      var cost := LoadCost(net, locked.purchasePriceMinor);
      if trouble == Fails(UPSERT) {
        return DatabaseError;
      }
      var stock := Upsert(locked.Stock(), net);
      if trouble == Fails(MARGIN) {
        Rollback(transports0, inventory0, weighings0);
        return DatabaseError;
      }
      var margin := Margin(stock, locked.inventoryTargetGrams);
      var w := Weighing(id, input.sessionID, input.stage, input.eventID, locked.id, locked.branchID, locked.grainTypeID,
                        locked.scaleID, input.grossWeightGrams, locked.tareWeightGrams, net, cost,
                        locked.purchasePriceMinor, margin, input.algorithmVersion, input.sampleCount,
                        input.dispersionGrams, input.slope, input.weighedAt);
      assert MeetsChecks(w) && NoneFor(weighings, input);
      if trouble == Fails(INSERT) {
        Rollback(transports0, inventory0, weighings0);
        return DatabaseError;
      }
      weighings := weighings + [w];
      if trouble == Fails(UPDATE) {
        Rollback(transports0, inventory0, weighings0);
        return DatabaseError;
      }
      assert transports[t].status == OPEN;
      transports := transports[t := transports[t].(status := WEIGHED)];
      if trouble == Fails(COMMIT) {
        Rollback(transports0, inventory0, weighings0);
        return DatabaseError;
      }
      if trouble == LostReply {
        return DatabaseError;
      }
      return Answered(Success(w));
    }

    /** The idempotency reads. */
    method ReadExisting(input: Input, trouble: Trouble) returns (existing: Option<Weighing>, ok: bool)
      ensures ok ==> existing == FindExisting(Db(), input)
      ensures !ok ==> trouble.Fails?
    {
      if input.eventID != "" {
        if trouble == Fails(READ_EVENT) {
          return None, false;
        }
        existing := FindByEvent(weighings, input.eventID);
        if existing.Some? {
          return existing, true;
        }
      }
      if trouble == Fails(READ_SESSION) {
        return None, false;
      }
      existing := FindBySession(weighings, input.sessionID, input.stage);
      return existing, true;
    }

    /** lockTransport and the two checks on the locked row. */
    method LockReady(cat: Catalog, input: Input) returns (found: Option<Id>, error: Outcome)
      requires ValidInput(input) && FindExisting(Db(), input).None?
      ensures found.Some? ==> Ready(cat, Db(), input, found.value)
      ensures found.None? ==> error in {ErrNotFound, ErrConflict, ErrValidation}
      ensures found.None? && error.ErrNotFound? ==> forall t :: !Matches(cat, Db(), input, t)
      ensures found.None? && !error.ErrNotFound? ==>
        exists t :: && Matches(cat, Db(), input, t)
                    && RefusalOf(cat, Db(), input, t) == Some(error)
    {
      error := ErrNotFound;
      if !exists t :: t in transports && MatchesRow(cat, input, t, transports[t]) {
        return None, ErrNotFound;
      }
      var t :| t in transports && MatchesRow(cat, input, t, transports[t]);
      assert Matches(cat, Db(), input, t);
      var locked := Lock(cat, input, t, transports[t]);
      if locked.status != OPEN {
        return None, ErrConflict;
      }
      if input.grossWeightGrams <= locked.tareWeightGrams {
        return None, ErrValidation;
      }
      return Some(t), error;
    }

    method Run(cat: Catalog, input: Input, id: Id, trouble: Trouble) returns (answer: Answer)
      requires cat.Valid() && AtMostOneMatch(cat, Db(), input)
      requires forall t :: Ready(cat, Db(), input, t) ==> MeetsChecks(NewRow(cat, Db(), input, id, t))
      modifies this
      ensures trouble == Nothing ==> answer.Answered?
      ensures answer.Answered? ==> (Db(), answer.outcome) == Finalizing.Finalize(cat, old(Db()), input, id)
      ensures answer.DatabaseError? ==>
        Db() == if trouble.LostReply? then Finalizing.Finalize(cat, old(Db()), input, id).0 else old(Db())
    {
      if !ValidInput(input) {
        return Answered(ErrValidation);
      }
      if trouble == Fails(BEGIN) {
        return DatabaseError;
      }
      var existing, ok := ReadExisting(input, trouble);
      if !ok {
        return DatabaseError;
      }
      if existing.Some? {
        FoundIsReturned(cat, Db(), input, id, existing.value);
        if trouble == Fails(COMMIT) || trouble == LostReply {
          return DatabaseError;
        }
        return Answered(Success(existing.value));
      }
      if trouble == Fails(LOCK) {
        return DatabaseError;
      }
      var t, error := LockReady(cat, input);
      if t.None? {
        RefusedIsFinal(cat, Db(), input, id, error);
        return Answered(error);
      }
      OnlyMatchIsFound(cat, Db(), input, t.value);
      ReadyRecords(cat, Db(), input, id, t.value);
      answer := Write(cat, input, id, t.value, trouble);
    }

    /** With no trouble Finalize does what its specification says; IsAnswer spells out each
        answer and the new database. With a failing statement nothing changes. When the
        commit's reply is lost the caller sees an error although the weighing may be
        recorded; a retry then returns it. */
    method Finalize(cat: Catalog, input: Input, id: Id, trouble: Trouble) returns (answer: Answer)
      requires cat.Valid() && Sound(cat, Db())
      modifies this
      ensures Sound(cat, Db())
      ensures trouble == Nothing ==> answer.Answered?
      ensures answer.Answered? ==> (Db(), answer.outcome) == Finalizing.Finalize(cat, old(Db()), input, id)
      ensures answer.Answered? ==> IsAnswer(cat, old(Db()), input, id, Db(), answer.outcome)
      ensures answer.DatabaseError? ==>
        Db() == if trouble.LostReply? then Finalizing.Finalize(cat, old(Db()), input, id).0 else old(Db())
    {
      FinalizeAnswers(cat, Db(), input, id);
      SoundIsReady(cat, Db(), input, id);
      answer := Run(cat, input, id, trouble);
    }

    /** CreateTransportTransaction: active references, then the INSERT with the price of the
        grain type. */
    method Create(cat: Catalog, active: Active, t: Id, branchID: Id, truckID: Id, grainTypeID: Id)
      returns (outcome: CreateOutcome)
      requires cat.Valid() && Sound(cat, Db())
      modifies this
      ensures Sound(cat, Db())
      ensures outcome == Invalid <==> !CanCreate(active, branchID, truckID, grainTypeID)
      ensures outcome == Invalid ==> Db() == old(Db())
      ensures outcome != Invalid ==>
        var row := Transport(branchID, truckID, grainTypeID, OPEN, active.prices[grainTypeID]);
        && Db() == OpenTransport(cat, old(Db()), t, row)
        && (outcome == Created <==> Db() != old(Db()))
      ensures outcome == Created ==>
        && t !in old(transports)
        && transports
           == old(transports)[t := Transport(branchID, truckID, grainTypeID, OPEN, active.prices[grainTypeID])]
    {
      if TrimSpace(branchID) == "" || TrimSpace(truckID) == "" || TrimSpace(grainTypeID) == "" {
        return Invalid;
      }
      if branchID !in active.branches {
        return Invalid;
      }
      if truckID !in active.trucks {
        return Invalid;
      }
      if grainTypeID !in active.prices {
        return Invalid;
      }
      OpenedIff(cat, Db(), t, Transport(branchID, truckID, grainTypeID, OPEN, active.prices[grainTypeID]));
      var created := Open(cat, t, Transport(branchID, truckID, grainTypeID, OPEN, active.prices[grainTypeID]));
      outcome := if created then Created else Refused;
    }

    /** The INSERT. */
    method Open(cat: Catalog, t: Id, row: Transport) returns (created: bool)
      requires cat.Valid() && Sound(cat, Db())
      modifies this
      ensures Db() == OpenTransport(cat, old(Db()), t, row) && Sound(cat, Db())
      ensures created <==> Db() != old(Db())
    {
      OpenKeepsSound(cat, Db(), t, row);
      created := t != "" && t !in transports && row.truckID in cat.trucks && row.grainTypeID in cat.inventoryTargets
                && row.purchasePriceMinor >= 0 && row.status == OPEN
                && !exists u :: u in transports && transports[u].truckID == row.truckID && transports[u].status == OPEN;
      if created {
        transports := transports[t := row];
        assert t in transports && t !in old(transports);
      }
    }

    /** TransitionTransportTransaction: only to CANCELLED, and only from OPEN. */
    method Cancel(cat: Catalog, t: Id, status: string) returns (outcome: CancelOutcome)
      requires cat.Valid() && Sound(cat, Db())
      modifies this
      ensures Sound(cat, Db())
      ensures Db() == if outcome == Cancelled then CancelTransport(old(Db()), t) else old(Db())
      ensures outcome == if NormalizeCode(status) != "CANCELLED" then Unsupported
                         else if t !in old(transports) then Missing
                         else if old(transports)[t].status != OPEN then NotOpen else Cancelled
      ensures outcome == Cancelled ==>
        transports == old(transports)[t := old(transports)[t].(status := CANCELLED)]
        && inventory == old(inventory) && weighings == old(weighings)
    {
      if NormalizeCode(status) != "CANCELLED" {
        return Unsupported;
      }
      if t !in transports {
        return Missing;
      }
      if transports[t].status != OPEN {
        return NotOpen;
      }
      var changed := UpdateCancelled(cat, t);
      outcome := if changed then Cancelled else NotOpen;
    }

    /** The conditional UPDATE: one row or none, whatever was read before it. */
    method UpdateCancelled(cat: Catalog, t: Id) returns (changed: bool)
      requires cat.Valid() && Sound(cat, Db())
      modifies this
      ensures Db() == CancelTransport(old(Db()), t) && Sound(cat, Db())
      ensures changed <==> t in old(transports) && old(transports)[t].status == OPEN
    {
      CancelKeepsSound(cat, Db(), t);
      changed := t in transports && transports[t].status == OPEN;
      if changed {
        transports := transports[t := transports[t].(status := CANCELLED)];
      }
    }
  }

  /** The active rows of the registration tables; prices are those of the grain types. */
  datatype Active = Active(branches: set<Id>, trucks: set<Id>, prices: map<Id, int>)

  predicate CanCreate(active: Active, branchID: Id, truckID: Id, grainTypeID: Id) {
    && TrimSpace(branchID) != "" && TrimSpace(truckID) != "" && TrimSpace(grainTypeID) != ""
    && branchID in active.branches && truckID in active.trucks && grainTypeID in active.prices
  }

  datatype CreateOutcome = Created | Invalid | Refused

  datatype CancelOutcome = Cancelled | Unsupported | Missing | NotOpen

  /** Soundness holds from the start: of a database without transports. */
  lemma EmptyIsSound(cat: Catalog)
    ensures Sound(cat, Database(map[], map[], []))
  {
  }

  /** The business error on a locked row, if any. */
  ghost function RefusalOf(cat: Catalog, db: Database, input: Input, t: Id): Option<Outcome>
    requires Matches(cat, db, input, t)
  {
    var locked := Lock(cat, input, t, db.transports[t]);
    if locked.status != OPEN then Some(ErrConflict)
    else if input.grossWeightGrams <= locked.tareWeightGrams then Some(ErrValidation)
    else None
  }

  lemma OnlyMatchIsFound(cat: Catalog, db: Database, input: Input, t: Id)
    requires AtMostOneMatch(cat, db, input) && Matches(cat, db, input, t)
    ensures FindTransport(cat, db, input) == Some(t)
  {
  }

  lemma RefusedIsFinal(cat: Catalog, db: Database, input: Input, id: Id, error: Outcome)
    requires cat.Valid() && AtMostOneMatch(cat, db, input) && ValidInput(input) && FindExisting(db, input).None?
    requires if error.ErrNotFound? then forall t :: !Matches(cat, db, input, t)
             else exists t :: Matches(cat, db, input, t) && RefusalOf(cat, db, input, t) == Some(error)
    ensures Finalizing.Finalize(cat, db, input, id) == (db, error)
  {
    if !error.ErrNotFound? {
      var t :| Matches(cat, db, input, t) && RefusalOf(cat, db, input, t) == Some(error);
      OnlyMatchIsFound(cat, db, input, t);
    }
  }

  ghost predicate AtMostOneMatch(cat: Catalog, db: Database, input: Input) {
    forall t, u :: Matches(cat, db, input, t) && Matches(cat, db, input, u) ==> t == u
  }

  /** What soundness gives a finalization before it starts. */
  lemma SoundIsReady(cat: Catalog, db: Database, input: Input, id: Id)
    requires cat.Valid() && Sound(cat, db)
    ensures AtMostOneMatch(cat, db, input)
    ensures forall t :: Ready(cat, db, input, t) ==> MeetsChecks(NewRow(cat, db, input, id, t))
    ensures Sound(cat, Finalize(cat, db, input, id).0)
  {
    FinalizeKeepsSound(cat, db, input, id);
    forall t | Ready(cat, db, input, t)
      ensures MeetsChecks(NewRow(cat, db, input, id, t))
    {
      RecordKeepsSound(cat, db, input, id, t);
    }
  }
}
