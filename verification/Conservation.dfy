/** Finalization, opening and cancelling keep the ledger sound: inventories equal the sum
    of their weighings, keys stay unique, rows meet their constraints. */
module Conservation {
  import opened Arithmetic
  import opened Window
  import opened Keys
  import opened Finalizing

  /** The transport t is found OPEN and lighter than the gross weight, and nothing is
      recorded for the input yet: Finalize goes on to write. */
  ghost predicate Ready(cat: Catalog, db: Database, input: Input, t: Id) {
    && ValidInput(input) && NoneFor(db.weighings, input)
    && Matches(cat, db, input, t) && db.transports[t].status == OPEN
    && input.grossWeightGrams > Lock(cat, input, t, db.transports[t]).tareWeightGrams
  }

  /** The inventory after the upsert. */
  ghost function NewStock(cat: Catalog, db: Database, input: Input, t: Id): int
    requires Ready(cat, db, input, t)
  {
    var locked := Lock(cat, input, t, db.transports[t]);
    StockOf(db, locked.Stock()) + input.grossWeightGrams - locked.tareWeightGrams
  }

  /** The row Finalize adds. */
  ghost function NewRow(cat: Catalog, db: Database, input: Input, id: Id, t: Id): Weighing
    requires Ready(cat, db, input, t)
  {
    NewWeighing(input, id, Lock(cat, input, t, db.transports[t]), NewStock(cat, db, input, t))
  }

  /** The database after Finalize's writes. */
  ghost function Recorded(cat: Catalog, db: Database, input: Input, id: Id, t: Id): Database
    requires Ready(cat, db, input, t)
  {
    Record(db, NewRow(cat, db, input, id, t), NewStock(cat, db, input, t))
  }

  lemma SumNetAppend(ws: seq<Weighing>, w: Weighing, k: StockKey)
    ensures SumNet(ws + [w], k) == SumNet(ws, k) + (if w.Stock() == k then w.netWeightGrams else 0)
  {
    assert (ws + [w])[..|ws|] == ws;
  }

  lemma StockNonNegative(cat: Catalog, db: Database, k: StockKey)
    requires Conserved(db) && RowsSound(cat, db.weighings)
    ensures StockOf(db, k) >= 0
  {
    NetsPositive(cat, db.weighings);
    SumNetNonNegative(db.weighings, k);
  }

  lemma AppendedRowsSound(cat: Catalog, ws: seq<Weighing>, w: Weighing)
    requires RowsSound(cat, ws) && RowSound(cat, w, SumNet(ws, w.Stock()) + w.netWeightGrams)
    ensures RowsSound(cat, ws + [w])
  {
    assert (ws + [w])[..|ws|] == ws;
    SumNetAppend(ws, w, w.Stock());
  }

  /** Every row is sound for the inventory of its moment. */
  lemma {:induction false} RowSoundAt(cat: Catalog, ws: seq<Weighing>, i: nat)
    requires RowsSound(cat, ws) && i < |ws|
    ensures RowSound(cat, ws[i], SumNet(ws[..i + 1], ws[i].Stock()))
    decreases |ws|
  {
    if i == |ws| - 1 {
      assert ws[..i + 1] == ws;
    } else {
      RowSoundAt(cat, ws[..|ws| - 1], i);
      assert ws[..|ws| - 1][..i + 1] == ws[..i + 1];
    }
  }

  lemma AppendedKeysUnique(ws: seq<Weighing>, w: Weighing, input: Input)
    requires UniqueKeys(ws) && NoneFor(ws, input)
    requires w.sessionID == input.sessionID && w.stage == input.stage && w.eventID == input.eventID
    ensures UniqueKeys(ws + [w])
  {
  }

  lemma AppendedConserved(db: Database, w: Weighing, inventory: int)
    requires Conserved(db) && w.transportID in db.transports
    requires inventory == StockOf(db, w.Stock()) + w.netWeightGrams
    ensures Conserved(Record(db, w, inventory))
  {
    forall k
      ensures StockOf(Record(db, w, inventory), k) == SumNet(db.weighings + [w], k)
    {
      SumNetAppend(db.weighings, w, k);
    }
  }

  lemma AppendedOncePerTransport(db: Database, w: Weighing, inventory: int)
    requires OneWeighingPerTransport(db)
    requires w.transportID in db.transports && db.transports[w.transportID].status == OPEN
    ensures OneWeighingPerTransport(Record(db, w, inventory))
  {
    var us := db.weighings + [w];
    var db' := Record(db, w, inventory);
    assert us[|us| - 1].transportID == w.transportID;
    forall t | t in db'.transports && db'.transports[t].status == WEIGHED
      ensures exists i :: 0 <= i < |us| && us[i].transportID == t
    {
      if t != w.transportID {
        var i :| 0 <= i < |db.weighings| && db.weighings[i].transportID == t;
        assert us[i].transportID == t;
      }
    }
  }

  lemma NewRowSound(cat: Catalog, db: Database, input: Input, id: Id, t: Id)
    requires cat.Valid() && Ready(cat, db, input, t)
    requires RefsOk(cat, db) && Conserved(db) && RowsSound(cat, db.weighings)
    ensures RowSound(cat, NewRow(cat, db, input, id, t), NewStock(cat, db, input, t))
  {
    StockNonNegative(cat, db, NewRow(cat, db, input, id, t).Stock());
    InsertedRowMeetsChecks(input, id, Lock(cat, input, t, db.transports[t]), NewStock(cat, db, input, t));
  }

  /** The row that a ready finalization inserts violates no constraint and no unique
      index, and recording it keeps the ledger sound. */
  lemma RecordKeepsSound(cat: Catalog, db: Database, input: Input, id: Id, t: Id)
    requires cat.Valid() && Sound(cat, db) && Ready(cat, db, input, t)
    ensures MeetsChecks(NewRow(cat, db, input, id, t))
    ensures Sound(cat, Recorded(cat, db, input, id, t))
  {
    var w := NewRow(cat, db, input, id, t);
    NewRowSound(cat, db, input, id, t);
    RecordedIsSound(cat, db, w, NewStock(cat, db, input, t), input);
  }

  lemma RecordedIsSound(cat: Catalog, db: Database, w: Weighing, inventory: int, input: Input)
    requires Sound(cat, db) && NoneFor(db.weighings, input) && RowSound(cat, w, inventory)
    requires w.sessionID == input.sessionID && w.stage == input.stage && w.eventID == input.eventID
    requires w.transportID in db.transports && db.transports[w.transportID].status == OPEN
    requires inventory == StockOf(db, w.Stock()) + w.netWeightGrams
    ensures Sound(cat, Record(db, w, inventory))
  {
    AppendedRowsSound(cat, db.weighings, w);
    AppendedKeysUnique(db.weighings, w, input);
    AppendedConserved(db, w, inventory);
    AppendedOncePerTransport(db, w, inventory);
  }

  lemma ReadyRecords(cat: Catalog, db: Database, input: Input, id: Id, t: Id)
    requires cat.Valid() && Ready(cat, db, input, t) && FindTransport(cat, db, input) == Some(t)
    ensures Finalize(cat, db, input, id) == (Recorded(cat, db, input, id, t), Success(NewRow(cat, db, input, id, t)))
  {
  }

  /** Finalize changes nothing unless it succeeds with a new row. */
  lemma FinalizeRecords(cat: Catalog, db: Database, input: Input, id: Id)
    requires cat.Valid() && Finalize(cat, db, input, id).0 != db
    ensures var t := FindTransport(cat, db, input);
            && t.Some? && Ready(cat, db, input, t.value)
            && Finalize(cat, db, input, id)
            == (Recorded(cat, db, input, id, t.value), Success(NewRow(cat, db, input, id, t.value)))
  {
    var t := FindTransport(cat, db, input);
    assert t.Some? && Ready(cat, db, input, t.value);
    ReadyRecords(cat, db, input, id, t.value);
  }

  /** Conservation, uniqueness and row soundness survive every finalization. */
  lemma FinalizeKeepsSound(cat: Catalog, db: Database, input: Input, id: Id)
    requires cat.Valid() && Sound(cat, db)
    ensures Sound(cat, Finalize(cat, db, input, id).0)
  {
    if Finalize(cat, db, input, id).0 != db {
      FinalizeRecords(cat, db, input, id);
      RecordKeepsSound(cat, db, input, id, FindTransport(cat, db, input).value);
    }
  }

  lemma OpenKeepsSound(cat: Catalog, db: Database, t: Id, row: Transport)
    requires Sound(cat, db)
    ensures Sound(cat, OpenTransport(cat, db, t, row))
  {
  }

  lemma CancelKeepsSound(cat: Catalog, db: Database, t: Id)
    requires Sound(cat, db)
    ensures Sound(cat, CancelTransport(db, t))
  {
  }

  /** A success either found an existing weighing or recorded a new one. */
  lemma SuccessFoundOrRecorded(cat: Catalog, db: Database, input: Input, id: Id)
    requires cat.Valid() && Finalize(cat, db, input, id).1.Success?
    ensures var (db', out) := Finalize(cat, db, input, id);
            || (db' == db && FindExisting(db, input) == Some(out.weighing))
            || (db'.weighings == db.weighings + [out.weighing] && out.weighing.sessionID == input.sessionID
                && out.weighing.stage == input.stage && out.weighing.eventID == input.eventID)
  {
  }

  lemma FoundIsReturned(cat: Catalog, db: Database, input: Input, id: Id, w: Weighing)
    requires cat.Valid() && ValidInput(input) && FindExisting(db, input) == Some(w)
    ensures Finalize(cat, db, input, id) == (db, Success(w))
  {
  }

  /** Finalize is idempotent by event and by (session, stage): once it has succeeded,
      any input of the same event and session, whatever its weight, transport or plate,
      gets the first weighing back and changes nothing. */
  lemma RetryReturnsWinner(cat: Catalog, db: Database, input: Input, id: Id, retry: Input, id': Id)
    requires cat.Valid() && Finalize(cat, db, input, id).1.Success?
    requires ValidInput(retry)
    requires retry.eventID == input.eventID && retry.sessionID == input.sessionID && retry.stage == input.stage
    ensures var (db', out) := Finalize(cat, db, input, id); Finalize(cat, db', retry, id') == (db', out)
  {
    SuccessFoundOrRecorded(cat, db, input, id);
    var (db', out) := Finalize(cat, db, input, id);
    if !(db' == db && FindExisting(db, input) == Some(out.weighing)) {
      LastIsFound(db'.weighings, out.weighing);
    }
    assert FindExisting(db', retry) == Some(out.weighing);
    FoundIsReturned(cat, db', retry, id', out.weighing);
  }

  lemma LastIsFound(ws: seq<Weighing>, w: Weighing)
    requires ws != [] && ws[|ws| - 1] == w
    ensures FindBySession(ws, w.sessionID, w.stage) == Some(w)
    ensures FindByEvent(ws, w.eventID) == Some(w)
  {
  }

  lemma {:induction false} PrefixSumNetGrows(ws: seq<Weighing>, k: StockKey, i: nat, j: nat)
    requires i <= j <= |ws| && forall l :: 0 <= l < |ws| ==> ws[l].netWeightGrams > 0
    ensures SumNet(ws[..i], k) <= SumNet(ws[..j], k)
    decreases j
  {
    if i < j {
      PrefixSumNetGrows(ws, k, i, j - 1);
      assert ws[..j] == ws[..j - 1] + [ws[j - 1]];
      SumNetAppend(ws[..j - 1], ws[j - 1], k);
    }
  }

  lemma NetsPositive(cat: Catalog, ws: seq<Weighing>)
    requires RowsSound(cat, ws)
    ensures forall i :: 0 <= i < |ws| ==> ws[i].netWeightGrams > 0
  {
    forall i | 0 <= i < |ws|
      ensures ws[i].netWeightGrams > 0
    {
      RowSoundAt(cat, ws, i);
    }
  }

  lemma MarginAt(cat: Catalog, ws: seq<Weighing>, i: nat)
    requires RowsSound(cat, ws) && i < |ws|
    ensures ws[i].grainTypeID in cat.inventoryTargets
    ensures ws[i].appliedMarginBPS == Margin(SumNet(ws[..i + 1], ws[i].Stock()), cat.inventoryTargets[ws[i].grainTypeID])
    ensures 500 <= ws[i].appliedMarginBPS <= 2000
  {
    RowSoundAt(cat, ws, i);
  }

  /** Along the weighings of one (branch, grain) the margin never rises. */
  lemma MarginNonIncreasing(cat: Catalog, db: Database, i: nat, j: nat)
    requires Sound(cat, db) && i <= j < |db.weighings|
    requires db.weighings[i].Stock() == db.weighings[j].Stock()
    ensures 500 <= db.weighings[j].appliedMarginBPS <= db.weighings[i].appliedMarginBPS <= 2000
  {
    var ws := db.weighings;
    var k := ws[i].Stock();
    NetsPositive(cat, ws);
    MarginAt(cat, ws, i);
    MarginAt(cat, ws, j);
    PrefixSumNetGrows(ws, k, i + 1, j + 1);
    MarginDecreases(SumNet(ws[..i + 1], k), SumNet(ws[..j + 1], k), cat.inventoryTargets[k.grainTypeID]);
  }
}
