/** What Finalize answers and writes, for every input, said without the formulas and the
    query of the transaction: which transport, which amounts, which error. */
module Answers {
  import opened Arithmetic
  import opened Window
  import opened Keys
  import opened Finalizing
  import opened Conservation

  /** Incomplete or malformed. */
  predicate IsInvalid(input: Input) {
    || IsBlank(input.sessionID) || IsBlank(input.stage) || IsBlank(input.scaleID)
    || input.grossWeightGrams <= 0 || input.sampleCount <= 0 || input.dispersionGrams < 0
    || IsBlank(input.algorithmVersion) || IsBlank(input.slope) || input.weighedAt == 0
    || (input.eventID != "" && !IsUuid(input.eventID))
    || (input.transportID == "" && IsBlank(input.plate))
  }

  lemma InvalidIff(input: Input)
    ensures IsInvalid(input) <==> !ValidInput(input)
  {
    BlankIff(input.sessionID);
    BlankIff(input.stage);
    BlankIff(input.scaleID);
    BlankIff(input.algorithmVersion);
    BlankIff(input.slope);
    BlankIff(input.plate);
  }

  /** A transport the reading may close: at the branch of the reading's scale, and the one
      named or, when none is, an OPEN one of the truck with the plate. */
  predicate Serves(cat: Catalog, db: Database, input: Input, t: Id) {
    && t in db.transports
    && db.transports[t].truckID in cat.trucks && db.transports[t].grainTypeID in cat.inventoryTargets
    && input.scaleID in cat.scales && cat.scales[input.scaleID].branchID == db.transports[t].branchID
    && (input.transportID != "" ==> t == input.transportID)
    && (input.transportID == "" ==>
          cat.trucks[db.transports[t].truckID].plate == input.plate && db.transports[t].status == OPEN)
  }

  lemma ServesIff(cat: Catalog, db: Database, input: Input, t: Id)
    ensures Serves(cat, db, input, t) <==> Matches(cat, db, input, t)
  {
  }

  function TareOf(cat: Catalog, db: Database, t: Id): int
    requires t in db.transports && db.transports[t].truckID in cat.trucks
  {
    cat.trucks[db.transports[t].truckID].tareWeightGrams
  }

  ghost predicate HasEventRow(db: Database, input: Input) {
    input.eventID != "" && exists i :: 0 <= i < |db.weighings| && db.weighings[i].eventID == input.eventID
  }

  ghost predicate HasSessionRow(db: Database, input: Input) {
    exists i :: 0 <= i < |db.weighings| && db.weighings[i].sessionID == input.sessionID
                && db.weighings[i].stage == input.stage
  }

  /** The margin in basis points falls from 2000 by 1500 times the filled part of the
      target, rounded down, and stays at 500 once the target is reached. */
  predicate IsMargin(margin: int, stock: int, target: int) {
    && (0 <= stock <= target ==> target * (2000 - margin) <= 1500 * stock < target * (2001 - margin))
    && (stock >= target ==> margin == 500)
  }

  lemma FilledQuotient(i: int, t: int)
    requires 0 <= i <= t && t > 0
    ensures 0 <= (1500 * i) / t <= 1500
    ensures t * ((1500 * i) / t) <= 1500 * i < t * ((1500 * i) / t) + t
  {
    var q, r := (1500 * i) / t, (1500 * i) % t;
    assert 1500 * i == t * q + r;
    QuotientAtMost(t, q, i);
  }

  lemma QuotientAtMost(t: int, q: int, i: int)
    requires 0 <= i <= t && t > 0 && t * q <= 1500 * i
    ensures q <= 1500
  {
    Scale(t, 1501, q);
  }

  lemma MarginIs(stock: int, target: Target)
    requires stock >= 0
    ensures IsMargin(Margin(stock, target), stock, target)
  {
    if stock <= target {
      FilledQuotient(stock, target);
      MarginInequalities(stock, target, (1500 * stock) / target);
    }
    if stock >= target {
      DivideMultiple(1500, target);
    }
  }

  lemma MarginInequalities(i: int, t: int, q: int)
    requires t * q <= 1500 * i < t * q + t
    ensures t * (2000 - (2000 - q)) <= 1500 * i < t * (2001 - (2000 - q))
  {
    assert t * (q + 1) == t * q + t;
  }

  /** Half a minor unit at most from price times tons, ties up. */
  predicate IsCost(cost: int, net: int, price: int) {
    -GRAMS_PER_METRIC_TON <= 2 * (net * price - cost * GRAMS_PER_METRIC_TON) < GRAMS_PER_METRIC_TON
  }

  /** w is the weighing of the input on an OPEN transport that serves it, with every field
      from the input, the transport and the registrations, and the amounts they call for;
      stock is the inventory with this load. */
  ghost predicate IsRowFor(cat: Catalog, db: Database, input: Input, id: Id, w: Weighing, stock: int) {
    var t := w.transportID;
    && Serves(cat, db, input, t) && db.transports[t].status == OPEN
    && w.id == id && w.sessionID == input.sessionID && w.stage == input.stage && w.eventID == input.eventID
    && w.branchID == cat.scales[input.scaleID].branchID == db.transports[t].branchID
    && w.scaleID == cat.scales[input.scaleID].id && w.grainTypeID == db.transports[t].grainTypeID
    && w.grossWeightGrams == input.grossWeightGrams && w.tareWeightGrams == TareOf(cat, db, t)
    && w.netWeightGrams == w.grossWeightGrams - w.tareWeightGrams > 0
    && w.purchasePriceMinor == db.transports[t].purchasePriceMinor
    && IsCost(w.loadCostMinor, w.netWeightGrams, w.purchasePriceMinor)
    && IsMargin(w.appliedMarginBPS, stock, cat.inventoryTargets[w.grainTypeID])
    && w.algorithmVersion == input.algorithmVersion && w.sampleCount == input.sampleCount
    && w.dispersionGrams == input.dispersionGrams && w.slope == input.slope && w.weighedAt == input.weighedAt
  }

  /** db' is db with the row added, its transport WEIGHED, and its inventory, and only that,
      raised to stock. */
  ghost predicate IsWritten(db: Database, db': Database, w: Weighing, stock: int) {
    && w.transportID in db.transports
    && db'.weighings == db.weighings + [w]
    && db'.transports == db.transports[w.transportID := db.transports[w.transportID].(status := WEIGHED)]
    && db'.inventory == db.inventory[w.Stock() := stock]
    && stock == SumNet(db'.weighings, w.Stock())
  }

  /** The answer to an input and what it leaves, in all cases. */
  ghost predicate IsAnswer(cat: Catalog, db: Database, input: Input, id: Id, db': Database, outcome: Outcome) {
    var recorded := HasEventRow(db, input) || HasSessionRow(db, input);
    && (outcome.Success? <==>
          !IsInvalid(input)
          && (recorded || exists t :: Serves(cat, db, input, t) && db.transports[t].status == OPEN
                                      && input.grossWeightGrams > TareOf(cat, db, t)))
    && (outcome == ErrValidation <==>
          IsInvalid(input)
          || (!recorded && exists t :: Serves(cat, db, input, t) && db.transports[t].status == OPEN
                                       && input.grossWeightGrams <= TareOf(cat, db, t)))
    && (outcome == ErrNotFound <==> !IsInvalid(input) && !recorded && forall t :: !Serves(cat, db, input, t))
    && (outcome == ErrConflict <==>
          !IsInvalid(input) && !recorded && exists t :: Serves(cat, db, input, t) && db.transports[t].status != OPEN)
    && (!outcome.Success? ==> db' == db)
    && (outcome.Success? && recorded ==>
          && db' == db && outcome.weighing in db.weighings
          && if HasEventRow(db, input) then outcome.weighing.eventID == input.eventID
             else outcome.weighing.sessionID == input.sessionID && outcome.weighing.stage == input.stage)
    && (outcome.Success? && !recorded ==>
          exists stock :: IsRowFor(cat, db, input, id, outcome.weighing, stock)
                          && IsWritten(db, db', outcome.weighing, stock))
  }

  lemma RecordedIff(db: Database, input: Input)
    ensures FindExisting(db, input).Some? <==> HasEventRow(db, input) || HasSessionRow(db, input)
    ensures FindExisting(db, input).Some? ==>
      var w := FindExisting(db, input).value;
      if HasEventRow(db, input) then w.eventID == input.eventID
      else w.sessionID == input.sessionID && w.stage == input.stage
  {
    var byEvent := FindByEvent(db.weighings, input.eventID);
    var bySession := FindBySession(db.weighings, input.sessionID, input.stage);
    if byEvent.Some? {
      var i :| 0 <= i < |db.weighings| && db.weighings[i] == byEvent.value;
      assert db.weighings[i].eventID == input.eventID;
    }
    if bySession.Some? {
      var i :| 0 <= i < |db.weighings| && db.weighings[i] == bySession.value;
      assert db.weighings[i].sessionID == input.sessionID;
    }
  }

  lemma NewRowIs(cat: Catalog, db: Database, input: Input, id: Id, t: Id)
    requires cat.Valid() && Sound(cat, db) && Ready(cat, db, input, t)
    ensures IsRowFor(cat, db, input, id, NewRow(cat, db, input, id, t), NewStock(cat, db, input, t))
    ensures IsWritten(db, Conservation.Recorded(cat, db, input, id, t), NewRow(cat, db, input, id, t),
                      NewStock(cat, db, input, t))
  {
    StockNonNegative(cat, db, NewRow(cat, db, input, id, t).Stock());
    RowIs(cat, db, input, id, t);
    WrittenIs(cat, db, input, id, t);
  }

  lemma RowIs(cat: Catalog, db: Database, input: Input, id: Id, t: Id)
    requires Ready(cat, db, input, t) && NewStock(cat, db, input, t) >= 0
    ensures IsRowFor(cat, db, input, id, NewRow(cat, db, input, id, t), NewStock(cat, db, input, t))
  {
    var w := NewRow(cat, db, input, id, t);
    MarginIs(NewStock(cat, db, input, t), cat.inventoryTargets[w.grainTypeID]);
    RoundQuotientIsNearest(w.netWeightGrams * w.purchasePriceMinor, GRAMS_PER_METRIC_TON);
  }

  lemma WrittenIs(cat: Catalog, db: Database, input: Input, id: Id, t: Id)
    requires Conserved(db) && Ready(cat, db, input, t)
    ensures IsWritten(db, Conservation.Recorded(cat, db, input, id, t), NewRow(cat, db, input, id, t),
                      NewStock(cat, db, input, t))
  {
    var w := NewRow(cat, db, input, id, t);
    SumNetAppend(db.weighings, w, w.Stock());
  }

  lemma InvalidAnswer(cat: Catalog, db: Database, input: Input, id: Id)
    requires cat.Valid() && !ValidInput(input)
    ensures IsAnswer(cat, db, input, id, Finalize(cat, db, input, id).0, Finalize(cat, db, input, id).1)
  {
    InvalidIff(input);
  }

  lemma RecordedAnswer(cat: Catalog, db: Database, input: Input, id: Id)
    requires cat.Valid() && ValidInput(input) && FindExisting(db, input).Some?
    ensures IsAnswer(cat, db, input, id, Finalize(cat, db, input, id).0, Finalize(cat, db, input, id).1)
  {
    InvalidIff(input);
    RecordedIff(db, input);
    FoundIsReturned(cat, db, input, id, FindExisting(db, input).value);
  }

  lemma NoTransportAnswer(cat: Catalog, db: Database, input: Input, id: Id)
    requires cat.Valid() && ValidInput(input) && FindExisting(db, input).None? && FindTransport(cat, db, input).None?
    ensures IsAnswer(cat, db, input, id, Finalize(cat, db, input, id).0, Finalize(cat, db, input, id).1)
  {
    InvalidIff(input);
    RecordedIff(db, input);
    forall t
      ensures !Serves(cat, db, input, t)
    {
      ServesIff(cat, db, input, t);
    }
  }

  /** In a sound database a single transport serves. */
  ghost predicate OnlyServes(cat: Catalog, db: Database, input: Input, t: Id) {
    Serves(cat, db, input, t) && forall u :: Serves(cat, db, input, u) ==> u == t
  }

  lemma FoundOnlyServes(cat: Catalog, db: Database, input: Input)
    requires cat.Valid() && Sound(cat, db) && FindTransport(cat, db, input).Some?
    ensures OnlyServes(cat, db, input, FindTransport(cat, db, input).value)
  {
    var t := FindTransport(cat, db, input).value;
    ServesIff(cat, db, input, t);
    forall u | Serves(cat, db, input, u)
      ensures u == t
    {
      ServesIff(cat, db, input, u);
      MatchIsUnique(cat, db, input, t, u);
    }
  }

  lemma RefusedAnswer(cat: Catalog, db: Database, input: Input, id: Id, t: Id)
    requires cat.Valid() && ValidInput(input) && FindExisting(db, input).None?
    requires FindTransport(cat, db, input) == Some(t) && OnlyServes(cat, db, input, t)
    requires db.transports[t].status != OPEN || input.grossWeightGrams <= TareOf(cat, db, t)
    ensures IsAnswer(cat, db, input, id, Finalize(cat, db, input, id).0, Finalize(cat, db, input, id).1)
  {
    InvalidIff(input);
    RecordedIff(db, input);
  }

  lemma WrittenAnswer(cat: Catalog, db: Database, input: Input, id: Id, t: Id)
    requires cat.Valid() && Sound(cat, db) && ValidInput(input) && FindExisting(db, input).None?
    requires FindTransport(cat, db, input) == Some(t) && OnlyServes(cat, db, input, t)
    requires db.transports[t].status == OPEN && input.grossWeightGrams > TareOf(cat, db, t)
    ensures IsAnswer(cat, db, input, id, Finalize(cat, db, input, id).0, Finalize(cat, db, input, id).1)
  {
    InvalidIff(input);
    RecordedIff(db, input);
    assert Ready(cat, db, input, t);
    ReadyRecords(cat, db, input, id, t);
    NewRowIs(cat, db, input, id, t);
  }

  /** Finalize, for every input and every sound database: which of the five answers, which
      weighing, and the whole new database. */
  lemma FinalizeAnswers(cat: Catalog, db: Database, input: Input, id: Id)
    requires cat.Valid() && Sound(cat, db)
    ensures IsAnswer(cat, db, input, id, Finalize(cat, db, input, id).0, Finalize(cat, db, input, id).1)
  {
    if !ValidInput(input) {
      InvalidAnswer(cat, db, input, id);
    } else if FindExisting(db, input).Some? {
      RecordedAnswer(cat, db, input, id);
    } else if FindTransport(cat, db, input).None? {
      NoTransportAnswer(cat, db, input, id);
    } else {
      var t := FindTransport(cat, db, input).value;
      FoundOnlyServes(cat, db, input);
      if db.transports[t].status != OPEN || input.grossWeightGrams <= TareOf(cat, db, t) {
        RefusedAnswer(cat, db, input, id, t);
      } else {
        WrittenAnswer(cat, db, input, id, t);
      }
    }
  }

  /** An opening adds exactly the given OPEN row, and is refused iff the id is taken or
      empty, a reference is unknown, the price is negative, the row is not OPEN, or the
      truck has an OPEN transport. */
  lemma OpenedIff(cat: Catalog, db: Database, t: Id, row: Transport)
    ensures var db' := OpenTransport(cat, db, t, row);
            && db'.inventory == db.inventory && db'.weighings == db.weighings
            && (db'.transports == db.transports[t := row] || db'.transports == db.transports)
            && (db' != db <==>
                  && t != "" && t !in db.transports
                  && row.truckID in cat.trucks && row.grainTypeID in cat.inventoryTargets
                  && row.purchasePriceMinor >= 0 && row.status == OPEN
                  && forall u :: u in db.transports && db.transports[u].truckID == row.truckID ==>
                       db.transports[u].status != OPEN)
  {
    if OpenTransport(cat, db, t, row) != db {
      assert t in OpenTransport(cat, db, t, row).transports;
    } else if t !in db.transports {
      assert t in db.transports[t := row];
    }
  }

  /** A cancellation makes exactly an OPEN transport CANCELLED. */
  lemma CancelledIff(db: Database, t: Id)
    ensures var db' := CancelTransport(db, t);
            && db'.inventory == db.inventory && db'.weighings == db.weighings
            && db'.transports.Keys == db.transports.Keys
            && (forall u :: u in db.transports && u != t ==> db'.transports[u] == db.transports[u])
            && (t in db.transports ==>
                  db'.transports[t]
                  == db.transports[t].(status := if db.transports[t].status == OPEN then CANCELLED
                                                 else db.transports[t].status))
  {
  }
}
