/** The weighing ledger in PostgreSQL: rows, formulas, and finalization, opening and
    cancelling as operations that run one at a time. Transactions.dfy interleaves them. */
module Finalizing {
  import opened Arithmetic
  import opened Window
  import opened Keys

  type Id = string

  const GRAMS_PER_METRIC_TON: int := 1_000_000_000

  datatype Status = OPEN | CANCELLED | WEIGHED

  /** grain_types_inventory_target_positive. */
  type Target = x: int | 0 < x witness 1

  datatype Truck = Truck(plate: string, tareWeightGrams: int)

  datatype ScaleRow = ScaleRow(id: Id, branchID: Id)

  /** The registration rows finalization reads; they do not change here. Scales are
      listed by their external scale_id. */
  datatype Catalog = Catalog(trucks: map<Id, Truck>, inventoryTargets: map<Id, Target>, scales: map<string, ScaleRow>)
  {
    ghost predicate Valid() {
      && (forall t :: t in trucks ==> trucks[t].tareWeightGrams > 0)
      && (forall t, u :: t in trucks && u in trucks && trucks[t].plate == trucks[u].plate ==> t == u)
    }
  }

  datatype Transport = Transport(branchID: Id, truckID: Id, grainTypeID: Id, status: Status, purchasePriceMinor: int)

  datatype StockKey = StockKey(branchID: Id, grainTypeID: Id)

  /** EventID and TransportTransactionID are optional: "" when absent. */
  datatype Input = Input(
    sessionID: string,
    stage: string,
    eventID: string,
    transportID: string,
    scaleID: string,
    plate: string,
    grossWeightGrams: int,
    algorithmVersion: string,
    sampleCount: int,
    dispersionGrams: int,
    slope: string,
    weighedAt: Time)

  /** A row of weighings; eventID "" is NULL. */
  datatype Weighing = Weighing(
    id: Id,
    sessionID: string,
    stage: string,
    eventID: string,
    transportID: Id,
    branchID: Id,
    grainTypeID: Id,
    scaleID: Id,
    grossWeightGrams: int,
    tareWeightGrams: int,
    netWeightGrams: int,
    loadCostMinor: int,
    purchasePriceMinor: int,
    appliedMarginBPS: int,
    algorithmVersion: string,
    sampleCount: int,
    dispersionGrams: int,
    slope: string,
    weighedAt: Time)
  {
    function Stock(): StockKey {
      StockKey(branchID, grainTypeID)
    }
  }

  /** weighings in commit order. */
  datatype Database = Database(transports: map<Id, Transport>, inventory: map<StockKey, int>, weighings: seq<Weighing>)

  datatype Outcome = Success(weighing: Weighing) | ErrValidation | ErrNotFound | ErrConflict

  predicate IsHex(c: char) {
    '0' <= c <= '9' || 'a' <= c <= 'f' || 'A' <= c <= 'F'
  }

  /** The 36-character form of a UUID. */
  predicate IsUuid(s: string) {
    |s| == 36 && forall i :: 0 <= i < 36 ==> if i in {8, 13, 18, 23} then s[i] == '-' else IsHex(s[i])
  }

  /** validate. */
  predicate ValidInput(input: Input) {
    && TrimSpace(input.sessionID) != "" && TrimSpace(input.stage) != "" && TrimSpace(input.scaleID) != ""
    && input.grossWeightGrams > 0 && input.sampleCount > 0 && input.dispersionGrams >= 0
    && TrimSpace(input.algorithmVersion) != "" && TrimSpace(input.slope) != "" && input.weighedAt != 0
    && (input.eventID != "" ==> IsUuid(input.eventID))
    && (input.transportID == "" ==> TrimSpace(input.plate) != "")
  }

  /** ROUND of a non-negative exact quotient: half away from zero. */
  function RoundQuotient(n: int, d: int): (r: int)
    requires d > 0
  {
    (2 * n + d) / (2 * d)
  }

  /** The rounded quotient is within half of the exact one, and a tie rounds up. */
  lemma RoundQuotientIsNearest(n: int, d: int)
    requires d > 0
    ensures -d <= 2 * (n - RoundQuotient(n, d) * d) < d
  {
    var m := 2 * n + d;
    var r := m / (2 * d);
    assert m == (2 * d) * r + m % (2 * d);
    Reorder(2, d, r);
  }

  function LoadCost(net: int, price: int): int {
    RoundQuotient(net * price, GRAMS_PER_METRIC_TON)
  }

  /** The applied margin in basis points for an inventory and its target. */
  function Margin(inventory: int, target: Target): int {
    var filled := if inventory <= target then inventory else target;
    var margin := 2000 - (1500 * filled) / target;
    if margin < 500 then 500 else margin
  }

  lemma MarginRange(inventory: int, target: Target)
    requires inventory >= 0
    ensures 500 <= Margin(inventory, target) <= 2000
  {
  }

  /** More inventory never raises the margin. */
  lemma MarginDecreases(a: int, b: int, target: Target)
    requires a <= b
    ensures Margin(b, target) <= Margin(a, target)
  {
    var x, y := if a <= target then a else target, if b <= target then b else target;
    QuotientMonotone(1500 * x, 1500 * y, target);
  }

  lemma QuotientMonotone(x: int, y: int, d: int)
    requires d > 0 && x <= y
    ensures x / d <= y / d
  {
    var p, q := x / d, y / d;
    assert x == d * p + x % d && y == d * q + y % d;
    if p > q {
      Scale(d, q + 1, p);
    }
  }

  /** The inventory row of a key; absent counts as 0. */
  function StockOf(db: Database, k: StockKey): int {
    if k in db.inventory then db.inventory[k] else 0
  }

  function SumNet(ws: seq<Weighing>, k: StockKey): int {
    if ws == [] then 0
    else
      var w := ws[|ws| - 1];
      SumNet(ws[..|ws| - 1], k) + (if w.Stock() == k then w.netWeightGrams else 0)
  }

  /** getByEvent. */
  function FindByEvent(ws: seq<Weighing>, eventID: string): (r: Option<Weighing>)
    ensures r.Some? ==> r.value in ws && r.value.eventID == eventID
    ensures r.None? ==> forall i :: 0 <= i < |ws| ==> ws[i].eventID != eventID
  {
    if ws == [] then None
    else if ws[|ws| - 1].eventID == eventID then Some(ws[|ws| - 1])
    else FindByEvent(ws[..|ws| - 1], eventID)
  }

  /** getBySession. */
  function FindBySession(ws: seq<Weighing>, sessionID: string, stage: string): (r: Option<Weighing>)
    ensures r.Some? ==> r.value in ws && r.value.sessionID == sessionID && r.value.stage == stage
    ensures r.None? ==> forall i :: 0 <= i < |ws| ==> !(ws[i].sessionID == sessionID && ws[i].stage == stage)
  {
    if ws == [] then None
    else if ws[|ws| - 1].sessionID == sessionID && ws[|ws| - 1].stage == stage then Some(ws[|ws| - 1])
    else FindBySession(ws[..|ws| - 1], sessionID, stage)
  }

  /** The idempotency reads at the head of Finalize, in their order. */
  function FindExisting(db: Database, input: Input): (r: Option<Weighing>)
    ensures r.Some? ==> r.value in db.weighings && IsFor(r.value, input)
    ensures r.None? ==> NoneFor(db.weighings, input)
  {
    var byEvent := if input.eventID == "" then None else FindByEvent(db.weighings, input.eventID);
    if byEvent.Some? then byEvent else FindBySession(db.weighings, input.sessionID, input.stage)
  }

  /** w is the weighing of the input's event or of its session and stage. */
  predicate IsFor(w: Weighing, input: Input) {
    (input.eventID != "" && w.eventID == input.eventID) || (w.sessionID == input.sessionID && w.stage == input.stage)
  }

  ghost predicate NoneFor(ws: seq<Weighing>, input: Input) {
    forall i :: 0 <= i < |ws| ==> !IsFor(ws[i], input)
  }

  /** Transport t with this row satisfies the WHERE and the joins of lockTransport's query. */
  predicate MatchesRow(cat: Catalog, input: Input, t: Id, row: Transport) {
    && row.truckID in cat.trucks && row.grainTypeID in cat.inventoryTargets
    && input.scaleID in cat.scales && cat.scales[input.scaleID].branchID == row.branchID
    && if input.transportID != "" then t == input.transportID
       else cat.trucks[row.truckID].plate == input.plate && row.status == OPEN
  }

  predicate Matches(cat: Catalog, db: Database, input: Input, t: Id) {
    t in db.transports && MatchesRow(cat, input, t, db.transports[t])
  }

  /** The row lockTransport returns, if any. */
  ghost function FindTransport(cat: Catalog, db: Database, input: Input): (r: Option<Id>)
    ensures r.Some? ==> Matches(cat, db, input, r.value)
    ensures r.None? ==> forall t :: !Matches(cat, db, input, t)
  {
    if exists t :: Matches(cat, db, input, t) then
      var t :| Matches(cat, db, input, t);
      Some(t)
    else None
  }

  /** What the locking query returns. */
  datatype LockedTransport = LockedTransport(
    id: Id,
    status: Status,
    branchID: Id,
    grainTypeID: Id,
    scaleID: Id,
    tareWeightGrams: int,
    purchasePriceMinor: int,
    inventoryTargetGrams: Target)
  {
    function Stock(): StockKey {
      StockKey(branchID, grainTypeID)
    }
  }

  function Lock(cat: Catalog, input: Input, t: Id, row: Transport): LockedTransport
    requires MatchesRow(cat, input, t, row)
  {
    LockedTransport(t, row.status, row.branchID, row.grainTypeID, cat.scales[input.scaleID].id,
                    cat.trucks[row.truckID].tareWeightGrams, row.purchasePriceMinor,
                    cat.inventoryTargets[row.grainTypeID])
  }

  /** The row inserted for a locked transport, given the inventory after the upsert. */
  function NewWeighing(input: Input, id: Id, locked: LockedTransport, inventory: int): Weighing {
    var net := input.grossWeightGrams - locked.tareWeightGrams;
    Weighing(id, input.sessionID, input.stage, input.eventID, locked.id, locked.branchID, locked.grainTypeID,
             locked.scaleID, input.grossWeightGrams, locked.tareWeightGrams, net,
             LoadCost(net, locked.purchasePriceMinor), locked.purchasePriceMinor,
             Margin(inventory, locked.inventoryTargetGrams),
             input.algorithmVersion, input.sampleCount, input.dispersionGrams, input.slope, input.weighedAt)
  }

  /** The three writes of a finalization: inventory, weighing, transport status. */
  function Record(db: Database, w: Weighing, inventory: int): Database
    requires w.transportID in db.transports
  {
    Database(db.transports[w.transportID := db.transports[w.transportID].(status := WEIGHED)],
             db.inventory[w.Stock() := inventory],
             db.weighings + [w])
  }

  /** Finalize, running alone. */
  ghost function Finalize(cat: Catalog, db: Database, input: Input, id: Id): (Database, Outcome)
    requires cat.Valid()
  {
    if !ValidInput(input) then (db, ErrValidation)
    else
      var existing := FindExisting(db, input);
      if existing.Some? then (db, Success(existing.value))
      else
        match FindTransport(cat, db, input)
        case None => (db, ErrNotFound)
        case Some(t) =>
          var locked := Lock(cat, input, t, db.transports[t]);
          if locked.status != OPEN then (db, ErrConflict)
          else if input.grossWeightGrams <= locked.tareWeightGrams then (db, ErrValidation)
          else
            var inventory := StockOf(db, locked.Stock()) + input.grossWeightGrams - locked.tareWeightGrams;
            var w := NewWeighing(input, id, locked, inventory);
            (Record(db, w, inventory), Success(w))
  }

  /** INSERT of an OPEN transport: refused by the partial unique index if the truck
      already has an OPEN one, and by the primary key, the foreign keys and the check. */
  ghost function OpenTransport(cat: Catalog, db: Database, t: Id, row: Transport): Database {
    if t == "" || t in db.transports || row.truckID !in cat.trucks || row.grainTypeID !in cat.inventoryTargets
       || row.purchasePriceMinor < 0 || row.status != OPEN
       || (exists u :: u in db.transports && db.transports[u].truckID == row.truckID && db.transports[u].status == OPEN)
    then db
    else db.(transports := db.transports[t := row])
  }

  /** CancelTransportTransaction: UPDATE ... WHERE status = 'OPEN'. */
  ghost function CancelTransport(db: Database, t: Id): Database {
    if t in db.transports && db.transports[t].status == OPEN
    then db.(transports := db.transports[t := db.transports[t].(status := CANCELLED)])
    else db
  }

  ghost predicate RefsOk(cat: Catalog, db: Database) {
    forall t :: t in db.transports ==>
      db.transports[t].truckID in cat.trucks && db.transports[t].grainTypeID in cat.inventoryTargets
      && db.transports[t].purchasePriceMinor >= 0
  }

  ghost predicate OneOpenPerTruck(db: Database) {
    forall t, u | t in db.transports && u in db.transports && db.transports[t].truckID == db.transports[u].truckID
                  && db.transports[t].status == OPEN && db.transports[u].status == OPEN ::
      t == u
  }

  /** Conservation: every inventory is the sum of the net weights of its weighings. */
  ghost predicate Conserved(db: Database) {
    forall k :: StockOf(db, k) == SumNet(db.weighings, k)
  }

  /** The unique indexes on (session, stage) and on non-null event ids. */
  ghost predicate UniqueKeys(ws: seq<Weighing>) {
    forall i, j :: 0 <= i < j < |ws| ==>
      && !(ws[i].sessionID == ws[j].sessionID && ws[i].stage == ws[j].stage)
      && (ws[i].eventID != "" ==> ws[i].eventID != ws[j].eventID)
  }

  /** WEIGHED transports have exactly one weighing, other transports none. */
  ghost predicate OneWeighingPerTransport(db: Database) {
    && (forall i :: 0 <= i < |db.weighings| ==>
          && db.weighings[i].transportID in db.transports
          && db.transports[db.weighings[i].transportID].status == WEIGHED)
    && (forall i, j :: 0 <= i < j < |db.weighings| ==> db.weighings[i].transportID != db.weighings[j].transportID)
    && (forall t :: t in db.transports && db.transports[t].status == WEIGHED ==>
          exists i :: 0 <= i < |db.weighings| && db.weighings[i].transportID == t)
  }

  /** The CHECK constraints of weighings. btrim removes blanks only. */
  ghost predicate MeetsChecks(w: Weighing) {
    && (exists i :: 0 <= i < |w.sessionID| && w.sessionID[i] != ' ')
    && (exists i :: 0 <= i < |w.stage| && w.stage[i] != ' ')
    && w.grossWeightGrams > 0 && w.tareWeightGrams >= 0 && w.netWeightGrams > 0
    && w.netWeightGrams == w.grossWeightGrams - w.tareWeightGrams
    && w.loadCostMinor >= 0 && w.purchasePriceMinor >= 0
    && 500 <= w.appliedMarginBPS <= 2000
    && w.sampleCount > 0 && w.dispersionGrams >= 0
  }

  /** A row's amounts: constraints met, cost rounded from its price, and the margin of
      the inventory its own load brought about. */
  ghost predicate RowSound(cat: Catalog, w: Weighing, inventory: int) {
    && MeetsChecks(w)
    && w.loadCostMinor == LoadCost(w.netWeightGrams, w.purchasePriceMinor)
    && w.grainTypeID in cat.inventoryTargets
    && w.appliedMarginBPS == Margin(inventory, cat.inventoryTargets[w.grainTypeID])
  }

  ghost predicate RowsSound(cat: Catalog, ws: seq<Weighing>)
    decreases |ws|
  {
    ws == [] ||
    var last := ws[|ws| - 1];
    RowsSound(cat, ws[..|ws| - 1]) && RowSound(cat, last, SumNet(ws, last.Stock()))
  }

  /** What every committed state satisfies. */
  ghost predicate Sound(cat: Catalog, db: Database) {
    && RefsOk(cat, db) && OneOpenPerTruck(db) && Conserved(db)
    && UniqueKeys(db.weighings) && OneWeighingPerTransport(db) && RowsSound(cat, db.weighings)
    && "" !in db.transports
  }

  lemma {:induction false} TrimmedNonEmpty(s: string)
    requires TrimSpace(s) != ""
    ensures exists i :: 0 <= i < |s| && s[i] != ' '
    decreases |s|
  {
    if IsSpace(s[0]) {
      TrimmedNonEmpty(s[1..]);
      var i :| 0 <= i < |s[1..]| && s[1..][i] != ' ';
      assert s[i + 1] != ' ';
    } else if IsSpace(s[|s| - 1]) {
      TrimmedNonEmpty(s[..|s| - 1]);
      var i :| 0 <= i < |s[..|s| - 1]| && s[..|s| - 1][i] != ' ';
      assert s[i] != ' ';
    } else {
      assert s[0] != ' ';
    }
  }

  lemma {:induction false} SumNetNonNegative(ws: seq<Weighing>, k: StockKey)
    requires forall i :: 0 <= i < |ws| ==> ws[i].netWeightGrams > 0
    ensures SumNet(ws, k) >= 0
    decreases |ws|
  {
    if ws != [] {
      SumNetNonNegative(ws[..|ws| - 1], k);
    }
  }

  lemma LoadCostNonNegative(net: int, price: int)
    requires net >= 0 && price >= 0
    ensures LoadCost(net, price) >= 0
  {
    assert net * price >= 0;
  }

  /** Every row a validated finalization tries to insert meets all CHECK constraints. */
  lemma InsertedRowMeetsChecks(input: Input, id: Id, locked: LockedTransport, inventory: int)
    requires ValidInput(input) && locked.purchasePriceMinor >= 0 && inventory >= 0
    requires 0 <= locked.tareWeightGrams < input.grossWeightGrams
    ensures MeetsChecks(NewWeighing(input, id, locked, inventory))
  {
    TrimmedNonEmpty(input.sessionID);
    TrimmedNonEmpty(input.stage);
    MarginRange(inventory, locked.inventoryTargetGrams);
    LoadCostNonNegative(input.grossWeightGrams - locked.tareWeightGrams, locked.purchasePriceMinor);
  }

  /** In a sound state the query finds at most one transport. */
  lemma MatchIsUnique(cat: Catalog, db: Database, input: Input, t: Id, u: Id)
    requires cat.Valid() && Sound(cat, db) && Matches(cat, db, input, t) && Matches(cat, db, input, u)
    ensures t == u
  {
  }
}
