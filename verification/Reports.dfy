/** The finalized-weighing report: its grouped aggregate, the totals accumulated from the
    groups, and how they agree with the ledger. */
module Reports {
  import opened Arithmetic
  import opened Window
  import opened Keys
  import opened Finalizing
  import opened Conservation
  import opened Processing

  /** Blank texts and None do not filter; space around a text is not part of it. */
  datatype Filter = Filter(branchID: Id, grainTypeID: Id, start: Option<Time>, end: Option<Time>)

  const EVERYTHING := Filter("", "", None, None)

  /** One row of the grouped aggregate, or the totals. */
  datatype Row = Row(
    netWeightGrams: int,
    totalCostMinor: int,
    averagePurchasePrice: int,
    averageAppliedMarginBPS: int,
    completedTransportCount: int,
    purchasePriceSum: int,
    appliedMarginSum: int)

  datatype Report = Report(totals: Row, items: seq<Row>)

  predicate Selects(db: Database, filter: Filter, w: Weighing) {
    && w.stage == FINAL_STAGE
    && w.transportID in db.transports && db.transports[w.transportID].status == WEIGHED
    && (TrimSpace(filter.branchID) == "" || w.branchID == TrimSpace(filter.branchID))
    && (TrimSpace(filter.grainTypeID) == "" || w.grainTypeID == TrimSpace(filter.grainTypeID))
    && (filter.start.None? || w.weighedAt >= filter.start.value)
    && (filter.end.None? || w.weighedAt <= filter.end.value)
  }

  /** The rows the WHERE keeps. */
  function Selected(db: Database, filter: Filter, ws: seq<Weighing>): seq<Weighing>
    decreases |ws|
  {
    if ws == [] then []
    else
      Selected(db, filter, ws[..|ws| - 1])
      + (if Selects(db, filter, ws[|ws| - 1]) then [ws[|ws| - 1]] else [])
  }

  function NetOf(w: Weighing): int { w.netWeightGrams }
  function CostOf(w: Weighing): int { w.loadCostMinor }
  function PriceOf(w: Weighing): int { w.purchasePriceMinor }
  function MarginOf(w: Weighing): int { w.appliedMarginBPS }
  function One(w: Weighing): int { 1 }

  /** SUM over all rows. */
  function Sum(ws: seq<Weighing>, f: Weighing -> int): int
    decreases |ws|
  {
    if ws == [] then 0 else Sum(ws[..|ws| - 1], f) + f(ws[|ws| - 1])
  }

  /** SUM over the rows of one group. */
  function GroupSum(ws: seq<Weighing>, k: StockKey, f: Weighing -> int): int
    decreases |ws|
  {
    if ws == [] then 0
    else GroupSum(ws[..|ws| - 1], k, f) + if ws[|ws| - 1].Stock() == k then f(ws[|ws| - 1]) else 0
  }

  /** The sums of the listed groups, added up. */
  function SumOfGroups(ws: seq<Weighing>, order: seq<StockKey>, f: Weighing -> int): int
    decreases |order|
  {
    if order == [] then 0
    else SumOfGroups(ws, order[..|order| - 1], f) + GroupSum(ws, order[|order| - 1], f)
  }

  ghost predicate Distinct(order: seq<StockKey>) {
    forall i, j :: 0 <= i < j < |order| ==> order[i] != order[j]
  }

  /** order has every group of ws, once. */
  ghost predicate Groups(ws: seq<Weighing>, order: seq<StockKey>) {
    Distinct(order) && forall i :: 0 <= i < |ws| ==> ws[i].Stock() in order
  }

  lemma {:induction false} NoGroupsNoSum(order: seq<StockKey>, f: Weighing -> int)
    ensures SumOfGroups([], order, f) == 0
    decreases |order|
  {
    if order != [] {
      NoGroupsNoSum(order[..|order| - 1], f);
    }
  }

  lemma {:induction false} OneMoreRow(ws: seq<Weighing>, order: seq<StockKey>, f: Weighing -> int)
    requires ws != [] && Distinct(order)
    ensures var w := ws[|ws| - 1];
            SumOfGroups(ws, order, f)
            == SumOfGroups(ws[..|ws| - 1], order, f) + if w.Stock() in order then f(w) else 0
    decreases |order|
  {
    if order != [] {
      OneMoreRow(ws, order[..|order| - 1], f);
      assert order == order[..|order| - 1] + [order[|order| - 1]];
    }
  }

  /** Adding up the groups is adding up all rows. */
  lemma {:induction false} GroupsAddUp(ws: seq<Weighing>, order: seq<StockKey>, f: Weighing -> int)
    requires Groups(ws, order)
    ensures SumOfGroups(ws, order, f) == Sum(ws, f)
    decreases |ws|
  {
    if ws == [] {
      NoGroupsNoSum(order, f);
    } else {
      GroupsAddUp(ws[..|ws| - 1], order, f);
      OneMoreRow(ws, order, f);
      assert ws[|ws| - 1].Stock() in order;
    }
  }

  /** COALESCE(ROUND(AVG(x)), 0). */
  function RoundedAverage(sum: int, count: int): int {
    if count <= 0 then 0 else RoundQuotient(sum, count)
  }

  /** Go's (sum + count/2) / count on amounts that are not negative is the same rounding. */
  lemma HalfUpIsRound(sum: int, count: int)
    requires count > 0 && sum >= 0
    ensures (sum + count / 2) / count == RoundQuotient(sum, count)
  {
    var q, r := (sum + count / 2) / count, (sum + count / 2) % count;
    assert sum + count / 2 == count * q + r;
    var h := count / 2;
    var odd := count % 2;
    assert 2 * sum + count == (2 * count) * q + (2 * r + odd) by {
      Reorder(2, count, q);
    }
    QuotientOf(2 * sum + count, 2 * count, q, 2 * r + odd);
  }

  lemma QuotientOf(m: int, d: int, q: int, r: int)
    requires d > 0 && m == d * q + r && 0 <= r < d
    ensures m / d == q
  {
    var p := m / d;
    assert m == d * p + m % d;
    if p > q {
      ScaleDifference(d, p - q);
    } else if p < q {
      ScaleDifference(d, q - p);
    }
  }

  /** The aggregate of one group. */
  function GroupRow(ws: seq<Weighing>, k: StockKey): Row {
    var n := GroupSum(ws, k, One);
    Row(GroupSum(ws, k, NetOf), GroupSum(ws, k, CostOf), RoundedAverage(GroupSum(ws, k, PriceOf), n),
        RoundedAverage(GroupSum(ws, k, MarginOf), n), n, GroupSum(ws, k, PriceOf), GroupSum(ws, k, MarginOf))
  }

  /** The same aggregate over all rows, without grouping. The two unexported sums of the
      totals stay zero. */
  function UngroupedRow(ws: seq<Weighing>): Row {
    Row(Sum(ws, NetOf), Sum(ws, CostOf), RoundedAverage(Sum(ws, PriceOf), Sum(ws, One)),
        RoundedAverage(Sum(ws, MarginOf), Sum(ws, One)), Sum(ws, One), 0, 0)
  }

  lemma {:induction false} SumNonNegative(ws: seq<Weighing>, f: Weighing -> int)
    requires forall i :: 0 <= i < |ws| ==> f(ws[i]) >= 0
    ensures Sum(ws, f) >= 0
    decreases |ws|
  {
    if ws != [] {
      SumNonNegative(ws[..|ws| - 1], f);
    }
  }

  /** What a filter asks for: FINAL weighings of WEIGHED transports, of the branch and of the
      grain if one is given, and not before the start nor after the end if one is given. */
  predicate IsWanted(db: Database, filter: Filter, w: Weighing) {
    && w.stage == "FINAL"
    && w.transportID in db.transports && db.transports[w.transportID].status == WEIGHED
    && (!IsBlank(filter.branchID) ==> w.branchID == TrimSpace(filter.branchID))
    && (!IsBlank(filter.grainTypeID) ==> w.grainTypeID == TrimSpace(filter.grainTypeID))
    && (filter.start.Some? ==> filter.start.value <= w.weighedAt)
    && (filter.end.Some? ==> w.weighedAt <= filter.end.value)
  }

  lemma WantedIff(db: Database, filter: Filter, w: Weighing)
    ensures Selects(db, filter, w) <==> IsWanted(db, filter, w)
  {
    BlankIff(filter.branchID);
    BlankIff(filter.grainTypeID);
  }

  /** at lists, in increasing order, the positions in ws of the rows that selected holds. */
  ghost predicate ArePositions(ws: seq<Weighing>, selected: seq<Weighing>, at: seq<int>) {
    && |at| == |selected|
    && (forall i :: 0 <= i < |at| ==> 0 <= at[i] < |ws| && selected[i] == ws[at[i]])
    && (forall i, j :: 0 <= i < j < |at| ==> at[i] < at[j])
  }

  /** selected are the rows of ws that the filter asks for, each as often as ws has it and in
      the order of ws. */
  ghost predicate IsSelection(db: Database, filter: Filter, ws: seq<Weighing>, selected: seq<Weighing>, at: seq<int>) {
    && ArePositions(ws, selected, at)
    && forall p :: 0 <= p < |ws| ==> (p in at <==> IsWanted(db, filter, ws[p]))
  }

  lemma {:induction false} SelectedIs(db: Database, filter: Filter, ws: seq<Weighing>) returns (at: seq<int>)
    ensures IsSelection(db, filter, ws, Selected(db, filter, ws), at)
    decreases |ws|
  {
    at := [];
    if ws != [] {
      var front, w := ws[..|ws| - 1], ws[|ws| - 1];
      at := SelectedIs(db, filter, front);
      WantedIff(db, filter, w);
      assert ws == front + [w];
      if IsWanted(db, filter, w) {
        WantedJoins(db, filter, front, w, Selected(db, filter, front), at);
        at := at + [|front|];
      } else {
        UnwantedStaysOut(db, filter, front, w, Selected(db, filter, front), at);
        assert Selected(db, filter, ws) == Selected(db, filter, front);
      }
    }
  }

  lemma WantedJoins(db: Database, filter: Filter, ws: seq<Weighing>, w: Weighing, selected: seq<Weighing>, at: seq<int>)
    requires IsSelection(db, filter, ws, selected, at) && IsWanted(db, filter, w)
    ensures IsSelection(db, filter, ws + [w], selected + [w], at + [|ws|])
  {
    var us := ws + [w];
    assert forall p :: 0 <= p < |us| ==> us[p] == if p < |ws| then ws[p] else w;
    assert forall p :: p in at + [|ws|] <==> p in at || p == |ws|;
  }

  lemma UnwantedStaysOut(db: Database, filter: Filter, ws: seq<Weighing>, w: Weighing, selected: seq<Weighing>,
                         at: seq<int>)
    requires IsSelection(db, filter, ws, selected, at) && !IsWanted(db, filter, w)
    ensures IsSelection(db, filter, ws + [w], selected, at)
  {
    var us := ws + [w];
    assert forall p :: 0 <= p < |us| ==> us[p] == if p < |ws| then ws[p] else w;
    assert |ws| !in at;
  }

  lemma {:induction false} SelectedAreRows(db: Database, filter: Filter, ws: seq<Weighing>)
    ensures forall w :: w in Selected(db, filter, ws) ==> w in ws
    decreases |ws|
  {
    if ws != [] {
      SelectedAreRows(db, filter, ws[..|ws| - 1]);
      assert ws == ws[..|ws| - 1] + [ws[|ws| - 1]];
    }
  }

  /** What the averages need: no negative price or margin. */
  ghost predicate Averageable(ws: seq<Weighing>) {
    forall i :: 0 <= i < |ws| ==> PriceOf(ws[i]) >= 0 && MarginOf(ws[i]) >= 0
  }

  lemma SoundIsAverageable(cat: Catalog, db: Database, filter: Filter)
    requires RowsSound(cat, db.weighings)
    ensures Averageable(Selected(db, filter, db.weighings))
  {
    var ws := Selected(db, filter, db.weighings);
    SelectedAreRows(db, filter, db.weighings);
    forall i | 0 <= i < |ws|
      ensures PriceOf(ws[i]) >= 0 && MarginOf(ws[i]) >= 0
    {
      assert ws[i] in ws;
      var j :| 0 <= j < |db.weighings| && db.weighings[j] == ws[i];
      RowSoundAt(cat, db.weighings, j);
    }
  }

  /** The accumulation in Query, over the groups the database returns in their order. */
  method Accumulate(ws: seq<Weighing>, order: seq<StockKey>) returns (result: Report)
    requires Groups(ws, order) && Averageable(ws)
    ensures |result.items| == |order|
    ensures forall i :: 0 <= i < |order| ==> result.items[i] == GroupRow(ws, order[i])
    ensures result.totals == UngroupedRow(ws)
  {
    var items: seq<Row> := [];
    var net, cost, count := 0, 0, 0;
    for i := 0 to |order|
      invariant |items| == i && forall j :: 0 <= j < i ==> items[j] == GroupRow(ws, order[j])
      invariant net == SumOfGroups(ws, order[..i], NetOf) && cost == SumOfGroups(ws, order[..i], CostOf)
      invariant count == SumOfGroups(ws, order[..i], One)
    {
      var row := GroupRow(ws, order[i]);
      assert order[..i + 1][..i] == order[..i];
      items := items + [row];
      net := net + row.netWeightGrams;
      cost := cost + row.totalCostMinor;
      count := count + row.completedTransportCount;
    }
    assert order[..|order|] == order;
    GroupsAddUp(ws, order, NetOf);
    GroupsAddUp(ws, order, CostOf);
    GroupsAddUp(ws, order, One);
    var averagePrice, averageMargin := 0, 0;
    if count > 0 {
      averagePrice, averageMargin := Averages(ws, order, items, count);
    }
    result := Report(Row(net, cost, averagePrice, averageMargin, count, 0, 0), items);
  }

  /** The averages of the totals, from the sums of the groups. */
  method Averages(ws: seq<Weighing>, order: seq<StockKey>, items: seq<Row>, count: int) returns (price: int,
                  margin: int)
    requires Groups(ws, order) && Averageable(ws) && count == Sum(ws, One) > 0
    requires |items| == |order| && forall i :: 0 <= i < |order| ==> items[i] == GroupRow(ws, order[i])
    ensures price == RoundedAverage(Sum(ws, PriceOf), Sum(ws, One))
    ensures margin == RoundedAverage(Sum(ws, MarginOf), Sum(ws, One))
  {
    var priceSum, marginSum := 0, 0;
    for i := 0 to |items|
      invariant priceSum == SumOfGroups(ws, order[..i], PriceOf)
      invariant marginSum == SumOfGroups(ws, order[..i], MarginOf)
    {
      assert order[..i + 1][..i] == order[..i];
      priceSum := priceSum + items[i].purchasePriceSum;
      marginSum := marginSum + items[i].appliedMarginSum;
    }
    assert order[..|order|] == order;
    GroupsAddUp(ws, order, PriceOf);
    GroupsAddUp(ws, order, MarginOf);
    SumNonNegative(ws, PriceOf);
    SumNonNegative(ws, MarginOf);
    HalfUpIsRound(priceSum, count);
    HalfUpIsRound(marginSum, count);
    price := (priceSum + count / 2) / count;
    margin := (marginSum + count / 2) / count;
  }

  /** Query: None is the validation error. The totals are the ungrouped aggregate of the
      filtered rows. */
  method Query(cat: Catalog, db: Database, filter: Filter, order: seq<StockKey>)
    returns (result: Option<Report>, ghost selected: seq<Weighing>, ghost at: seq<int>)
    requires Sound(cat, db) && Groups(Selected(db, filter, db.weighings), order)
    ensures selected == Selected(db, filter, db.weighings) && IsSelection(db, filter, db.weighings, selected, at)
    ensures result.None? <==> filter.start.Some? && filter.end.Some? && filter.start.value > filter.end.value
    ensures result.Some? ==>
      && result.value.totals == UngroupedRow(selected)
      && |result.value.items| == |order|
      && forall i :: 0 <= i < |order| ==> result.value.items[i] == GroupRow(selected, order[i])
  {
    selected := Selected(db, filter, db.weighings);
    at := SelectedIs(db, filter, db.weighings);
    if filter.start.Some? && filter.end.Some? && filter.start.value > filter.end.value {
      return None, selected, at;
    }
    SoundIsAverageable(cat, db, filter);
    var report := Accumulate(Selected(db, filter, db.weighings), order);
    return Some(report), selected, at;
  }

  lemma {:induction false} CountIsLength(ws: seq<Weighing>)
    ensures Sum(ws, One) == |ws|
    decreases |ws|
  {
    if ws != [] {
      CountIsLength(ws[..|ws| - 1]);
    }
  }

  /** The columns added up. */
  lemma ColumnsAre(w: Weighing)
    ensures NetOf(w) == w.netWeightGrams && CostOf(w) == w.loadCostMinor
    ensures PriceOf(w) == w.purchasePriceMinor && MarginOf(w) == w.appliedMarginBPS
  {
  }

  /** The totals of some rows: sums of the columns, as many transports as rows, and averages
      within half a unit of the exact ones, ties up; all zero without rows. */
  lemma TotalsAre(ws: seq<Weighing>)
    ensures var t := UngroupedRow(ws);
            && t.netWeightGrams == Sum(ws, NetOf) && t.totalCostMinor == Sum(ws, CostOf)
            && t.completedTransportCount == |ws|
            && (ws != [] ==>
                  && -|ws| <= 2 * (Sum(ws, PriceOf) - t.averagePurchasePrice * |ws|) < |ws|
                  && -|ws| <= 2 * (Sum(ws, MarginOf) - t.averageAppliedMarginBPS * |ws|) < |ws|)
            && (ws == [] ==> t.averagePurchasePrice == 0 && t.averageAppliedMarginBPS == 0)
  {
    CountIsLength(ws);
    if ws != [] {
      RoundQuotientIsNearest(Sum(ws, PriceOf), |ws|);
      RoundQuotientIsNearest(Sum(ws, MarginOf), |ws|);
    }
  }

  /** The rows of one group, in their order. */
  function OfGroup(ws: seq<Weighing>, k: StockKey): seq<Weighing>
    decreases |ws|
  {
    if ws == [] then []
    else OfGroup(ws[..|ws| - 1], k) + (if ws[|ws| - 1].Stock() == k then [ws[|ws| - 1]] else [])
  }

  lemma {:induction false} GroupSumIs(ws: seq<Weighing>, k: StockKey, f: Weighing -> int)
    ensures GroupSum(ws, k, f) == Sum(OfGroup(ws, k), f)
    decreases |ws|
  {
    if ws != [] {
      GroupSumIs(ws[..|ws| - 1], k, f);
      var front, last := OfGroup(ws[..|ws| - 1], k), ws[|ws| - 1];
      if last.Stock() == k {
        assert (front + [last])[..|front|] == front;
      } else {
        assert OfGroup(ws, k) == front;
      }
    }
  }

  /** A group is reported like the totals of its rows alone. */
  lemma GroupIsTotals(ws: seq<Weighing>, k: StockKey)
    ensures var g, t := GroupRow(ws, k), UngroupedRow(OfGroup(ws, k));
            && g.(purchasePriceSum := 0, appliedMarginSum := 0) == t
            && g.purchasePriceSum == Sum(OfGroup(ws, k), PriceOf)
            && g.appliedMarginSum == Sum(OfGroup(ws, k), MarginOf)
  {
    GroupSumIs(ws, k, NetOf);
    GroupSumIs(ws, k, CostOf);
    GroupSumIs(ws, k, PriceOf);
    GroupSumIs(ws, k, MarginOf);
    GroupSumIs(ws, k, One);
  }

  lemma {:induction false} AllSelected(db: Database, ws: seq<Weighing>)
    requires forall i :: 0 <= i < |ws| ==> Selects(db, EVERYTHING, ws[i])
    ensures Selected(db, EVERYTHING, ws) == ws
    decreases |ws|
  {
    if ws != [] {
      AllSelected(db, ws[..|ws| - 1]);
      assert ws == ws[..|ws| - 1] + [ws[|ws| - 1]];
    }
  }

  lemma {:induction false} GroupNetIsSumNet(ws: seq<Weighing>, k: StockKey)
    ensures GroupSum(ws, k, NetOf) == SumNet(ws, k)
    decreases |ws|
  {
    if ws != [] {
      GroupNetIsSumNet(ws[..|ws| - 1], k);
    }
  }

  /** The listed inventories, added up. */
  function TotalStock(db: Database, keys: seq<StockKey>): int
    decreases |keys|
  {
    if keys == [] then 0 else TotalStock(db, keys[..|keys| - 1]) + StockOf(db, keys[|keys| - 1])
  }

  lemma {:induction false} StockIsGroups(db: Database, keys: seq<StockKey>)
    requires Conserved(db)
    ensures TotalStock(db, keys) == SumOfGroups(db.weighings, keys, NetOf)
    decreases |keys|
  {
    if keys != [] {
      StockIsGroups(db, keys[..|keys| - 1]);
      GroupNetIsSumNet(db.weighings, keys[|keys| - 1]);
    }
  }

  lemma WeighedIsInStock(cat: Catalog, db: Database, i: nat)
    requires Conserved(db) && RowsSound(cat, db.weighings) && i < |db.weighings|
    ensures db.weighings[i].Stock() in db.inventory
  {
    var ws, k := db.weighings, db.weighings[i].Stock();
    NetsPositive(cat, ws);
    PrefixSumNetGrows(ws, k, i + 1, |ws|);
    assert ws[..i + 1] == ws[..i] + [ws[i]] && ws[..|ws|] == ws;
    SumNetAppend(ws[..i], ws[i], k);
    SumNetNonNegative(ws[..i], k);
  }

  /** When every weighing is of the stage the worker writes, the unfiltered net total is
      the sum of all inventories. */
  lemma NetTotalIsAllStock(cat: Catalog, db: Database, keys: seq<StockKey>)
    requires Sound(cat, db) && Distinct(keys) && forall k :: k in keys <==> k in db.inventory
    requires forall i :: 0 <= i < |db.weighings| ==> db.weighings[i].stage == FINAL_STAGE
    ensures UngroupedRow(Selected(db, EVERYTHING, db.weighings)).netWeightGrams == TotalStock(db, keys)
  {
    AllSelected(db, db.weighings);
    forall i | 0 <= i < |db.weighings|
      ensures db.weighings[i].Stock() in keys
    {
      WeighedIsInStock(cat, db, i);
    }
    GroupsAddUp(db.weighings, keys, NetOf);
    StockIsGroups(db, keys);
  }

  /** The exact cost of a row, in units of 1e-9 of the minor currency. */
  function ExactCost(w: Weighing): int { w.netWeightGrams * w.purchasePriceMinor }

  lemma {:induction false} CostsRoundEach(ws: seq<Weighing>)
    requires forall i :: 0 <= i < |ws| ==> ws[i].loadCostMinor == LoadCost(ws[i].netWeightGrams, ws[i].purchasePriceMinor)
    ensures var error := Sum(ws, CostOf) * GRAMS_PER_METRIC_TON - Sum(ws, ExactCost);
            -(Sum(ws, One) * 500_000_000) <= error <= Sum(ws, One) * 500_000_000
    decreases |ws|
  {
    if ws != [] {
      var w := ws[|ws| - 1];
      CostsRoundEach(ws[..|ws| - 1]);
      RoundQuotientIsNearest(w.netWeightGrams * w.purchasePriceMinor, GRAMS_PER_METRIC_TON);
    }
  }

  /** The total cost is within half a minor unit per row of the exact one. */
  lemma CostTotalIsClose(cat: Catalog, db: Database, filter: Filter)
    requires Sound(cat, db)
    ensures var ws := Selected(db, filter, db.weighings);
            var totals := UngroupedRow(ws);
            var error := totals.totalCostMinor * GRAMS_PER_METRIC_TON - Sum(ws, ExactCost);
            && -(totals.completedTransportCount * 500_000_000) <= error
            && error <= totals.completedTransportCount * 500_000_000
  {
    var ws := Selected(db, filter, db.weighings);
    SelectedAreRows(db, filter, db.weighings);
    forall i | 0 <= i < |ws|
      ensures ws[i].loadCostMinor == LoadCost(ws[i].netWeightGrams, ws[i].purchasePriceMinor)
    {
      assert ws[i] in ws;
      var j :| 0 <= j < |db.weighings| && db.weighings[j] == ws[i];
      RowSoundAt(cat, db.weighings, j);
    }
    CostsRoundEach(ws);
  }
}
