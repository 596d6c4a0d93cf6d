/**
 * The reconciliation engine: for each item named in any of the three maps,
 * what was delivered, less what was used, should be what is in stock.
 */
module Reconciliation {
  import opened Results
  import opened Types
  import opened Ordering

  const NoDeliveryReason: string := "no delivery record"
  const NoInventoryReason: string := "no inventory record"

  /**
   * `reconcileItem`: the delivery is checked first, then the inventory;
   * with both present the item is ok exactly when the count matches the
   * expectation, and a discrepancy otherwise. The arithmetic is exact and
   * nothing is clamped.
   */
  function ReconcileItem(item: string, delivered: Option<FoodQuantity>, used: int, actual: Option<int>): (r: ReconciliationResult)
    ensures r.item == item
    ensures delivered.None? ==> r == Unknown(item, NoDeliveryReason)
    ensures delivered.Some? && delivered.value.Missing? ==> r == Unknown(item, delivered.value.reason)
    ensures delivered.Some? && delivered.value.Valid? && actual.None? ==> r == Unknown(item, NoInventoryReason)
    ensures r.Unknown? <==> delivered.None? || delivered.value.Missing? || actual.None?
    ensures !r.Unknown? ==> r.expected == delivered.value.value - used && r.actual == actual.value
    ensures r.Ok? <==> !r.Unknown? && actual.value == delivered.value.value - used
    ensures r.Discrepancy? ==> r.difference == r.actual - r.expected && r.difference != 0
  {
    if delivered.None? || delivered.value.Missing? then
      var reason := if delivered.Some? && delivered.value.Missing? then delivered.value.reason else NoDeliveryReason;
      Unknown(item, reason)
    else if actual.None? then
      Unknown(item, NoInventoryReason)
    else
      var expected := delivered.value.value - used;
      var difference := actual.value - expected;
      if difference == 0 then Ok(item, expected, actual.value)
      else Discrepancy(item, expected, actual.value, difference)
  }

  /**
   * For an item with complete data the books balance: what was delivered
   * equals what was used plus what is counted, less the difference.
   */
  lemma ReconcileBalances(item: string, delivered: int, used: int, actual: int)
    ensures var r := ReconcileItem(item, Some(Valid(delivered)), used, Some(actual));
            (r.Ok? && delivered == used + actual) || (r.Discrepancy? && delivered == used + actual - r.difference)
  {
  }

  /** Expected stock can be negative: more used than delivered is not clamped. */
  lemma OverUseIsNotClamped(item: string, delivered: nat, used: int)
    requires used > delivered
    ensures ReconcileItem(item, Some(Valid(delivered)), used, Some(0)) == Discrepancy(item, delivered - used, 0, used - delivered)
  {
  }

  /** `collectAllItems`: every key of the three maps, each once. */
  method CollectAllItems(deliveryMap: map<string, FoodQuantity>, usageMap: map<string, int>, inventoryMap: map<string, int>)
    returns (items: set<string>)
    ensures items == deliveryMap.Keys + usageMap.Keys + inventoryMap.Keys
  {
    items := {};
    items := AddKeys(items, deliveryMap.Keys);
    items := AddKeys(items, usageMap.Keys);
    items := AddKeys(items, inventoryMap.Keys);
  }

  /** One `for (const key of map.keys()) items.add(key)` loop. */
  method AddKeys(items0: set<string>, keys0: set<string>) returns (items: set<string>)
    ensures items == items0 + keys0
  {
    items := items0;
    var keys := keys0;
    while keys != {}
      invariant items + keys == items0 + keys0
      decreases |keys|
    {
      var key :| key in keys;
      items := items + {key};
      keys := keys - {key};
    }
  }

  /** The item names of the results, in result order. */
  function ItemsOf(results: seq<ReconciliationResult>): (items: seq<string>)
    ensures |items| == |results|
    ensures forall i :: 0 <= i < |results| ==> items[i] == results[i].item
  {
    seq(|results|, i requires 0 <= i < |results| => results[i].item)
  }

  /** The result `reconcileAll` gives for one item of the three maps; an item nobody used was used 0 times. */
  function ReconcileKey(item: string, deliveryMap: map<string, FoodQuantity>, usageMap: map<string, int>, inventoryMap: map<string, int>): (r: ReconciliationResult)
    ensures r.item == item
    ensures item !in usageMap ==> r == ReconcileItem(item, Get(deliveryMap, item), 0, Get(inventoryMap, item))
    ensures item in usageMap ==> r == ReconcileItem(item, Get(deliveryMap, item), usageMap[item], Get(inventoryMap, item))
  {
    ReconcileItem(item, Get(deliveryMap, item), Get(usageMap, item).GetOr(0), Get(inventoryMap, item))
  }

  /**
   * What `reconcileAll` promises of its results: one result for each key
   * of the three maps and no other, in strictly ascending order of item,
   * each reconciled from that item's entries.
   */
  predicate ReconciledAll(results: seq<ReconciliationResult>, deliveryMap: map<string, FoodQuantity>, usageMap: map<string, int>, inventoryMap: map<string, int>) {
    && StrictlyAscending(ItemsOf(results))
    && Elements(ItemsOf(results)) == deliveryMap.Keys + usageMap.Keys + inventoryMap.Keys
    && Reconciled(results, deliveryMap, usageMap, inventoryMap)
  }

  /** `reconcileAll`: the union of the keys, sorted, each reconciled. */
  method ReconcileAll(deliveryMap: map<string, FoodQuantity>, usageMap: map<string, int>, inventoryMap: map<string, int>)
    returns (results: seq<ReconciliationResult>)
    ensures ReconciledAll(results, deliveryMap, usageMap, inventoryMap)
    ensures |results| == |deliveryMap.Keys + usageMap.Keys + inventoryMap.Keys|
  {
    var allItems := CollectAllItems(deliveryMap, usageMap, inventoryMap);
    var sortedItems := SortItems(allItems);
    results := [];
    var i := 0;
    while i < |sortedItems|
      invariant 0 <= i <= |sortedItems|
      invariant ItemsOf(results) == sortedItems[..i]
      invariant Reconciled(results, deliveryMap, usageMap, inventoryMap)
    {
      var item := sortedItems[i];
      var delivered := Get(deliveryMap, item);
      var used := Get(usageMap, item).GetOr(0);
      var actual := Get(inventoryMap, item);
      var r := ReconcileItem(item, delivered, used, actual);
      ReconciledSnoc(results, r, deliveryMap, usageMap, inventoryMap);
      results := results + [r];
      PrefixSnoc(sortedItems, i);
      i := i + 1;
    }
    assert sortedItems[..i] == sortedItems;
    SortedReconciled(results, sortedItems, deliveryMap, usageMap, inventoryMap);
  }

  lemma SortedReconciled(results: seq<ReconciliationResult>, sortedItems: seq<string>,
                         deliveryMap: map<string, FoodQuantity>, usageMap: map<string, int>, inventoryMap: map<string, int>)
    requires ItemsOf(results) == sortedItems && StrictlyAscending(sortedItems)
    requires Elements(sortedItems) == deliveryMap.Keys + usageMap.Keys + inventoryMap.Keys
    requires |sortedItems| == |deliveryMap.Keys + usageMap.Keys + inventoryMap.Keys|
    requires Reconciled(results, deliveryMap, usageMap, inventoryMap)
    ensures ReconciledAll(results, deliveryMap, usageMap, inventoryMap)
    ensures |results| == |deliveryMap.Keys + usageMap.Keys + inventoryMap.Keys|
  {
  }

  lemma PrefixSnoc<T>(s: seq<T>, i: nat)
    requires i < |s|
    ensures s[..i + 1] == s[..i] + [s[i]]
  {
  }

  /** Each result is the reconciliation of its own item. */
  predicate Reconciled(results: seq<ReconciliationResult>, deliveryMap: map<string, FoodQuantity>, usageMap: map<string, int>, inventoryMap: map<string, int>) {
    forall i :: 0 <= i < |results| ==> results[i] == ReconcileKey(results[i].item, deliveryMap, usageMap, inventoryMap)
  }

  /** One step of the `reconcileAll` loop keeps every result reconciled and extends the item order by one. */
  lemma ReconciledSnoc(results: seq<ReconciliationResult>, r: ReconciliationResult,
                       deliveryMap: map<string, FoodQuantity>, usageMap: map<string, int>, inventoryMap: map<string, int>)
    requires Reconciled(results, deliveryMap, usageMap, inventoryMap)
    requires r == ReconcileKey(r.item, deliveryMap, usageMap, inventoryMap)
    ensures Reconciled(results + [r], deliveryMap, usageMap, inventoryMap)
    ensures ItemsOf(results + [r]) == ItemsOf(results) + [r.item]
  {
    var s := results + [r];
    assert forall i :: 0 <= i < |results| ==> s[i] == results[i];
  }

  /**
   * Two result sequences that both meet `reconcileAll`'s promise for the
   * same maps are the same: the results do not depend on the order the maps
   * list their keys in.
   */
  lemma ReconciledAllUnique(r1: seq<ReconciliationResult>, r2: seq<ReconciliationResult>,
                            deliveryMap: map<string, FoodQuantity>, usageMap: map<string, int>, inventoryMap: map<string, int>)
    requires ReconciledAll(r1, deliveryMap, usageMap, inventoryMap)
    requires ReconciledAll(r2, deliveryMap, usageMap, inventoryMap)
    ensures r1 == r2
  {
    AscendingUnique(ItemsOf(r1), ItemsOf(r2));
    assert |r1| == |r2|;
    forall i | 0 <= i < |r1| ensures r1[i] == r2[i] {
      assert r1[i].item == ItemsOf(r1)[i] == ItemsOf(r2)[i] == r2[i].item;
    }
  }

  /** Each key of the three maps has exactly one result, and it is that key's reconciliation. */
  lemma ReconciledAllCovers(results: seq<ReconciliationResult>, deliveryMap: map<string, FoodQuantity>, usageMap: map<string, int>,
                            inventoryMap: map<string, int>, item: string)
    requires ReconciledAll(results, deliveryMap, usageMap, inventoryMap)
    requires item in deliveryMap || item in usageMap || item in inventoryMap
    ensures exists i :: 0 <= i < |results| && results[i] == ReconcileKey(item, deliveryMap, usageMap, inventoryMap)
    ensures forall i, j :: 0 <= i < j < |results| ==> results[i].item != results[j].item
  {
    var items := ItemsOf(results);
    assert item in Elements(items);
    var i :| 0 <= i < |items| && items[i] == item;
    assert results[i] == ReconcileKey(item, deliveryMap, usageMap, inventoryMap);
    forall i, j | 0 <= i < j < |results| ensures results[i].item != results[j].item {
      assert LexLess(items[i], items[j]);
      LexLessIrreflexive(items[i]);
    }
  }

  /** The number of results of one status. */
  function CountOf(results: seq<ReconciliationResult>, status: Status): (n: nat)
    ensures n <= |results|
  {
    if |results| == 0 then 0
    else CountOf(results[..|results| - 1], status) + (if StatusOf(results[|results| - 1]) == status then 1 else 0)
  }

  /** Every result has exactly one status, so the three counts add up to the number of results. */
  lemma {:induction false} CountsPartition(results: seq<ReconciliationResult>)
    ensures CountOf(results, OkStatus) + CountOf(results, DiscrepancyStatus) + CountOf(results, UnknownStatus) == |results|
  {
    if |results| > 0 {
      CountsPartition(results[..|results| - 1]);
    }
  }

  /** `calculateSummary`: the results counted by status. */
  method CalculateSummary(results: seq<ReconciliationResult>) returns (summary: AuditSummary)
    ensures summary.totalItems == |results|
    ensures summary.okCount == CountOf(results, OkStatus)
    ensures summary.discrepancyCount == CountOf(results, DiscrepancyStatus)
    ensures summary.unknownCount == CountOf(results, UnknownStatus)
    ensures summary.Consistent()
  {
    var okCount, discrepancyCount, unknownCount := 0, 0, 0;
    var i := 0;
    while i < |results|
      invariant 0 <= i <= |results|
      invariant okCount == CountOf(results[..i], OkStatus)
      invariant discrepancyCount == CountOf(results[..i], DiscrepancyStatus)
      invariant unknownCount == CountOf(results[..i], UnknownStatus)
    {
      assert results[..i + 1][..i] == results[..i];
      match results[i] {
        case Ok(_, _, _) =>
          okCount := okCount + 1;
        case Discrepancy(_, _, _, _) =>
          discrepancyCount := discrepancyCount + 1;
        case Unknown(_, _) =>
          unknownCount := unknownCount + 1;
      }
      i := i + 1;
    }
    assert results[..i] == results;
    CountsPartition(results);
    summary := AuditSummary(|results|, okCount, discrepancyCount, unknownCount);
  }

  /**
   * `createAuditReport`: the reconciled results, their summary, and the
   * generation time the caller read from the clock.
   */
  method CreateAuditReport(deliveryMap: map<string, FoodQuantity>, usageMap: map<string, int>, inventoryMap: map<string, int>,
                           timestamp: Timestamp)
    returns (report: AuditReport)
    ensures report.timestamp == timestamp
    ensures ReconciledAll(report.results, deliveryMap, usageMap, inventoryMap)
    ensures report.summary.totalItems == |report.results| == |deliveryMap.Keys + usageMap.Keys + inventoryMap.Keys|
    ensures report.summary.okCount == CountOf(report.results, OkStatus)
    ensures report.summary.discrepancyCount == CountOf(report.results, DiscrepancyStatus)
    ensures report.summary.unknownCount == CountOf(report.results, UnknownStatus)
    ensures report.summary.Consistent()
  {
    var results := ReconcileAll(deliveryMap, usageMap, inventoryMap);
    var summary := CalculateSummary(results);
    report := AuditReport(timestamp, results, summary);
  }
}
