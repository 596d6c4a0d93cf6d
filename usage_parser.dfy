/**
 * The usage log: CSV rows with a `food` and a `quantity` column. The CSV
 * library (header mapping, quoting, skipping empty lines, trimming each
 * cell) is outside the model; its output, the rows in order, is the input
 * here. A cell the row does not have is `None`.
 */
module UsageParser {
  import opened Results
  import opened Types
  import opened Numbers
  import Text
  import Folds

  /** One CSV row as the library maps it onto the header. */
  datatype CsvRow = CsvRow(food: Option<string>, quantity: Option<string>)

  /**
   * `Number(row.quantity)`: an absent cell is `undefined`, which reads as
   * `NaN`, written `None`.
   */
  function CellNumber(cell: Option<string>): Option<Decimal> {
    if cell.None? then None else ParseNumber(cell.value)
  }

  /**
   * The row filter and record of `parseUsageFile`: a row is skipped when
   * its food is absent or empty, or its quantity is `NaN` or negative;
   * otherwise the food is lowercased and the quantity floored.
   */
  function UsageRowToRecord(row: CsvRow): (r: Option<UsageRecord>)
    ensures r.Some? <==> row.food.Some? && row.food.value != ""
                         && CellNumber(row.quantity).Some? && !CellNumber(row.quantity).value.IsNegative()
    ensures r.Some? ==> r.value.item == Text.ToLower(row.food.value)
                        && r.value.quantity == CellNumber(row.quantity).value.Floor()
                        && r.value.quantity >= 0
  {
    if row.food.None? then None
    else
      var item := Text.ToLower(row.food.value);
      var quantity := CellNumber(row.quantity);
      if item == "" || quantity.None? || quantity.value.IsNegative() then None
      else Some(Record(item, quantity.value.Floor()))
  }

  /**
   * `parseUsageFile`: blank content is an empty log; a failure of the CSV
   * library fails the file; otherwise the accepted rows' records, in row
   * order, duplicates kept.
   */
  method ParseUsageFile(content: string, rows: Result<seq<CsvRow>, string>) returns (r: Result<seq<UsageRecord>, ParseError>)
    ensures Text.AllWhitespace(content) ==> r == Success([])
    ensures !Text.AllWhitespace(content) && rows.Failure? ==> r == Failure(Failed("usage file", rows.error))
    ensures !Text.AllWhitespace(content) && rows.Success? ==> r == Success(Folds.FilterMap(rows.value, UsageRowToRecord))
  {
    Text.TrimBlank(content);
    if Text.Trim(content) == "" {
      return Success([]);
    }
    if rows.Failure? {
      return Failure(Failed("usage file", rows.error));
    }
    var rs := rows.value;
    var records: seq<UsageRecord> := [];
    var i := 0;
    while i < |rs|
      invariant 0 <= i <= |rs|
      invariant records == Folds.FilterMap(rs[..i], UsageRowToRecord)
    {
      var row := rs[i];
      Folds.FilterMapSnoc(rs[..i], row, UsageRowToRecord);
      assert rs[..i + 1] == rs[..i] + [row];
      i := i + 1;
      if row.food.None? {
        continue;
      }
      var item := Text.ToLower(row.food.value);
      var quantity := CellNumber(row.quantity);
      if item == "" || quantity.None? || quantity.value.IsNegative() {
        continue;
      }
      records := records + [Record(item, quantity.value.Floor())];
    }
    assert rs[..i] == rs;
    return Success(records);
  }

  /** Every usage record has a non-negative quantity and comes from a row the filter accepts. */
  lemma UsageRecordsAccepted(rows: seq<CsvRow>, rec: UsageRecord)
    ensures rec in Folds.FilterMap(rows, UsageRowToRecord) <==>
      exists i :: 0 <= i < |rows| && UsageRowToRecord(rows[i]) == Some(rec)
    ensures rec in Folds.FilterMap(rows, UsageRowToRecord) ==> rec.quantity >= 0 && rec.item != ""
  {
    Folds.FilterMapMember(rows, UsageRowToRecord, rec);
    if rec in Folds.FilterMap(rows, UsageRowToRecord) {
      var i :| 0 <= i < |rows| && UsageRowToRecord(rows[i]) == Some(rec);
    }
  }

  /** A row with a fractional quantity is kept, floored: `2.7` is used as 2. */
  lemma FractionalUsageIsFloored(food: string, s: string)
    requires food != "" && |s| == 3 && IsDigit(s[0]) && s[1] == '.' && IsDigit(s[2])
    ensures UsageRowToRecord(CsvRow(Some(food), Some(s))) == Some(Record(Text.ToLower(food), DigitValue(s[0]) as int))
  {
    ParseOneDecimal(s);
    var d := Decimal(10 * DigitValue(s[0]) + DigitValue(s[2]), 1);
    assert d.Floor() == DigitValue(s[0]) by {
      assert Pow10(1) == 10;
    }
  }

  /**
   * A row whose quantity is negative, absent, or text that is not a number
   * (here: starting with a lower-case letter, as `fish,notanumber`) is skipped.
   */
  lemma NegativeOrMissingQuantitySkipped(food: string, n: int, word: string)
    requires n < 0
    requires |word| > 0 && 'a' <= word[0] <= 'z'
    ensures UsageRowToRecord(CsvRow(Some(food), Some(IntToString(n)))) == None
    ensures UsageRowToRecord(CsvRow(Some(food), None)) == None
    ensures UsageRowToRecord(CsvRow(Some(food), Some(word))) == None
  {
    IntToStringRoundTrip(n);
    LowerLetterIsNaN(word);
  }

  /** The total of `item` over the records: the sum of its records' quantities. */
  function TotalFor(rs: seq<UsageRecord>, item: string): int {
    if |rs| == 0 then 0
    else TotalFor(rs[..|rs| - 1], item) + (if rs[|rs| - 1].item == item then rs[|rs| - 1].quantity else 0)
  }

  /** The map the `aggregateUsage` loop leaves after visiting `rs` in order. */
  function UsageTotals(rs: seq<UsageRecord>): map<string, int> {
    if |rs| == 0 then map[]
    else
      var totals := UsageTotals(rs[..|rs| - 1]);
      var last := rs[|rs| - 1];
      totals[last.item := Get(totals, last.item).GetOr(0) + last.quantity]
  }

  /**
   * The totals are keyed by exactly the items of the records, and each item
   * maps to the sum of all its records' quantities.
   */
  lemma {:induction false} UsageTotalsSum(rs: seq<UsageRecord>)
    ensures UsageTotals(rs).Keys == Folds.ItemSet(rs)
    ensures forall item :: item in UsageTotals(rs) ==> UsageTotals(rs)[item] == TotalFor(rs, item)
  {
    if |rs| > 0 {
      var init := rs[..|rs| - 1];
      UsageTotalsSum(init);
      if rs[|rs| - 1].item !in Folds.ItemSet(init) {
        TotalForAbsent(init, rs[|rs| - 1].item);
      }
      assert Folds.ItemSet(rs) == Folds.ItemSet(init) + {rs[|rs| - 1].item} by {
        Folds.ItemSetSnoc(rs);
      }
    }
  }

  /** An item no record names totals 0. */
  lemma {:induction false} TotalForAbsent(rs: seq<UsageRecord>, item: string)
    requires item !in Folds.ItemSet(rs)
    ensures TotalFor(rs, item) == 0
  {
    if |rs| > 0 {
      var init := rs[..|rs| - 1];
      Folds.ItemSetSnoc(rs);
      TotalForAbsent(init, item);
    }
  }

  /** With non-negative quantities every total is non-negative. */
  lemma {:induction false} TotalForNonNegative(rs: seq<UsageRecord>, item: string)
    requires forall i :: 0 <= i < |rs| ==> rs[i].quantity >= 0
    ensures TotalFor(rs, item) >= 0
  {
    if |rs| > 0 {
      TotalForNonNegative(rs[..|rs| - 1], item);
    }
  }

  /** Two records of one item, 8 and 12, total 20. */
  lemma TwoRecordsTotal()
    ensures UsageTotals([Record("banana", 8), Record("banana", 12)]) == map["banana" := 20]
  {
    var rs := [Record("banana", 8), Record("banana", 12)];
    assert rs[..1] == [Record("banana", 8)];
    assert rs[..1][..0] == [];
  }

  /**
   * `aggregateUsage`: one total per item, the sum of its records'
   * quantities.
   */
  method AggregateUsage(records: seq<UsageRecord>) returns (totals: map<string, int>)
    ensures totals == UsageTotals(records)
    ensures totals.Keys == Folds.ItemSet(records)
    ensures forall item :: item in totals ==> totals[item] == TotalFor(records, item)
    ensures (forall i :: 0 <= i < |records| ==> records[i].quantity >= 0) ==>
              forall item :: item in totals ==> totals[item] >= 0
  {
    totals := map[];
    var i := 0;
    while i < |records|
      invariant 0 <= i <= |records|
      invariant totals == UsageTotals(records[..i])
    {
      var record := records[i];
      assert records[..i + 1][..i] == records[..i];
      var current := Get(totals, record.item).GetOr(0);
      totals := totals[record.item := current + record.quantity];
      i := i + 1;
    }
    assert records[..i] == records;
    UsageTotalsSum(records);
    if forall i :: 0 <= i < |records| ==> records[i].quantity >= 0 {
      forall item | item in totals ensures totals[item] >= 0 {
        TotalForNonNegative(records, item);
      }
    }
  }
}
