/**
 * The delivery file: `item=quantity` properties. The properties library
 * (its line grammar, comments, its own quote handling and duplicate keys)
 * is outside the model; its output, the `(key, value)` entries in order,
 * is the input here.
 */
module DeliveryParser {
  import opened Results
  import opened Types
  import opened Numbers
  import Text
  import Folds

  /** One property the library produced: the key and the raw value text. */
  datatype DeliveryEntry = DeliveryEntry(key: string, value: string)

  const EmptyValueReason: string := "empty value in delivery file"

  /** The reason given for a value that is not a non-negative integer; it quotes the raw, untrimmed value. */
  function InvalidQuantityReason(raw: string): (reason: string)
    ensures |reason| == |raw| + 20
    ensures reason[..19] == "invalid quantity: \"" && reason[|reason| - 1] == '"'
    ensures reason[19..|reason| - 1] == raw
  {
    "invalid quantity: \"" + raw + "\""
  }

  predicate IsQuote(c: char) {
    c == '"' || c == '\''
  }

  /**
   * `t.replace(/^["'](.*)["']$/, '$1')`: one quote at each end is removed,
   * the two need not be the same quote, and the text between them must not
   * hold a line terminator (the regular expression's `.` does not match one).
   */
  function StripQuotes(t: string): (r: string)
    ensures QuotePattern(t) ==> r == t[1..|t| - 1] && r != t
    ensures !QuotePattern(t) ==> r == t
  {
    if QuotePattern(t) then t[1..|t| - 1] else t
  }

  /** The regular expression matches `t`: a quote at each end and no line terminator between them. */
  predicate QuotePattern(t: string) {
    |t| >= 2 && IsQuote(t[0]) && IsQuote(t[|t| - 1])
    && forall i :: 1 <= i < |t| - 1 ==> !Text.IsLineTerminator(t[i])
  }

  /**
   * `parsePropertyValue`: a delivered quantity is a non-negative integer;
   * a blank value and a value that is not a non-negative integer become
   * `Missing` with their reason. It never fails.
   */
  function ParsePropertyValue(raw: Option<string>): (q: FoodQuantity)
    ensures q.Valid? ==> q.value >= 0
    ensures q == Missing(EmptyValueReason) <==> raw.None? || Text.AllWhitespace(raw.value)
    ensures q.Missing? && q.reason != EmptyValueReason ==> raw.Some? && q.reason == InvalidQuantityReason(raw.value)
    ensures raw.Some? && !Text.AllWhitespace(raw.value) ==>
              var d := ParseNumber(StripQuotes(Text.Trim(raw.value)));
              (q.Valid? <==> d.Some? && !d.value.IsNegative() && d.value.IsInteger())
              && (q.Valid? ==> q.value == d.value.Floor())
  {
    if raw.None? || Text.Trim(raw.value) == "" then
      assert raw.Some? ==> Text.AllWhitespace(raw.value) by {
        if raw.Some? { Text.TrimBlank(raw.value); }
      }
      Missing(EmptyValueReason)
    else
      var trimmed := Text.Trim(raw.value);
      Text.TrimBlank(raw.value);
      var unquoted := StripQuotes(trimmed);
      var invalid := Missing(InvalidQuantityReason(raw.value));
      assert invalid != Missing(EmptyValueReason) by {
        assert InvalidQuantityReason(raw.value)[0] == 'i';
      }
      match ParseNumber(unquoted)
      case None => invalid
      case Some(d) => if d.IsNegative() || !d.IsInteger() then invalid else Valid(d.Floor())
  }

  /** The item name of a property key: trimmed, then lowercased. */
  function NormalizeItem(key: string): (name: string)
    ensures name == "" <==> Text.AllWhitespace(key)
    ensures Text.IsLower(name)
    ensures name == [] || (!Text.IsWhitespace(name[0]) && !Text.IsWhitespace(name[|name| - 1]))
  {
    var t := Text.Trim(key);
    Text.TrimBlank(key);
    Text.ToLowerIsLower(t);
    Text.ToLower(t)
  }

  /** One entry's record, or nothing when its key is blank. */
  function EntryToRecord(e: DeliveryEntry): Option<DeliveryRecord> {
    var name := NormalizeItem(e.key);
    if name == "" then None else Some(Record(name, ParsePropertyValue(Some(e.value))))
  }

  /**
   * `parseDeliveryFile`: a failure of the properties library fails the
   * file; otherwise one record per entry with a non-blank key, in entry
   * order.
   */
  method ParseDeliveryFile(entries: Result<seq<DeliveryEntry>, string>) returns (r: Result<seq<DeliveryRecord>, ParseError>)
    ensures entries.Failure? ==> r == Failure(Failed("delivery file", entries.error))
    ensures entries.Success? ==> r == Success(Folds.FilterMap(entries.value, EntryToRecord))
  {
    if entries.Failure? {
      return Failure(Failed("delivery file", entries.error));
    }
    var es := entries.value;
    var records: seq<DeliveryRecord> := [];
    var i := 0;
    while i < |es|
      invariant 0 <= i <= |es|
      invariant records == Folds.FilterMap(es[..i], EntryToRecord)
    {
      var e := es[i];
      Folds.FilterMapSnoc(es[..i], e, EntryToRecord);
      assert es[..i + 1] == es[..i] + [e];
      i := i + 1;
      var itemName := NormalizeItem(e.key);
      if itemName == "" {
        continue;
      }
      records := records + [Record(itemName, ParsePropertyValue(Some(e.value)))];
    }
    assert es[..i] == es;
    return Success(records);
  }

  /**
   * The delivery records are exactly the entries with a non-blank key, each
   * under its trimmed, lowercased name, and every name is non-empty and
   * canonical.
   */
  lemma DeliveryRecordsFromEntries(es: seq<DeliveryEntry>, rec: DeliveryRecord)
    ensures rec in Folds.FilterMap(es, EntryToRecord) <==>
      exists i :: 0 <= i < |es| && !Text.AllWhitespace(es[i].key)
                  && rec == Record(NormalizeItem(es[i].key), ParsePropertyValue(Some(es[i].value)))
    ensures rec in Folds.FilterMap(es, EntryToRecord) ==>
      rec.item != "" && Text.IsLower(rec.item) && Text.Trim(rec.item) == rec.item
  {
    Folds.FilterMapMember(es, EntryToRecord, rec);
    forall i | 0 <= i < |es|
      ensures EntryToRecord(es[i]) == Some(rec) <==>
        (!Text.AllWhitespace(es[i].key) && rec == Record(NormalizeItem(es[i].key), ParsePropertyValue(Some(es[i].value))))
    {
      EntryToRecordSome(es[i], rec);
    }
    if rec in Folds.FilterMap(es, EntryToRecord) {
      var i :| 0 <= i < |es| && EntryToRecord(es[i]) == Some(rec);
      EntryToRecordSome(es[i], rec);
    }
  }

  lemma EntryToRecordSome(e: DeliveryEntry, rec: DeliveryRecord)
    ensures EntryToRecord(e) == Some(rec) <==>
      (!Text.AllWhitespace(e.key) && rec == Record(NormalizeItem(e.key), ParsePropertyValue(Some(e.value))))
    ensures EntryToRecord(e) == Some(rec) ==>
      rec.item != "" && Text.IsLower(rec.item) && Text.Trim(rec.item) == rec.item
  {
    if EntryToRecord(e) == Some(rec) {
      Text.TrimUnpadded(rec.item);
    }
  }

  /**
   * `createDeliveryMap`: the last record of each item wins. The keys are
   * the items of the records.
   */
  method CreateDeliveryMap(records: seq<DeliveryRecord>) returns (m: map<string, FoodQuantity>)
    ensures m == Folds.LastWins(records)
    ensures m.Keys == Folds.ItemSet(records)
    ensures forall i :: 0 <= i < |records| && (forall j :: i < j < |records| ==> records[j].item != records[i].item)
              ==> m[records[i].item] == records[i].quantity
  {
    m := map[];
    var i := 0;
    while i < |records|
      invariant 0 <= i <= |records|
      invariant m == Folds.LastWins(records[..i])
    {
      assert records[..i + 1][..i] == records[..i];
      m := m[records[i].item := records[i].quantity];
      i := i + 1;
    }
    assert records[..i] == records;
    Folds.LastWinsKeys(records);
    forall i | 0 <= i < |records| && (forall j :: i < j < |records| ==> records[j].item != records[i].item)
      ensures m[records[i].item] == records[i].quantity
    {
      Folds.LastWinsValue(records, i);
    }
  }

  /**
   * Once the trimmed, unquoted text reads as a number, the value is that
   * number's floor when it is a non-negative integer, and invalid otherwise.
   */
  lemma PropertyValueOfNumber(raw: string, d: Decimal)
    requires !Text.AllWhitespace(raw)
    requires ParseNumber(StripQuotes(Text.Trim(raw))) == Some(d)
    ensures ParsePropertyValue(Some(raw))
            == if d.IsNegative() || !d.IsInteger() then Missing(InvalidQuantityReason(raw)) else Valid(d.Floor())
  {
  }

  /** A plain digit string is delivered as its value. */
  lemma DigitsAreValid(n: nat)
    ensures ParsePropertyValue(Some(NatToString(n))) == Valid(n)
  {
    var s := NatToString(n);
    assert Text.Trim(s) == s && !Text.AllWhitespace(s) by {
      assert IsDigit(s[0]) && IsDigit(s[|s| - 1]);
      Text.TrimUnpadded(s);
    }
    assert StripQuotes(s) == s by {
      assert !IsQuote(s[0]);
    }
    NatToStringRoundTrip(n);
    PropertyValueOfNumber(s, Decimal(n, 0));
  }

  /**
   * A digit string between one leading and one trailing quote is delivered
   * as its value, whichever of `"` and `'` each quote is.
   */
  lemma QuotedDigitsAreValid(n: nat, open: char, close: char)
    requires IsQuote(open) && IsQuote(close)
    ensures ParsePropertyValue(Some([open] + NatToString(n) + [close])) == Valid(n)
  {
    var digits := NatToString(n);
    var s := [open] + digits + [close];
    assert Text.Trim(s) == s && !Text.AllWhitespace(s) by {
      assert s[0] == open && s[|s| - 1] == close;
      Text.TrimUnpadded(s);
    }
    assert StripQuotes(s) == digits by {
      assert s[1..|s| - 1] == digits;
      QuotedStrip(s, digits);
    }
    NatToStringRoundTrip(n);
    PropertyValueOfNumber(s, Decimal(n, 0));
  }

  lemma QuotedStrip(s: string, digits: string)
    requires AllDigits(digits)
    requires |s| == |digits| + 2 && IsQuote(s[0]) && IsQuote(s[|s| - 1]) && s[1..|s| - 1] == digits
    ensures StripQuotes(s) == digits
  {
    forall i | 1 <= i < |s| - 1 ensures !Text.IsLineTerminator(s[i]) {
      assert s[i] == digits[i - 1];
      assert IsDigit(digits[i - 1]);
    }
  }

  /** A negative number is not a delivered quantity: it is missing, quoting the raw text. */
  lemma NegativeIsInvalid(n: int)
    requires n < 0
    ensures ParsePropertyValue(Some(IntToString(n))) == Missing(InvalidQuantityReason(IntToString(n)))
  {
    var s := IntToString(n);
    assert Text.Trim(s) == s && !Text.AllWhitespace(s) by {
      assert s[|s| - 1] == NatToString(-n)[|NatToString(-n)| - 1];
      assert IsDigit(s[|s| - 1]);
      Text.TrimUnpadded(s);
    }
    assert StripQuotes(s) == s by {
      assert !IsQuote(s[0]);
    }
    IntToStringRoundTrip(n);
    PropertyValueOfNumber(s, Decimal(n, 0));
  }

  /** A fractional value such as `2.5` is not a delivered quantity: it is missing, quoting the raw text. */
  lemma FractionIsInvalid(s: string)
    requires |s| == 3 && IsDigit(s[0]) && s[1] == '.' && IsDigit(s[2]) && s[2] != '0'
    ensures ParsePropertyValue(Some(s)) == Missing(InvalidQuantityReason(s))
  {
    assert Text.Trim(s) == s && !Text.AllWhitespace(s) by {
      assert IsDigit(s[0]) && IsDigit(s[2]);
      Text.TrimUnpadded(s);
    }
    assert StripQuotes(s) == s by {
      assert !IsQuote(s[0]);
    }
    ParseOneDecimal(s);
    var d := Decimal(10 * DigitValue(s[0]) + DigitValue(s[2]), 1);
    assert !d.IsInteger() by {
      assert Pow10(1) == 10;
    }
    PropertyValueOfNumber(s, d);
  }

  /**
   * A value that is only a pair of quotes is delivered as 0: once the quotes
   * are stripped nothing is left, and `Number` reads empty text as 0.
   */
  lemma EmptyQuotesAreZero()
    ensures ParsePropertyValue(Some("\"\"")) == Valid(0)
  {
    var s := "\"\"";
    assert Text.Trim(s) == s by {
      Text.TrimUnpadded(s);
    }
    assert StripQuotes(s) == "";
    assert ParseNumber("") == Some(Decimal(0, 0)) by {
      Text.TrimUnpadded("");
    }
  }
}
