/**
 * The inventory file: a JSON array of `{ item, quantity }` objects. The JSON
 * parser is outside the model; its output (a value, or the message it threw)
 * is the input here. The schema check is modelled exactly; the text of its
 * error message is not.
 */
module InventoryParser {
  import opened Results
  import opened Types
  import opened Numbers
  import opened Json
  import Text
  import Folds

  /**
   * The element schema: an object whose `item` is a string of at least one
   * character and whose `quantity` is a number that is not below zero.
   * Other fields are allowed and ignored.
   */
  predicate IsInventoryItem(j: Json) {
    j.JObject?
    && "item" in j.fields && j.fields["item"].JString? && |j.fields["item"].s| >= 1
    && "quantity" in j.fields && j.fields["quantity"].JNumber? && !j.fields["quantity"].n.IsNegative()
  }

  /** The file schema: an array every element of which matches the element schema. */
  predicate IsInventoryDocument(doc: Json) {
    doc.JArray? && forall i :: 0 <= i < |doc.elements| ==> IsInventoryItem(doc.elements[i])
  }

  /** The record of a validated element: the item lowercased, the quantity floored. */
  function ItemRecord(j: Json): (rec: InventoryRecord)
    requires IsInventoryItem(j)
    ensures rec.item == Text.ToLower(j.fields["item"].s) && |rec.item| >= 1
    ensures rec.quantity == j.fields["quantity"].n.Floor() && rec.quantity >= 0
  {
    Record(Text.ToLower(j.fields["item"].s), j.fields["quantity"].n.Floor())
  }

  /**
   * `parseInventoryFile`: a JSON syntax error fails the file; a document
   * that does not match the schema in every element fails it as a whole;
   * otherwise one record per element, in order.
   */
  function ParseInventoryFile(doc: Result<Json, string>): (r: Result<seq<InventoryRecord>, ParseError>)
    ensures doc.Failure? ==> r == Failure(Failed("inventory file", doc.error))
    ensures doc.Success? && !IsInventoryDocument(doc.value) ==> r == Failure(InvalidInventoryFormat)
    ensures r.Success? <==> doc.Success? && IsInventoryDocument(doc.value)
    ensures doc == Success(JArray([])) ==> r == Success([])
    ensures r.Success? ==> |r.value| == |doc.value.elements|
                           && forall i :: 0 <= i < |r.value| ==> r.value[i] == ItemRecord(doc.value.elements[i])
  {
    if doc.Failure? then Failure(Failed("inventory file", doc.error))
    else if !IsInventoryDocument(doc.value) then Failure(InvalidInventoryFormat)
    else
      var elements := doc.value.elements;
      Success(seq(|elements|, i requires 0 <= i < |elements| => ItemRecord(elements[i])))
  }

  /**
   * An element with an empty item, or a negative quantity, fails the file
   * even when every other element is well formed.
   */
  lemma EmptyItemOrNegativeQuantityFails(good: seq<Json>, item: string, m: int, scale: nat)
    requires item == "" || m < 0
    ensures ParseInventoryFile(Success(JArray(good + [JObject(map["item" := JString(item), "quantity" := JNumber(Decimal(m, scale))])])))
            == Failure(InvalidInventoryFormat)
  {
    var bad := JObject(map["item" := JString(item), "quantity" := JNumber(Decimal(m, scale))]);
    assert (good + [bad])[|good|] == bad;
  }

  /** The map the `createInventoryMap` loop leaves: the last record of each item wins. */
  method CreateInventoryMap(records: seq<InventoryRecord>) returns (m: map<string, int>)
    ensures m == Folds.LastWins(records)
    ensures m.Keys == Folds.ItemSet(records)
    ensures forall i :: 0 <= i < |records| && (forall j :: i < j < |records| ==> records[j].item != records[i].item)
              ==> m[records[i].item] == records[i].quantity
  {
    m := map[];
    var i := 0;
    while i < |records|
      invariant 0 <= i <= |records|
      invariant m == Folds.LastWins(records[..i])
    {
      assert records[..i + 1][..i] == records[..i];
      m := m[records[i].item := records[i].quantity];
      i := i + 1;
    }
    assert records[..i] == records;
    Folds.LastWinsKeys(records);
    forall i | 0 <= i < |records| && (forall j :: i < j < |records| ==> records[j].item != records[i].item)
      ensures m[records[i].item] == records[i].quantity
    {
      Folds.LastWinsValue(records, i);
    }
  }
}
