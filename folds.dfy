/**
 * The two folds the parsers and aggregators share.
 *
 * `FilterMap` is the skip-tolerant record loop: each input row is turned
 * into a record or skipped, and the kept records stay in input order.
 * `LastWins` is the map a `map.set` loop builds: one entry per item, holding
 * the quantity of the item's last record.
 */
module Folds {
  import opened Results
  import opened Types

  /** The records of `rows` that `f` keeps, in row order. */
  function FilterMap<A, B>(rows: seq<A>, f: A -> Option<B>): (r: seq<B>)
    ensures |r| <= |rows|
  {
    if |rows| == 0 then []
    else (if f(rows[0]).Some? then [f(rows[0]).value] else []) + FilterMap(rows[1..], f)
  }

  /** Filtering distributes over concatenation: output order is input order. */
  lemma {:induction false} FilterMapConcat<A, B>(xs: seq<A>, ys: seq<A>, f: A -> Option<B>)
    ensures FilterMap(xs + ys, f) == FilterMap(xs, f) + FilterMap(ys, f)
  {
    if |xs| > 0 {
      assert (xs + ys)[1..] == xs[1..] + ys;
      FilterMapConcat(xs[1..], ys, f);
    } else {
      assert xs + ys == ys;
    }
  }

  /** One more row adds its record when `f` keeps it, and nothing otherwise. */
  lemma FilterMapSnoc<A, B>(xs: seq<A>, x: A, f: A -> Option<B>)
    ensures FilterMap(xs + [x], f) == FilterMap(xs, f) + (if f(x).Some? then [f(x).value] else [])
  {
    FilterMapConcat(xs, [x], f);
  }

  /** Every kept record comes from a row, and every row `f` keeps yields its record. */
  lemma {:induction false} FilterMapMember<A, B>(xs: seq<A>, f: A -> Option<B>, y: B)
    ensures y in FilterMap(xs, f) <==> exists i :: 0 <= i < |xs| && f(xs[i]) == Some(y)
  {
    if |xs| > 0 {
      FilterMapMember(xs[1..], f, y);
      if y in FilterMap(xs[1..], f) {
        var i :| 0 <= i < |xs[1..]| && f(xs[1..][i]) == Some(y);
        assert f(xs[i + 1]) == Some(y);
      }
      if exists i :: 0 <= i < |xs| && f(xs[i]) == Some(y) {
        var i :| 0 <= i < |xs| && f(xs[i]) == Some(y);
        if i > 0 {
          assert f(xs[1..][i - 1]) == Some(y);
        }
      }
    }
  }

  /** The items named by some record. */
  function ItemSet<Q>(rs: seq<Record<Q>>): set<string> {
    set i | 0 <= i < |rs| :: rs[i].item
  }

  /** The map a `map.set(item, quantity)` loop leaves after visiting `rs` in order. */
  function LastWins<Q>(rs: seq<Record<Q>>): map<string, Q> {
    if |rs| == 0 then map[]
    else LastWins(rs[..|rs| - 1])[rs[|rs| - 1].item := rs[|rs| - 1].quantity]
  }

  /** The keys are exactly the items of the records. */
  lemma {:induction false} LastWinsKeys<Q>(rs: seq<Record<Q>>)
    ensures LastWins(rs).Keys == ItemSet(rs)
  {
    if |rs| > 0 {
      var init := rs[..|rs| - 1];
      LastWinsKeys(init);
      ItemSetSnoc(rs);
    }
  }

  /** One more record adds its item to the item set. */
  lemma ItemSetSnoc<Q>(rs: seq<Record<Q>>)
    requires |rs| > 0
    ensures ItemSet(rs) == ItemSet(rs[..|rs| - 1]) + {rs[|rs| - 1].item}
  {
    var init := rs[..|rs| - 1];
    forall k | k in ItemSet(rs) ensures k in ItemSet(init) + {rs[|rs| - 1].item} {
      var i :| 0 <= i < |rs| && rs[i].item == k;
      if i < |rs| - 1 { assert init[i].item == k; }
    }
    forall k | k in ItemSet(init) ensures k in ItemSet(rs) {
      var i :| 0 <= i < |init| && init[i].item == k;
      assert rs[i].item == k;
    }
  }

  /** An item maps to the quantity of its last record. */
  lemma {:induction false} LastWinsValue<Q>(rs: seq<Record<Q>>, i: nat)
    requires i < |rs|
    requires forall j :: i < j < |rs| ==> rs[j].item != rs[i].item
    ensures rs[i].item in LastWins(rs) && LastWins(rs)[rs[i].item] == rs[i].quantity
  {
    if i < |rs| - 1 {
      var init := rs[..|rs| - 1];
      LastWinsValue(init, i);
    }
  }
}
