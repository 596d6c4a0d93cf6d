/**
 * The order `Array.prototype.sort()` puts item names in when it is given no
 * comparator: lexicographic order of the characters' codes, a proper prefix
 * first. Sorting a set of names yields the one strictly ascending sequence
 * of them.
 */
module Ordering {

  /** `a` sorts before `b`. */
  predicate LexLess(a: string, b: string) {
    if |a| == 0 then |b| > 0
    else if |b| == 0 then false
    else a[0] < b[0] || (a[0] == b[0] && LexLess(a[1..], b[1..]))
  }

  lemma {:induction false} LexLessIrreflexive(a: string)
    ensures !LexLess(a, a)
  {
    if |a| > 0 {
      LexLessIrreflexive(a[1..]);
    }
  }

  lemma {:induction false} LexLessTransitive(a: string, b: string, c: string)
    requires LexLess(a, b) && LexLess(b, c)
    ensures LexLess(a, c)
  {
    if |a| > 0 && a[0] == b[0] && b[0] == c[0] {
      LexLessTransitive(a[1..], b[1..], c[1..]);
    }
  }

  /** Any two different names are ordered one way or the other. */
  lemma {:induction false} LexLessTotal(a: string, b: string)
    requires a != b
    ensures LexLess(a, b) || LexLess(b, a)
  {
    if |a| > 0 && |b| > 0 && a[0] == b[0] {
      assert a == [a[0]] + a[1..] && b == [b[0]] + b[1..];
      LexLessTotal(a[1..], b[1..]);
    }
  }

  /** Never both ways. */
  lemma LexLessAsymmetric(a: string, b: string)
    requires LexLess(a, b)
    ensures !LexLess(b, a)
  {
    if LexLess(b, a) {
      LexLessTransitive(a, b, a);
      LexLessIrreflexive(a);
    }
  }

  predicate StrictlyAscending(s: seq<string>) {
    forall i, j :: 0 <= i < j < |s| ==> LexLess(s[i], s[j])
  }

  function Elements(s: seq<string>): set<string> {
    set i | 0 <= i < |s| :: s[i]
  }

  /** `m` is the least of `s`. */
  predicate IsLeast(m: string, s: set<string>) {
    m in s && forall x :: x in s ==> x == m || LexLess(m, x)
  }

  /** The least name of a non-empty set, found by one pass over it. */
  method Least(s: set<string>) returns (m: string)
    requires s != {}
    ensures IsLeast(m, s)
  {
    m :| m in s;
    var rest := s - {m};
    while rest != {}
      invariant rest <= s && m in s && m !in rest
      invariant forall x :: x in s && x !in rest ==> x == m || LexLess(m, x)
      decreases |rest|
    {
      var x :| x in rest;
      if LexLess(x, m) {
        forall y | y in s && y !in rest && y != m
          ensures LexLess(x, y)
        {
          LexLessTransitive(x, m, y);
        }
        m := x;
      } else if x != m {
        LexLessTotal(x, m);
      }
      rest := rest - {x};
    }
  }

  /**
   * `Array.from(items).sort()`: the names of the set, each once, in
   * strictly ascending order.
   */
  method SortItems(items: set<string>) returns (sorted: seq<string>)
    ensures StrictlyAscending(sorted)
    ensures Elements(sorted) == items
    ensures |sorted| == |items|
  {
    sorted := [];
    var remaining := items;
    while remaining != {}
      invariant remaining <= items
      invariant Elements(sorted) == items - remaining
      invariant |sorted| + |remaining| == |items|
      invariant StrictlyAscending(sorted)
      invariant forall i, x :: 0 <= i < |sorted| && x in remaining ==> LexLess(sorted[i], x)
      decreases |remaining|
    {
      var m := Least(remaining);
      AppendLeast(sorted, remaining, m);
      sorted := sorted + [m];
      remaining := remaining - {m};
    }
  }

  /** Appending the least remaining name keeps the sequence ascending and below the rest. */
  lemma AppendLeast(sorted: seq<string>, remaining: set<string>, m: string)
    requires StrictlyAscending(sorted) && IsLeast(m, remaining)
    requires forall i, x :: 0 <= i < |sorted| && x in remaining ==> LexLess(sorted[i], x)
    ensures StrictlyAscending(sorted + [m])
    ensures Elements(sorted + [m]) == Elements(sorted) + {m}
    ensures forall i, x :: 0 <= i < |sorted + [m]| && x in remaining - {m} ==> LexLess((sorted + [m])[i], x)
  {
    var s := sorted + [m];
    assert forall i :: 0 <= i < |sorted| ==> s[i] == sorted[i];
    assert s[|sorted|] == m;
    assert Elements(s) == Elements(sorted) + {m};
  }

  /**
   * A set of names has only one strictly ascending arrangement, so the
   * sorted order does not depend on the order the names were collected in.
   */
  lemma {:induction false} AscendingUnique(s: seq<string>, t: seq<string>)
    requires StrictlyAscending(s) && StrictlyAscending(t)
    requires Elements(s) == Elements(t)
    ensures s == t
  {
    ElementsEmpty(s);
    ElementsEmpty(t);
    if |s| > 0 && |t| > 0 {
      assert s[0] == t[0] by {
        AscendingHeadIsLeast(s);
        AscendingHeadIsLeast(t);
        if s[0] != t[0] {
          assert LexLess(s[0], t[0]) && LexLess(t[0], s[0]);
          LexLessAsymmetric(s[0], t[0]);
        }
      }
      assert Elements(s[1..]) == Elements(t[1..]) by {
        AscendingTail(s);
        AscendingTail(t);
      }
      AscendingUnique(s[1..], t[1..]);
      assert s == [s[0]] + s[1..] && t == [t[0]] + t[1..];
    }
  }

  lemma ElementsEmpty(s: seq<string>)
    ensures |s| == 0 <==> Elements(s) == {}
  {
    if |s| > 0 {
      assert s[0] in Elements(s);
    }
  }

  lemma AscendingHeadIsLeast(s: seq<string>)
    requires StrictlyAscending(s) && |s| > 0
    ensures IsLeast(s[0], Elements(s))
  {
    forall x | x in Elements(s) ensures x == s[0] || LexLess(s[0], x) {
      var i :| 0 <= i < |s| && s[i] == x;
    }
  }

  /** The tail of an ascending sequence holds all its names but the first. */
  lemma AscendingTail(s: seq<string>)
    requires StrictlyAscending(s) && |s| > 0
    ensures StrictlyAscending(s[1..])
    ensures Elements(s[1..]) == Elements(s) - {s[0]}
  {
    forall x | x in Elements(s[1..]) ensures x in Elements(s) - {s[0]} {
      var i :| 0 <= i < |s[1..]| && s[1..][i] == x;
      assert s[i + 1] == x;
      LexLessIrreflexive(s[0]);
    }
    forall x | x in Elements(s) - {s[0]} ensures x in Elements(s[1..]) {
      var i :| 0 <= i < |s| && s[i] == x;
      assert s[1..][i - 1] == x;
    }
  }
}
