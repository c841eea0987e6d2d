/**
 * The order `states.sort()` uses: Python compares strings code point by
 * code point and lists of strings field by field, a shorter prefix first.
 * `Sort` is a reference sort for that order; since the order is total and
 * antisymmetric, every sorting algorithm (Python's included) yields the same
 * list (`SortedUnique`).
 */
module Ordering {
  import opened Records

  /** `a <= b` on Python strings. */
  predicate StrLe(a: string, b: string)
    decreases |a|
  {
    |a| == 0 || (|b| > 0 && (a[0] < b[0] || (a[0] == b[0] && StrLe(a[1..], b[1..]))))
  }

  predicate StrLt(a: string, b: string) {
    StrLe(a, b) && a != b
  }

  lemma {:induction false} StrLeTotal(a: string, b: string)
    ensures StrLe(a, b) || StrLe(b, a)
    decreases |a|
  {
    if |a| > 0 && |b| > 0 && a[0] == b[0] {
      StrLeTotal(a[1..], b[1..]);
    }
  }

  lemma {:induction false} StrLeAntisymmetric(a: string, b: string)
    requires StrLe(a, b) && StrLe(b, a)
    ensures a == b
    decreases |a|
  {
    if |a| > 0 {
      StrLeAntisymmetric(a[1..], b[1..]);
      assert a == [a[0]] + a[1..] && b == [b[0]] + b[1..];
    }
  }

  lemma {:induction false} StrLeTransitive(a: string, b: string, c: string)
    requires StrLe(a, b) && StrLe(b, c)
    ensures StrLe(a, c)
    decreases |a|
  {
    if |a| > 0 && a[0] == b[0] && b[0] == c[0] {
      StrLeTransitive(a[1..], b[1..], c[1..]);
    }
  }

  lemma StrLtTransitive(a: string, b: string, c: string)
    requires StrLt(a, b) && StrLt(b, c)
    ensures StrLt(a, c)
  {
    StrLeTransitive(a, b, c);
    if a == c {
      StrLeAntisymmetric(a, b);
    }
  }

  /** `r <= s` on Python lists of strings: lexicographic over the fields. */
  predicate RecordLe(r: Record, s: Record)
    decreases |r|
  {
    |r| == 0 || (|s| > 0 && (StrLt(r[0], s[0]) || (r[0] == s[0] && RecordLe(r[1..], s[1..]))))
  }

  lemma {:induction false} RecordLeReflexive(r: Record)
    ensures RecordLe(r, r)
    decreases |r|
  {
    if |r| > 0 {
      RecordLeReflexive(r[1..]);
    }
  }

  lemma {:induction false} RecordLeTotal(r: Record, s: Record)
    ensures RecordLe(r, s) || RecordLe(s, r)
    decreases |r|
  {
    if |r| > 0 && |s| > 0 {
      if r[0] == s[0] {
        RecordLeTotal(r[1..], s[1..]);
      } else {
        StrLeTotal(r[0], s[0]);
      }
    }
  }

  lemma {:induction false} RecordLeAntisymmetric(r: Record, s: Record)
    requires RecordLe(r, s) && RecordLe(s, r)
    ensures r == s
    decreases |r|
  {
    if |r| > 0 {
      if r[0] != s[0] {
        StrLeAntisymmetric(r[0], s[0]);
      }
      RecordLeAntisymmetric(r[1..], s[1..]);
      assert r == [r[0]] + r[1..] && s == [s[0]] + s[1..];
    }
  }

  lemma {:induction false} RecordLeTransitive(r: Record, s: Record, t: Record)
    requires RecordLe(r, s) && RecordLe(s, t)
    ensures RecordLe(r, t)
    decreases |r|
  {
    if |r| > 0 {
      if r[0] == s[0] && s[0] == t[0] {
        RecordLeTransitive(r[1..], s[1..], t[1..]);
      } else if StrLt(r[0], s[0]) && StrLt(s[0], t[0]) {
        StrLtTransitive(r[0], s[0], t[0]);
      }
    }
  }

  /** Non-decreasing in the record order. */
  predicate Sorted(s: seq<Record>) {
    forall i, j :: 0 <= i < j < |s| ==> RecordLe(s[i], s[j])
  }

  /** Puts `x` before the first element it does not exceed. */
  function Insert(x: Record, s: seq<Record>): seq<Record>
    decreases |s|
  {
    if |s| == 0 then [x]
    else if RecordLe(x, s[0]) then [x] + s
    else [s[0]] + Insert(x, s[1..])
  }

  /** Inserting into a sorted list keeps it sorted and adds exactly `x`. */
  lemma {:induction false} InsertSorted(x: Record, s: seq<Record>)
    requires Sorted(s)
    ensures Sorted(Insert(x, s))
    ensures multiset(Insert(x, s)) == multiset(s) + multiset{x}
    decreases |s|
  {
    if |s| == 0 {
    } else if RecordLe(x, s[0]) {
      SortedCons(x, s);
    } else {
      RecordLeTotal(x, s[0]);
      var tail := s[1..];
      SortedTail(s);
      InsertSorted(x, tail);
      assert s == [s[0]] + tail;
      LowerBoundCons(s[0], tail, x);
    }
  }

  /** An element no greater than the head of a sorted list can go in front of it. */
  lemma SortedCons(x: Record, s: seq<Record>)
    requires Sorted(s) && |s| > 0 && RecordLe(x, s[0])
    ensures Sorted([x] + s)
  {
    var r := [x] + s;
    forall i, j | 0 <= i < j < |r| ensures RecordLe(r[i], r[j]) {
      if i == 0 && j > 1 {
        RecordLeTransitive(x, s[0], s[j - 1]);
      }
    }
  }

  /**
   * A head no greater than `x` nor than any element of the sorted `tail`
   * can go in front of `tail` with `x` inserted.
   */
  lemma LowerBoundCons(h: Record, tail: seq<Record>, x: Record)
    requires RecordLe(h, x)
    requires forall k :: 0 <= k < |tail| ==> RecordLe(h, tail[k])
    requires Sorted(Insert(x, tail))
    requires multiset(Insert(x, tail)) == multiset(tail) + multiset{x}
    ensures Sorted([h] + Insert(x, tail))
  {
    var t := Insert(x, tail);
    var r := [h] + t;
    forall i, j | 0 <= i < j < |r| ensures RecordLe(r[i], r[j]) {
      if i == 0 {
        var e := r[j];
        assert e == t[j - 1];
        assert e in multiset(t);
        if e != x {
          assert e in tail;
          var k :| 0 <= k < |tail| && tail[k] == e;
        }
      } else {
        assert r[i] == t[i - 1] && r[j] == t[j - 1];
      }
    }
  }

  /** Insertion sort. */
  function Sort(s: seq<Record>): seq<Record>
    decreases |s|
  {
    if |s| == 0 then [] else Insert(s[0], Sort(s[1..]))
  }

  /** The sorted list is sorted and holds the same records, each as often: a sorted permutation. */
  lemma {:induction false} SortSpec(s: seq<Record>)
    ensures Sorted(Sort(s))
    ensures multiset(Sort(s)) == multiset(s)
    decreases |s|
  {
    if |s| > 0 {
      SortSpec(s[1..]);
      InsertSorted(s[0], Sort(s[1..]));
      assert s == [s[0]] + s[1..];
    }
  }

  /**
   * Two sorted lists with the same elements are equal: whatever algorithm
   * sorts the list, the result is `Sort` of it.
   */
  lemma {:induction false} SortedUnique(a: seq<Record>, b: seq<Record>)
    requires Sorted(a) && Sorted(b)
    requires multiset(a) == multiset(b)
    ensures a == b
    decreases |a|
  {
    assert |a| == |multiset(a)| == |multiset(b)| == |b|;
    if |a| > 0 {
      SameHead(a, b);
      assert a == [a[0]] + a[1..] && b == [b[0]] + b[1..];
      assert multiset(a[1..]) == multiset(a) - multiset{a[0]};
      assert multiset(b[1..]) == multiset(b) - multiset{b[0]};
      SortedTail(a);
      SortedTail(b);
      SortedUnique(a[1..], b[1..]);
    }
  }

  /** Two sorted lists with the same elements start with the same element. */
  lemma SameHead(a: seq<Record>, b: seq<Record>)
    requires Sorted(a) && Sorted(b) && |a| > 0 && |b| > 0
    requires multiset(a) == multiset(b)
    ensures a[0] == b[0]
  {
    assert a[0] in multiset(b) && b[0] in multiset(a);
    var i :| 0 <= i < |b| && b[i] == a[0];
    var j :| 0 <= j < |a| && a[j] == b[0];
    RecordLeReflexive(a[0]);
    RecordLeReflexive(b[0]);
    assert RecordLe(b[0], a[0]) by { if i > 0 { assert RecordLe(b[0], b[i]); } }
    assert RecordLe(a[0], b[0]) by { if j > 0 { assert RecordLe(a[0], a[j]); } }
    RecordLeAntisymmetric(a[0], b[0]);
  }

  lemma SortedTail(s: seq<Record>)
    requires Sorted(s) && |s| > 0
    ensures Sorted(s[1..])
  {
    forall p, q | 0 <= p < q < |s| - 1 ensures RecordLe(s[1..][p], s[1..][q]) {
      assert s[1..][p] == s[p + 1] && s[1..][q] == s[q + 1];
    }
  }

  /** Of two records in list order, the first name is no later in Python's code-point string order. */
  lemma RecordLeName(r: Record, t: Record)
    requires |r| >= 1 && |t| >= 1 && RecordLe(r, t)
    ensures StrLe(r[0], t[0])
  {
    if r[0] == t[0] {
      StrLeReflexive(r[0]);
    }
  }

  lemma {:induction false} StrLeReflexive(a: string)
    ensures StrLe(a, a)
    decreases |a|
  {
    if |a| > 0 {
      StrLeReflexive(a[1..]);
    }
  }

  /** A sorted list shows its states in Python's code-point string order of their names. */
  lemma SortedByName(s: seq<Record>)
    requires forall i :: 0 <= i < |s| ==> |s[i]| >= 1
    requires Sorted(s)
    ensures forall i, j :: 0 <= i < j < |s| ==> StrLe(s[i][0], s[j][0])
  {
    forall i, j | 0 <= i < j < |s| ensures StrLe(s[i][0], s[j][0]) {
      RecordLeName(s[i], s[j]);
    }
  }

  /** Sorting a list that is already sorted leaves it as it is. */
  lemma SortSorted(s: seq<Record>)
    requires Sorted(s)
    ensures Sort(s) == s
  {
    SortSpec(s);
    SortedUnique(Sort(s), s);
  }
}
