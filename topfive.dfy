/**
 * The data behind the bar chart: a name -> population dictionary filled in
 * list order (a later record overwrites the value but the key keeps its first
 * position), sorted by population, largest first, with ties kept in dictionary
 * order, and cut to five entries.
 */
module TopFive {
  import opened Records

  /** One dictionary item, `(name, population)`. */
  type Entry = (string, int)

  /**
   * A Python dictionary from name to population: its keys in insertion order,
   * and the value under each key.
   */
  datatype Dict = Dict(keys: seq<string>, values: map<string, int>)

  predicate Distinct(xs: seq<string>) {
    forall i, j :: 0 <= i < j < |xs| ==> xs[i] != xs[j]
  }

  /** Every key is listed exactly once. */
  predicate DictValid(d: Dict) {
    && Distinct(d.keys)
    && (forall k :: k in d.keys ==> k in d.values)
    && (forall k :: k in d.values ==> k in d.keys)
  }

  /**
   * `d[k] = v`: the value under `k` becomes `v`; an existing key keeps its
   * position, a new key goes last.
   */
  function Put(d: Dict, k: string, v: int): (r: Dict)
    requires DictValid(d)
    ensures DictValid(r)
    ensures |r.keys| == if k in d.values then |d.keys| else |d.keys| + 1
  {
    Dict(if k in d.values then d.keys else d.keys + [k], d.values[k := v])
  }

  /** `d.items()`, in key order. */
  function Items(d: Dict): (items: seq<Entry>)
    requires DictValid(d)
    ensures |items| == |d.keys|
    ensures forall i :: 0 <= i < |items| ==> items[i].0 == d.keys[i]
    ensures forall e :: e in items <==> e.0 in d.values && e.1 == d.values[e.0]
  {
    var items := seq(|d.keys|, i requires 0 <= i < |d.keys| => (d.keys[i], d.values[d.keys[i]]));
    assert forall e: Entry :: e.0 in d.values && e.1 == d.values[e.0] ==> e in items by {
      forall e: Entry | e.0 in d.values && e.1 == d.values[e.0] ensures e in items {
        var i :| 0 <= i < |d.keys| && d.keys[i] == e.0;
        assert items[i] == e;
      }
    }
    items
  }

  /** The dictionary `state_pop` after the fill loop has run over `s`. */
  function BuildTable(s: seq<Record>): (d: Dict)
    requires AllWellFormed(s)
    ensures DictValid(d)
    decreases |s|
  {
    if |s| == 0 then Dict([], map[])
    else
      var last := s[|s| - 1];
      Put(BuildTable(s[..|s| - 1]), last[0], Population(last))
  }

  /** The fill loop of `bar_graph`: `state_pop[state[0]] = int(state[2])` for each record in turn. */
  method PopulationTable(s: seq<Record>) returns (d: Dict)
    requires AllWellFormed(s)
    ensures d == BuildTable(s)
  {
    d := Dict([], map[]);
    for i := 0 to |s|
      invariant d == BuildTable(s[..i])
    {
      assert s[..i + 1][..i] == s[..i];
      d := Put(d, s[i][0], Population(s[i]));
    }
    assert s[..|s|] == s;
  }

  /** The distinct names among the records. */
  function NameSet(s: seq<Record>): set<string>
    requires forall i :: 0 <= i < |s| ==> |s[i]| >= 1
  {
    set n | n in Names(s)
  }

  /** The filled dictionary has a key for every name and no other. */
  lemma {:induction false} TableKeys(s: seq<Record>)
    requires AllWellFormed(s)
    ensures forall n :: n in BuildTable(s).values <==> n in Names(s)
    decreases |s|
  {
    if |s| > 0 {
      var p, last := s[..|s| - 1], s[|s| - 1];
      TableKeys(p);
      assert s == p + [last];
      NamesSnoc(p, last);
    }
  }

  /** The value under each name is the population of the last record carrying that name. */
  lemma {:induction false} TableValues(s: seq<Record>)
    requires AllWellFormed(s)
    ensures forall n :: n in BuildTable(s).values ==>
      n in Names(s) && BuildTable(s).values[n] == Population(s[LastWithName(s, n)])
    decreases |s|
  {
    TableKeys(s);
    if |s| > 0 {
      TableValues(s[..|s| - 1]);
      TableKeys(s[..|s| - 1]);
      forall n | n in BuildTable(s).values
        ensures BuildTable(s).values[n] == Population(s[LastWithName(s, n)])
      {
        TableValueStep(s, n);
      }
    }
  }

  /** The value under `n` after the last record, from the value before it. */
  lemma TableValueStep(s: seq<Record>, n: string)
    requires AllWellFormed(s) && |s| > 0
    requires n in BuildTable(s).values && n in Names(s)
    requires var p := s[..|s| - 1];
      n != s[|s| - 1][0] ==>
        (n in BuildTable(p).values && n in Names(p)
         && BuildTable(p).values[n] == Population(p[LastWithName(p, n)]))
    ensures BuildTable(s).values[n] == Population(s[LastWithName(s, n)])
  {
  }

  /** The distinct strings of `xs`, each where it first occurs. */
  function FirstSeen(xs: seq<string>): seq<string>
    decreases |xs|
  {
    if |xs| == 0 then []
    else
      var p := FirstSeen(xs[..|xs| - 1]);
      if xs[|xs| - 1] in p then p else p + [xs[|xs| - 1]]
  }

  /**
   * The dictionary lists each name where it first occurs in the list: a
   * later record with the same name changes the value, not the position.
   */
  lemma {:induction false} TableOrder(s: seq<Record>)
    requires AllWellFormed(s)
    ensures BuildTable(s).keys == FirstSeen(Names(s))
    decreases |s|
  {
    if |s| > 0 {
      var p, last := s[..|s| - 1], s[|s| - 1];
      TableOrder(p);
      assert s == p + [last];
      NamesSnoc(p, last);
      assert Names(s)[..|s| - 1] == Names(p);
    }
  }

  /** A list of distinct strings has as many elements as its set. */
  lemma {:induction false} DistinctCardinality(xs: seq<string>)
    requires Distinct(xs)
    ensures |set x | x in xs| == |xs|
    decreases |xs|
  {
    if |xs| > 0 {
      var p := xs[..|xs| - 1];
      assert Distinct(p);
      DistinctCardinality(p);
      assert (set x | x in xs) == (set x | x in p) + {xs[|xs| - 1]};
      assert xs[|xs| - 1] !in p;
    }
  }

  /** The dictionary has as many entries as there are distinct names. */
  lemma TableSize(s: seq<Record>)
    requires AllWellFormed(s)
    ensures |Items(BuildTable(s))| == |NameSet(s)|
  {
    var d := BuildTable(s);
    TableKeys(s);
    DistinctCardinality(d.keys);
    assert (set x | x in d.keys) == NameSet(s);
  }

  /** Largest population first. */
  predicate NonIncreasing(d: seq<Entry>) {
    forall i, j :: 0 <= i < j < |d| ==> d[i].1 >= d[j].1
  }

  /** Puts `e` before the first entry whose value does not exceed its own. */
  function InsertDesc(e: Entry, t: seq<Entry>): seq<Entry>
    decreases |t|
  {
    if |t| == 0 then [e]
    else if e.1 >= t[0].1 then [e] + t
    else [t[0]] + InsertDesc(e, t[1..])
  }

  lemma {:induction false} InsertDescSorted(e: Entry, t: seq<Entry>)
    requires NonIncreasing(t)
    ensures NonIncreasing(InsertDesc(e, t))
    ensures multiset(InsertDesc(e, t)) == multiset(t) + multiset{e}
    decreases |t|
  {
    if |t| > 0 && e.1 < t[0].1 {
      var tail := t[1..];
      assert NonIncreasing(tail) && forall k :: 0 <= k < |tail| ==> t[0].1 >= tail[k].1 by {
        forall i, j | 0 <= i < j < |tail| ensures tail[i].1 >= tail[j].1 {
          assert tail[i] == t[i + 1] && tail[j] == t[j + 1];
        }
        forall k | 0 <= k < |tail| ensures t[0].1 >= tail[k].1 {
          assert tail[k] == t[k + 1];
        }
      }
      InsertDescSorted(e, tail);
      assert t == [t[0]] + tail;
      InsertDescBound(t[0].1, tail, e);
      ConsNonIncreasing(t[0], InsertDesc(e, tail));
    }
  }

  /** A value at least `e`'s and every value of `tail` bounds every value of `tail` with `e` inserted. */
  lemma InsertDescBound(v: int, tail: seq<Entry>, e: Entry)
    requires v >= e.1
    requires forall k :: 0 <= k < |tail| ==> v >= tail[k].1
    requires multiset(InsertDesc(e, tail)) == multiset(tail) + multiset{e}
    ensures forall m :: 0 <= m < |InsertDesc(e, tail)| ==> v >= InsertDesc(e, tail)[m].1
  {
    var rest := InsertDesc(e, tail);
    forall m | 0 <= m < |rest| ensures v >= rest[m].1 {
      var x := rest[m];
      assert x in multiset(tail) + multiset{e};
      if x != e {
        assert x in tail;
      }
    }
  }

  /** A head at least as large as every entry of a non-increasing list can precede it. */
  lemma ConsNonIncreasing(h: Entry, rest: seq<Entry>)
    requires NonIncreasing(rest)
    requires forall m :: 0 <= m < |rest| ==> h.1 >= rest[m].1
    ensures NonIncreasing([h] + rest)
  {
    var r := [h] + rest;
    forall i, j | 0 <= i < j < |r| ensures r[i].1 >= r[j].1 {
      assert r[j] == rest[j - 1];
      if i > 0 {
        assert r[i] == rest[i - 1];
      }
    }
  }

  /** `sorted(d.items(), key=itemgetter(1), reverse=True)`. */
  function SortDesc(d: seq<Entry>): (r: seq<Entry>)
    ensures NonIncreasing(r)
    ensures multiset(r) == multiset(d)
    decreases |d|
  {
    if |d| == 0 then []
    else
      var t := SortDesc(d[1..]);
      InsertDescSorted(d[0], t);
      assert d == [d[0]] + d[1..];
      InsertDesc(d[0], t)
  }

  /** The entries with value `v`, in order. */
  function WithValue(d: seq<Entry>, v: int): seq<Entry>
    decreases |d|
  {
    if |d| == 0 then [] else (if d[0].1 == v then [d[0]] else []) + WithValue(d[1..], v)
  }

  lemma {:induction false} InsertDescStable(e: Entry, t: seq<Entry>, v: int)
    ensures WithValue(InsertDesc(e, t), v) == WithValue([e] + t, v)
    decreases |t|
  {
    if |t| > 0 && e.1 < t[0].1 {
      InsertDescStable(e, t[1..], v);
      assert ([t[0]] + InsertDesc(e, t[1..]))[1..] == InsertDesc(e, t[1..]);
      assert ([e] + t[1..])[1..] == t[1..];
      assert ([e] + t)[1..] == t;
    }
  }

  /**
   * The sort is stable: for every population value, the entries carrying it
   * come out in the order they had in the dictionary.
   */
  lemma {:induction false} SortDescStable(d: seq<Entry>, v: int)
    ensures WithValue(SortDesc(d), v) == WithValue(d, v)
    decreases |d|
  {
    if |d| > 0 {
      var t := SortDesc(d[1..]);
      SortDescStable(d[1..], v);
      InsertDescStable(d[0], t, v);
      assert ([d[0]] + t)[1..] == t;
    }
  }

  /** `x` occurs in `xs` at some position before one where `y` occurs. */
  predicate Before(x: Entry, y: Entry, xs: seq<Entry>) {
    exists a, b :: 0 <= a < b < |xs| && xs[a] == x && xs[b] == y
  }

  lemma BeforeShift(h: seq<Entry>, x: Entry, y: Entry, xs: seq<Entry>)
    requires Before(x, y, xs)
    ensures Before(x, y, h + xs)
  {
    var a, b :| 0 <= a < b < |xs| && xs[a] == x && xs[b] == y;
    assert (h + xs)[a + |h|] == x && (h + xs)[b + |h|] == y;
  }

  lemma {:induction false} WithValueHas(d: seq<Entry>, v: int, k: nat)
    requires k < |d| && d[k].1 == v
    ensures d[k] in WithValue(d, v)
    decreases |d|
  {
    if k > 0 {
      WithValueHas(d[1..], v, k - 1);
    }
  }

  lemma {:induction false} WithValueIn(d: seq<Entry>, v: int, e: Entry)
    requires e in WithValue(d, v)
    ensures e in d
    decreases |d|
  {
    if e != d[0] {
      WithValueIn(d[1..], v, e);
    }
  }

  /** Two entries of value `v` keep their relative order in the entries of value `v`. */
  lemma {:induction false} BeforeWithValue(d: seq<Entry>, i: nat, j: nat, v: int)
    requires i < j < |d| && d[i].1 == v && d[j].1 == v
    ensures Before(d[i], d[j], WithValue(d, v))
    decreases |d|
  {
    var rest := WithValue(d[1..], v);
    if i == 0 {
      assert WithValue(d, v) == [d[0]] + rest;
      WithValueHas(d[1..], v, j - 1);
      var b :| 0 <= b < |rest| && rest[b] == d[j];
      assert ([d[0]] + rest)[0] == d[i] && ([d[0]] + rest)[b + 1] == d[j];
    } else {
      var h := if d[0].1 == v then [d[0]] else [];
      assert WithValue(d, v) == h + rest;
      BeforeWithValue(d[1..], i - 1, j - 1, v);
      BeforeShift(h, d[i], d[j], rest);
    }
  }

  /** Order among the entries of value `v` is order in the whole list. */
  lemma {:induction false} BeforeFromWithValue(d: seq<Entry>, v: int, x: Entry, y: Entry)
    requires Before(x, y, WithValue(d, v))
    ensures Before(x, y, d)
    decreases |d|
  {
    var rest := WithValue(d[1..], v);
    var h := if d[0].1 == v then [d[0]] else [];
    assert WithValue(d, v) == h + rest;
    var a, b :| 0 <= a < b < |h + rest| && (h + rest)[a] == x && (h + rest)[b] == y;
    if a < |h| {
      assert x == d[0] && rest[b - 1] == y;
      WithValueIn(d[1..], v, y);
      var k :| 0 <= k < |d[1..]| && d[1..][k] == y;
      assert d[0] == x && d[k + 1] == y;
    } else {
      assert rest[a - |h|] == x && rest[b - |h|] == y;
      BeforeFromWithValue(d[1..], v, x, y);
      BeforeShift([d[0]], x, y, d[1..]);
      assert [d[0]] + d[1..] == d;
    }
  }

  /** `sorted(...)[:5]` of a list of items. */
  function TopFive(d: seq<Entry>): seq<Entry>
  {
    var r := SortDesc(d);
    if |r| <= 5 then r else r[..5]
  }

  /**
   * The chart data: as many bars as there are distinct names, at most five,
   * largest population first; every name left out has a population no larger
   * than the smallest bar; each bar's value is the population of the last
   * record with that name.
   */
  lemma TopFiveSpec(s: seq<Record>)
    requires AllWellFormed(s)
    ensures var d := BuildTable(s); var top := TopFive(Items(d));
      && |top| == (if |NameSet(s)| < 5 then |NameSet(s)| else 5)
      && NonIncreasing(top)
      && (forall e :: e in Items(d) && e !in top ==> |top| == 5 && e.1 <= top[4].1)
      && (forall e :: e in top ==> e.0 in NameSet(s) && e.1 == Population(s[LastWithName(s, e.0)]))
  {
    var d := BuildTable(s);
    TableSize(s);
    TableKeys(s);
    TableValues(s);
    TopFiveOfTable(Items(d));
  }

  /**
   * Bars of equal population appear in the order in which their names first
   * occur in the list, the dictionary's insertion order.
   */
  lemma TopFiveTies(s: seq<Record>)
    requires AllWellFormed(s)
    ensures var top := TopFive(Items(BuildTable(s))); var order := FirstSeen(Names(s));
      forall i, j :: 0 <= i < j < |top| && top[i].1 == top[j].1 ==>
        exists a, b :: 0 <= a < b < |order| && order[a] == top[i].0 && order[b] == top[j].0
  {
    var items := Items(BuildTable(s));
    var r := SortDesc(items);
    var top := TopFive(items);
    var order := FirstSeen(Names(s));
    TableOrder(s);
    forall i, j | 0 <= i < j < |top| && top[i].1 == top[j].1
      ensures exists a, b :: 0 <= a < b < |order| && order[a] == top[i].0 && order[b] == top[j].0
    {
      assert top[i] == r[i] && top[j] == r[j];
      BeforeWithValue(r, i, j, r[i].1);
      SortDescStable(items, r[i].1);
      BeforeFromWithValue(items, r[i].1, r[i], r[j]);
      var a, b :| 0 <= a < b < |items| && items[a] == r[i] && items[b] == r[j];
      assert order[a] == top[i].0 && order[b] == top[j].0;
    }
  }

  /** The same facts about any dictionary: the first five of the sorted items. */
  lemma TopFiveOfTable(d: seq<Entry>)
    ensures var top := TopFive(d);
      && |top| == (if |d| < 5 then |d| else 5)
      && NonIncreasing(top)
      && (forall e :: e in top ==> e in d)
      && (forall e :: e in d && e !in top ==> |top| == 5 && e.1 <= top[4].1)
  {
    var r := SortDesc(d);
    var top := TopFive(d);
    assert |r| == |multiset(r)| == |multiset(d)| == |d|;
    forall e | e in top ensures e in d {
      assert e in r;
      assert e in multiset(r);
    }
    forall e | e in d && e !in top ensures |top| == 5 && e.1 <= top[4].1 {
      assert e in multiset(r);
      var i :| 0 <= i < |r| && r[i] == e;
      assert i >= 5;
      assert top[4] == r[4];
    }
  }
}
