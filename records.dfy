/**
 * A state record as the program holds it: the Python list obtained by
 * stripping one line of the data file and splitting it on commas,
 * `[name, capital, population, flower, image]`.
 */
module Records {
  import opened Optional
  import opened Strings
  import opened Numbers

  type Record = seq<string>

  /** `line.strip().split(',')`: one field per comma-separated piece of the stripped line. */
  function ParseRecord(line: string): (r: Record)
    ensures |r| >= 1
    ensures Join(r, ',') == Strip(line)
    ensures forall i :: 0 <= i < |r| ==> ',' !in r[i]
  {
    JoinSplit(Strip(line), ',');
    SplitCount(Strip(line), ',');
    Split(Strip(line), ',')
  }

  /**
   * The load loop: one record per line of the file, in file order.
   * (Opening and reading the file is outside the model; `lines` are its lines.)
   */
  method LoadRecords(lines: seq<string>) returns (states: seq<Record>)
    ensures |states| == |lines|
    ensures forall i :: 0 <= i < |lines| ==> states[i] == ParseRecord(lines[i])
  {
    states := [];
    for k := 0 to |lines|
      invariant |states| == k
      invariant forall i :: 0 <= i < k ==> states[i] == ParseRecord(lines[i])
    {
      states := states + [ParseRecord(lines[k])];
    }
  }

  /**
   * A record the display, chart and update code can use without raising:
   * at least five fields, and a population field that `int()` accepts.
   */
  predicate WellFormed(r: Record) {
    |r| >= 5 && ParseInt(r[2]).Some?
  }

  predicate AllWellFormed(s: seq<Record>) {
    forall i :: 0 <= i < |s| ==> WellFormed(s[i])
  }

  /** `int(state[2])`. */
  function Population(r: Record): int
    requires WellFormed(r)
  {
    ParseInt(r[2]).value
  }

  /** `state[2] = str(n)` applied to a copy: the population field replaced, the rest untouched. */
  function WithPopulation(r: Record, n: int): (r': Record)
    requires WellFormed(r)
    ensures WellFormed(r') && Population(r') == n && r'[2] == IntToString(n)
    ensures |r'| == |r| && forall i :: 0 <= i < |r| && i != 2 ==> r'[i] == r[i]
  {
    ParseIntRoundTrip(n);
    r[2 := IntToString(n)]
  }

  /** The comparison `search` makes: stripped query and name, both upper-cased, are equal. */
  predicate Matches(query: string, r: Record)
    requires |r| >= 1
  {
    Upper(query) == Upper(r[0])
  }

  /**
   * The index of the last record whose name matches `query`, or -1 if none
   * does: the record the loop without `break` in `search` ends up copying.
   */
  function LastMatch(s: seq<Record>, query: string): (k: int)
    requires forall i :: 0 <= i < |s| ==> |s[i]| >= 1
    ensures -1 <= k < |s|
    decreases |s|
  {
    if |s| == 0 then -1
    else if Matches(query, s[|s| - 1]) then |s| - 1
    else LastMatch(s[..|s| - 1], query)
  }

  /** The index found names a matching record, and no record after it matches. */
  lemma {:induction false} LastMatchSpec(s: seq<Record>, query: string)
    requires forall i :: 0 <= i < |s| ==> |s[i]| >= 1
    ensures var k := LastMatch(s, query);
      && (k >= 0 ==> Matches(query, s[k]))
      && (forall j :: k < j < |s| ==> !Matches(query, s[j]))
    decreases |s|
  {
    if |s| > 0 && !Matches(query, s[|s| - 1]) {
      var p := s[..|s| - 1];
      LastMatchSpec(p, query);
      assert forall j :: 0 <= j < |p| ==> p[j] == s[j];
    }
  }

  /** What `search` makes of one query: a copy of the last record whose name matches, if any. */
  function Lookup(s: seq<Record>, query: string): Option<Record>
    requires forall i :: 0 <= i < |s| ==> |s[i]| >= 1
  {
    var k := LastMatch(s, query);
    if k >= 0 then Some(s[k]) else None
  }

  /** A query finds nothing exactly when no record's name matches it. */
  lemma LookupNone(s: seq<Record>, query: string)
    requires forall i :: 0 <= i < |s| ==> |s[i]| >= 1
    ensures Lookup(s, query).None? <==> forall i :: 0 <= i < |s| ==> !Matches(query, s[i])
  {
    LastMatchSpec(s, query);
  }

  /** A query and a variant of it that differs only in letter case find the same record. */
  lemma {:induction false} LookupCaseInsensitive(s: seq<Record>, q1: string, q2: string)
    requires forall i :: 0 <= i < |s| ==> |s[i]| >= 1
    requires |q1| == |q2| && forall i :: 0 <= i < |q1| ==> SameIgnoringCase(q1[i], q2[i])
    ensures Lookup(s, q1) == Lookup(s, q2)
  {
    UpperEqual(q1, q2);
    SameUpperSameMatch(s, q1, q2);
  }

  /** Queries that upper-case alike end the search on the same index. */
  lemma {:induction false} SameUpperSameMatch(s: seq<Record>, q1: string, q2: string)
    requires forall i :: 0 <= i < |s| ==> |s[i]| >= 1
    requires Upper(q1) == Upper(q2)
    ensures LastMatch(s, q1) == LastMatch(s, q2)
    decreases |s|
  {
    if |s| > 0 {
      SameUpperSameMatch(s[..|s| - 1], q1, q2);
    }
  }

  /** The names of the records, in list order. */
  function Names(s: seq<Record>): (ns: seq<string>)
    requires forall i :: 0 <= i < |s| ==> |s[i]| >= 1
    ensures |ns| == |s| && forall i :: 0 <= i < |s| ==> ns[i] == s[i][0]
  {
    seq(|s|, i requires 0 <= i < |s| => s[i][0])
  }

  lemma NamesSnoc(p: seq<Record>, r: Record)
    requires forall i :: 0 <= i < |p| ==> |p[i]| >= 1
    requires |r| >= 1
    ensures Names(p + [r]) == Names(p) + [r[0]]
  {
    assert |Names(p + [r])| == |Names(p) + [r[0]]|;
    forall i | 0 <= i < |p| + 1 ensures Names(p + [r])[i] == (Names(p) + [r[0]])[i] {
      if i < |p| { assert (p + [r])[i] == p[i]; }
    }
  }

  /**
   * The index of the last record named exactly `name`: the record whose
   * population survives in a dictionary filled in list order.
   */
  function LastWithName(s: seq<Record>, name: string): (k: int)
    requires forall i :: 0 <= i < |s| ==> |s[i]| >= 1
    requires name in Names(s)
    ensures 0 <= k < |s| && s[k][0] == name
    ensures forall j :: k < j < |s| ==> s[j][0] != name
    decreases |s|
  {
    if s[|s| - 1][0] == name then |s| - 1
    else
      assert name in Names(s[..|s| - 1]) by {
        var i :| 0 <= i < |s| && Names(s)[i] == name;
        assert Names(s[..|s| - 1])[i] == name;
      }
      LastWithName(s[..|s| - 1], name)
  }
}
