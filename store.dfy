/**
 * The record store: the program's module-level list `states`, and the
 * operations that read or change it in place.
 */
module Store {
  import opened Optional
  import opened Strings
  import opened Numbers
  import opened Records
  import opened Ordering
  import opened TopFive
  import opened Presentation

  /** `states.remove(x)`: the list without the first element equal to `x`. */
  function RemoveFirst(s: seq<Record>, x: Record): (r: seq<Record>)
    requires x in s
    ensures |r| == |s| - 1
    ensures multiset(r) == multiset(s) - multiset{x}
    decreases |s|
  {
    assert s == [s[0]] + s[1..];
    if s[0] == x then s[1..] else [s[0]] + RemoveFirst(s[1..], x)
  }

  /**
   * The list after an accepted update of `x` to population `n`: `x` removed,
   * its copy with the new population appended, the whole list sorted.
   */
  function Replaced(s: seq<Record>, x: Record, n: int): seq<Record>
    requires x in s && WellFormed(x)
  {
    Sort(RemoveFirst(s, x) + [WithPopulation(x, n)])
  }

  /**
   * An update keeps the number of records, swaps exactly one copy of `x` for
   * its copy with population `n` (all its other fields equal), keeps every
   * other record, and leaves the list sorted.
   */
  lemma ReplacedSpec(s: seq<Record>, x: Record, n: int)
    requires x in s && WellFormed(x)
    ensures var r, x' := Replaced(s, x, n), WithPopulation(x, n);
      && |r| == |s|
      && Sorted(r)
      && multiset(r) == multiset(s) - multiset{x} + multiset{x'}
      && x' in r
      && (AllWellFormed(s) ==> AllWellFormed(r))
  {
    var x' := WithPopulation(x, n);
    var u := RemoveFirst(s, x) + [x'];
    var r := Sort(u);
    SortSpec(u);
    assert |r| == |multiset(r)| == |multiset(u)| == |u|;
    assert x' in multiset(r);
    if AllWellFormed(s) {
      forall i | 0 <= i < |r| ensures WellFormed(r[i]) {
        assert r[i] in multiset(u);
        if r[i] != x' {
          assert r[i] in multiset(s);
          var j :| 0 <= j < |s| && s[j] == r[i];
        }
      }
    }
  }

  /** Taking one copy of `x` out and appending it again keeps the same records. */
  lemma RemoveAppend(s: seq<Record>, x: Record)
    requires x in s
    ensures multiset(RemoveFirst(s, x) + [x]) == multiset(s)
  {
    assert x in multiset(s);
  }

  /** Sorting keeps every record well formed. */
  lemma SortWellFormed(s: seq<Record>)
    requires AllWellFormed(s)
    ensures AllWellFormed(Sort(s))
  {
    var r := Sort(s);
    SortSpec(s);
    forall i | 0 <= i < |r| ensures WellFormed(r[i]) {
      assert r[i] in multiset(s);
    }
  }

  /** Applying the same update again to the updated record changes nothing. */
  lemma ReplacedIdempotent(s: seq<Record>, x: Record, n: int)
    requires x in s && WellFormed(x)
    ensures var r, x' := Replaced(s, x, n), WithPopulation(x, n);
      x' in r && Replaced(r, x', n) == r
  {
    var r, x' := Replaced(s, x, n), WithPopulation(x, n);
    ReplacedSpec(s, x, n);
    assert WithPopulation(x', n) == x';
    RemoveAppend(r, x');
    SortSpec(RemoveFirst(r, x') + [x']);
    SortedUnique(Sort(RemoveFirst(r, x') + [x']), r);
  }

  /**
   * How a prompt loop ends on the lines it is given: the value it settles on
   * (`None` when the lines run out first), how many lines it read, and the
   * messages it printed on the way.
   */
  datatype Prompted<T> = Prompted(value: Option<T>, consumed: nat, messages: seq<Event>)

  /** The outcome `rest` of the lines still to read, after `consumed` lines already read printed `messages`. */
  function After<T>(messages: seq<Event>, consumed: nat, rest: Prompted<T>): Prompted<T>
  {
    Prompted(rest.value, consumed + rest.consumed, messages + rest.messages)
  }

  /**
   * The re-prompt loop of `search`: each line, stripped, is looked up; the
   * first that finds a record ends the loop, every one before it prints
   * "Invalid input.".
   */
  function AskFrom(s: seq<Record>, lines: seq<string>): Prompted<Record>
    requires forall i :: 0 <= i < |s| ==> |s[i]| >= 1
    decreases |lines|
  {
    if |lines| == 0 then Prompted(None, 0, [])
    else
      var found := Lookup(s, Strip(lines[0]));
      if found.Some? then Prompted(found, 1, [])
      else After([Print(InvalidInput)], 1, AskFrom(s, lines[1..]))
  }

  /**
   * `search` stops at the first line that names a record and returns that
   * record; each line before it names none and gets one "Invalid input.";
   * when no line names a record, every line is read and rejected.
   */
  lemma {:induction false} AskFromSpec(s: seq<Record>, lines: seq<string>)
    requires forall i :: 0 <= i < |s| ==> |s[i]| >= 1
    ensures var r := AskFrom(s, lines); var k := |r.messages|;
      && k <= |lines|
      && (forall j :: 0 <= j < k ==> Lookup(s, Strip(lines[j])).None? && r.messages[j] == Print(InvalidInput))
      && (r.value.None? ==> r.consumed == k == |lines|)
      && (r.value.Some? ==> r.consumed == k + 1 && k < |lines| && r.value == Lookup(s, Strip(lines[k])))
    decreases |lines|
  {
    if |lines| > 0 && Lookup(s, Strip(lines[0])).None? {
      var rest := AskFrom(s, lines[1..]);
      AskFromSpec(s, lines[1..]);
      var r := AskFrom(s, lines);
      assert r.messages == [Print(InvalidInput)] + rest.messages;
      forall j | 0 < j < |r.messages|
        ensures Lookup(s, Strip(lines[j])).None? && r.messages[j] == Print(InvalidInput)
      {
        assert lines[j] == lines[1..][j - 1] && r.messages[j] == rest.messages[j - 1];
      }
      if rest.value.Some? {
        assert lines[|r.messages|] == lines[1..][|rest.messages|];
      }
    }
  }

  /** `search` reads no more lines than it is given and returns a record of the list. */
  lemma AskFromFound(s: seq<Record>, lines: seq<string>)
    requires forall i :: 0 <= i < |s| ==> |s[i]| >= 1
    ensures var r := AskFrom(s, lines);
      && r.consumed <= |lines|
      && (r.value.Some? ==> r.value.value in s)
  {
    AskFromSpec(s, lines);
  }

  /** A population line `update_states` accepts: an integer, and not negative. */
  predicate Accepted(line: string) {
    ParseInt(line).Some? && ParseInt(line).value >= 0
  }

  /** What `update_states` prints for a line it rejects. */
  function RejectionMessage(line: string): string
  {
    if ParseInt(line).None? then InvalidInput else NonNegative
  }

  /**
   * The input loop of `update_states`: the first accepted line ends it with
   * its number; every line before it prints its rejection message.
   */
  function ReadFrom(lines: seq<string>): Prompted<int>
    decreases |lines|
  {
    if |lines| == 0 then Prompted(None, 0, [])
    else if Accepted(lines[0]) then Prompted(ParseInt(lines[0]), 1, [])
    else After([Print(RejectionMessage(lines[0]))], 1, ReadFrom(lines[1..]))
  }

  /**
   * `update_states` stops at the first non-negative integer and uses it;
   * each line before it is rejected with "Invalid input." (not an integer)
   * or "Population must be non-negative." (a negative one); when no line is
   * accepted, every line is read and rejected.
   */
  lemma {:induction false} ReadFromSpec(lines: seq<string>)
    ensures var r := ReadFrom(lines); var k := |r.messages|;
      && k <= |lines|
      && (forall j :: 0 <= j < k ==> !Accepted(lines[j]) && r.messages[j] == Print(RejectionMessage(lines[j])))
      && (r.value.None? ==> r.consumed == k == |lines|)
      && (r.value.Some? ==> r.consumed == k + 1 && k < |lines| && Accepted(lines[k]) && r.value == ParseInt(lines[k]))
    decreases |lines|
  {
    if |lines| > 0 && !Accepted(lines[0]) {
      var rest := ReadFrom(lines[1..]);
      ReadFromSpec(lines[1..]);
      var r := ReadFrom(lines);
      assert r.messages == [Print(RejectionMessage(lines[0]))] + rest.messages;
      forall j | 0 < j < |r.messages|
        ensures !Accepted(lines[j]) && r.messages[j] == Print(RejectionMessage(lines[j]))
      {
        assert lines[j] == lines[1..][j - 1] && r.messages[j] == rest.messages[j - 1];
      }
      if rest.value.Some? {
        assert lines[|r.messages|] == lines[1..][|rest.messages|];
      }
    }
  }

  /** What a run of `update_states` leaves: the list, the lines read, the messages, and whether an update happened. */
  datatype Updated = Updated(states: seq<Record>, consumed: nat, messages: seq<Event>, done: bool)

  /**
   * `update_states` for the record `x` of `s`, on the lines `lines`: the
   * first accepted number becomes the population of `x` and the confirmation
   * follows the rejection messages; when the lines run out first, nothing
   * changes.
   */
  function UpdateFrom(s: seq<Record>, x: Record, lines: seq<string>): (u: Updated)
    requires AllWellFormed(s) && x in s
    ensures u.consumed <= |lines| && AllWellFormed(u.states) && |u.states| == |s|
    ensures !u.done ==> u.states == s && u.consumed == |lines|
  {
    var r := ReadFrom(lines);
    ReadFromSpec(lines);
    if r.value.None? then Updated(s, r.consumed, r.messages, false)
    else
      var n := r.value.value;
      ReplacedSpec(s, x, n);
      Updated(Replaced(s, x, n), r.consumed, r.messages + [Print(Confirmation(WithPopulation(x, n)))], true)
  }

  /** An update happens exactly when some line is accepted; otherwise the list is left as it was. */
  lemma UpdateFromDone(s: seq<Record>, x: Record, lines: seq<string>)
    requires AllWellFormed(s) && x in s
    ensures var u := UpdateFrom(s, x, lines);
      && (u.done <==> exists k :: 0 <= k < |lines| && Accepted(lines[k]))
      && (!u.done ==> u.states == s && u.messages == ReadFrom(lines).messages)
  {
    ReadFromSpec(lines);
  }

  /**
   * The input loop of `update_states`, reading `inputs` from `pos` on
   * (the caller does the update with the number it returns).
   */
  method ReadPopulation(inputs: seq<string>, pos: nat) returns (population: Option<int>, next: nat, out: seq<Event>)
    requires pos <= |inputs|
    ensures pos <= next <= |inputs|
    ensures Prompted(population, next - pos, out) == ReadFrom(inputs[pos..])
  {
    next, out := pos, [];
    while next < |inputs|
      invariant pos <= next <= |inputs|
      invariant ReadFrom(inputs[pos..]) == After(out, next - pos, ReadFrom(inputs[next..]))
      decreases |inputs| - next
    {
      var line := inputs[next];
      assert inputs[next..][0] == line && inputs[next..][1..] == inputs[next + 1..];
      population := ParseInt(line);
      if population.Some? && population.value >= 0 {
        next := next + 1;
        assert out + [] == out;
        return;
      }
      var message := Print(if population.None? then InvalidInput else NonNegative);
      assert out + ([message] + ReadFrom(inputs[next + 1..]).messages) == (out + [message]) + ReadFrom(inputs[next + 1..]).messages;
      out := out + [message];
      next := next + 1;
    }
    assert inputs[next..] == [] && out + [] == out;
    population := None;
  }

  class StateStore {
    /** The records, in the order the list currently has. */
    var states: seq<Record>

    /** Every record can be displayed, charted and updated without an error. */
    ghost predicate Valid()
      reads this
    {
      AllWellFormed(states)
    }

    /** The list as loaded from the lines of the data file, one record per line, in file order. */
    constructor Load(lines: seq<string>)
      requires forall i :: 0 <= i < |lines| ==> WellFormed(ParseRecord(lines[i]))
      ensures Valid()
      ensures |states| == |lines|
      ensures forall i :: 0 <= i < |lines| ==> states[i] == ParseRecord(lines[i])
    {
      var loaded := LoadRecords(lines);
      states := loaded;
    }

    /** `display_states`: sorts the list in place, then prints the headings and one row per record. */
    method DisplayStates() returns (out: seq<Event>)
      requires Valid()
      modifies this
      ensures Valid()
      ensures states == Sort(old(states))
      ensures out == TableEvents(states)
    {
      var sorted := Sort(states);
      SortWellFormed(states);
      var rows: seq<Event> := [];
      for i := 0 to |sorted|
        invariant rows == Rows(sorted[..i])
      {
        assert sorted[..i + 1][..i] == sorted[..i];
        rows := rows + [Print(Row(sorted[i]))];
      }
      assert sorted[..|sorted|] == sorted;
      states := sorted;
      out := [Print(Header), Print(Rule)] + rows;
    }

    /**
     * One pass of the loop in `search` over the list: the copy of the last
     * record whose upper-cased name equals the upper-cased query, or `None`
     * when no name matches.
     */
    method Search(query: string) returns (found: Option<Record>)
      requires Valid()
      ensures found == Lookup(states, query)
    {
      var isValid := false;
      var last: Record := [];
      for i := 0 to |states|
        invariant isValid <==> LastMatch(states[..i], query) >= 0
        invariant isValid ==> last == states[LastMatch(states[..i], query)]
      {
        assert states[..i + 1][..i] == states[..i];
        if Matches(query, states[i]) {
          last := states[i];
          isValid := true;
        }
      }
      assert states[..|states|] == states;
      found := if isValid then Some(last) else None;
    }

    /**
     * `search`: reads one query line after another from `inputs`, starting at
     * `pos`, until one, stripped, names a record or the input runs out.
     * Nothing is changed.
     */
    method SearchPrompt(inputs: seq<string>, pos: nat) returns (found: Option<Record>, next: nat, out: seq<Event>)
      requires Valid() && pos <= |inputs|
      ensures pos <= next <= |inputs|
      ensures Prompted(found, next - pos, out) == AskFrom(states, inputs[pos..])
    {
      found, next, out := None, pos, [];
      while next < |inputs|
        invariant pos <= next <= |inputs|
        invariant found.None?
        invariant AskFrom(states, inputs[pos..]) == After(out, next - pos, AskFrom(states, inputs[next..]))
        decreases |inputs| - next
      {
        var line := inputs[next];
        assert inputs[next..][0] == line && inputs[next..][1..] == inputs[next + 1..];
        found := Search(Strip(line));
        if found.Some? {
          next := next + 1;
          assert out + [] == out;
          return;
        }
        var message := Print(InvalidInput);
        assert out + ([message] + AskFrom(states, inputs[next + 1..]).messages) == (out + [message]) + AskFrom(states, inputs[next + 1..]).messages;
        out := out + [message];
        next := next + 1;
      }
      assert inputs[next..] == [] && out + [] == out;
    }

    /** Lines 164-167 of `update_states`: remove the record, set its population, append it, sort. */
    method ReplacePopulation(state: Record, n: int)
      requires Valid() && state in states
      modifies this
      ensures Valid()
      ensures states == Replaced(old(states), state, n)
    {
      ReplacedSpec(states, state, n);
      states := RemoveFirst(states, state);
      var updated := WithPopulation(state, n);
      states := states + [updated];
      states := Sort(states);
    }

    /**
     * `update_states`: reads population lines from `inputs`, starting at
     * `pos`, as `ReadFrom` describes; the accepted number replaces the
     * record's population and the confirmation follows the rejection
     * messages. `done` is false when the input ran out first, and then
     * nothing changes.
     */
    method UpdatePopulation(state: Record, inputs: seq<string>, pos: nat) returns (next: nat, out: seq<Event>, done: bool)
      requires Valid() && state in states && pos <= |inputs|
      modifies this
      ensures Valid()
      ensures pos <= next <= |inputs|
      ensures Updated(states, next - pos, out, done) == UpdateFrom(old(states), state, inputs[pos..])
    {
      var population;
      population, next, out := ReadPopulation(inputs, pos);
      done := population.Some?;
      if done {
        ReplacePopulation(state, population.value);
        out := out + [Print(Confirmation(WithPopulation(state, population.value)))];
      }
    }

    /** `bar_graph`: the chart of the first five items of the population dictionary, largest first. */
    method BarGraph() returns (chart: Event)
      requires Valid()
      ensures chart == ChartEvent(TopFive.TopFive(Items(BuildTable(states))))
    {
      var table := PopulationTable(states);
      chart := ChartEvent(TopFive.TopFive(Items(table)));
    }
  }
}
