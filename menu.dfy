/**
 * The menu-driven session: `main` prints the welcome message, then shows the
 * menu and reads a selection until option 5 ends the program;
 * `process_selection` runs the chosen operation on the record store.
 *
 * `Session` is the whole session as a function of the records and the lines
 * typed at the console; `Run` performs it on a `StateStore` and is proved to
 * print, and to leave behind, exactly what `Session` says.
 */
module Menu {
  import opened Optional
  import opened Strings
  import opened Numbers
  import opened Records
  import opened Ordering
  import opened TopFive
  import opened Presentation
  import opened Store

  /** The five menu options, and anything else. */
  datatype Command = ShowAll | SearchOne | Chart | Update | Exit | Unknown

  /** The `if`/`elif` chain of `process_selection`: option `n` of the menu. */
  function Dispatch(n: int): Command
  {
    if n == 1 then ShowAll
    else if n == 2 then SearchOne
    else if n == 3 then Chart
    else if n == 4 then Update
    else if n == 5 then Exit
    else Unknown
  }

  /** The number the menu lists each option under. */
  function Code(c: Command): (n: int)
    requires c != Unknown
    ensures 1 <= n <= 5
  {
    match c
    case ShowAll => 1
    case SearchOne => 2
    case Chart => 3
    case Update => 4
    case Exit => 5
  }

  /**
   * Every option is reached by its own number and by no other, and every
   * number outside 1 to 5 falls through to "Invalid input.".
   */
  lemma DispatchCode(n: int, c: Command)
    ensures c != Unknown ==> Dispatch(Code(c)) == c
    ensures Dispatch(n) != Unknown <==> 1 <= n <= 5
    ensures Dispatch(n) != Unknown ==> Code(Dispatch(n)) == n
  {
  }

  /** Why a session ended: option 5 was chosen, or a prompt found no more input. */
  datatype Phase = Exited | OutOfInput

  /**
   * One selection and what it leads to: the events it produces, the position
   * of the next unread line, whether the session ends there, and the list
   * afterwards.
   */
  datatype Turn = Turn(events: seq<Event>, next: nat, stop: Option<Phase>, states: seq<Record>)

  /** The records, the events printed and why it ended: the result of a whole session. */
  datatype Outcome = Outcome(events: seq<Event>, phase: Phase, states: seq<Record>)

  /** Option 1: a blank line, then `display_states`, which sorts the list and prints the table. */
  function ShowAllTurn(s: seq<Record>, pos: nat): (t: Turn)
    requires AllWellFormed(s)
    ensures t.next == pos + 1 && AllWellFormed(t.states)
  {
    SortWellFormed(s);
    Turn([Print("")] + TableEvents(Sort(s)), pos + 1, None, Sort(s))
  }

  /**
   * Option 2: `search` reads query lines from `pos + 1` on, then
   * `dispaly_a_state` shows the record found. Running out of lines ends the
   * session.
   */
  function SearchTurn(s: seq<Record>, inputs: seq<string>, pos: nat): (t: Turn)
    requires AllWellFormed(s) && pos < |inputs|
    ensures pos < t.next <= |inputs| && t.states == s
  {
    var a := AskFrom(s, inputs[pos + 1..]);
    AskFromFound(s, inputs[pos + 1..]);
    if a.value.None? then Turn(a.messages, |inputs|, Some(OutOfInput), s)
    else Turn(a.messages + StateEvents(a.value.value), pos + 1 + a.consumed, None, s)
  }

  /**
   * What option 2 prints: one "Invalid input." per query line that names no
   * record, then, at the first line that names one, the state's table and
   * flower picture. If no line names a record, every line is rejected and
   * the session ends.
   */
  lemma SearchTurnShows(s: seq<Record>, inputs: seq<string>, pos: nat)
    requires AllWellFormed(s) && pos < |inputs|
    ensures var t := SearchTurn(s, inputs, pos); var k := t.next - 1;
      && (t.stop.None? ==>
        && pos < k < |inputs|
        && Lookup(s, Strip(inputs[k])).Some?
        && (forall j :: pos < j < k ==> Lookup(s, Strip(inputs[j])).None?)
        && |t.events| == k - pos - 1 + 4
        && (forall j :: 0 <= j < k - pos - 1 ==> t.events[j] == Print(InvalidInput))
        && t.events[k - pos - 1..] == StateEvents(Lookup(s, Strip(inputs[k])).value))
      && (t.stop.Some? ==>
        && t.stop.value == OutOfInput
        && (forall j :: pos < j < |inputs| ==> Lookup(s, Strip(inputs[j])).None?)
        && t.events == seq(|inputs| - pos - 1, _ => Print(InvalidInput)))
  {
    var lines := inputs[pos + 1..];
    AskFromSpec(s, lines);
    var a := AskFrom(s, lines);
    forall j | pos < j < |inputs| ensures inputs[j] == lines[j - pos - 1] {
    }
  }

  /**
   * Option 4: `search` finds the record, then `update_states` reads
   * population lines until one is accepted and updates the list. Running out
   * of lines at either prompt ends the session.
   */
  function UpdateTurn(s: seq<Record>, inputs: seq<string>, pos: nat): (t: Turn)
    requires AllWellFormed(s) && pos < |inputs|
    ensures pos < t.next <= |inputs| && AllWellFormed(t.states) && |t.states| == |s|
  {
    var a := AskFrom(s, inputs[pos + 1..]);
    AskFromFound(s, inputs[pos + 1..]);
    if a.value.None? then Turn(a.messages, |inputs|, Some(OutOfInput), s)
    else
      var at := pos + 1 + a.consumed;
      FoundTurn(a.messages, at, UpdateFrom(s, a.value.value, inputs[at..]))
  }

  /**
   * The rest of option 4 once `search` has printed `shown` and found its
   * record, with `u` what `update_states` did from line `at` on. Running out
   * of lines ends the session.
   */
  function FoundTurn(shown: seq<Event>, at: nat, u: Updated): Turn
  {
    Turn(shown + u.messages, at + u.consumed, if u.done then None else Some(OutOfInput), u.states)
  }

  /**
   * One pass of `main`'s loop after the menu is shown: the selection line at
   * `pos` is read with `int()`, and `process_selection` runs the option.
   */
  function TakeTurn(s: seq<Record>, inputs: seq<string>, pos: nat): (t: Turn)
    requires AllWellFormed(s) && pos < |inputs|
    ensures pos < t.next <= |inputs|
    ensures AllWellFormed(t.states)
  {
    var selection := ParseInt(inputs[pos]);
    if selection.None? then Turn([Print(InvalidInput)], pos + 1, None, s)
    else match Dispatch(selection.value)
      case ShowAll => ShowAllTurn(s, pos)
      case SearchOne => SearchTurn(s, inputs, pos)
      case Chart => Turn([ChartEvent(TopFive.TopFive(Items(BuildTable(s))))], pos + 1, None, s)
      case Update => UpdateTurn(s, inputs, pos)
      case Exit => Turn([Print(Farewell)], pos + 1, Some(Exited), s)
      case Unknown => Turn([Print(InvalidInput)], pos + 1, None, s)
  }

  /** `main`'s loop from the line at `pos` on: the menu, a turn, and so on until the session ends. */
  function Loop(s: seq<Record>, inputs: seq<string>, pos: nat): Outcome
    requires AllWellFormed(s) && pos <= |inputs|
    decreases |inputs| - pos
  {
    if pos == |inputs| then Outcome([Print(MenuText)], OutOfInput, s)
    else
      var t := TakeTurn(s, inputs, pos);
      if t.stop.Some? then Outcome([Print(MenuText)] + t.events, t.stop.value, t.states)
      else
        var rest := Loop(t.states, inputs, t.next);
        Outcome([Print(MenuText)] + t.events + rest.events, rest.phase, rest.states)
  }

  /** `main`: the welcome message, then the menu loop from the first line typed. */
  function Session(s: seq<Record>, inputs: seq<string>): Outcome
    requires AllWellFormed(s)
  {
    var rest := Loop(s, inputs, 0);
    Outcome([Print(Welcome)] + rest.events, rest.phase, rest.states)
  }

  /** No turn adds or loses a record: the list keeps its length. */
  lemma TurnKeepsCount(s: seq<Record>, inputs: seq<string>, pos: nat)
    requires AllWellFormed(s) && pos < |inputs|
    ensures |TakeTurn(s, inputs, pos).states| == |s|
  {
    var selection := ParseInt(inputs[pos]);
    if selection.Some? && Dispatch(selection.value) == ShowAll {
      SortSpec(s);
      assert |Sort(s)| == |multiset(Sort(s))| == |multiset(s)| == |s|;
    }
  }

  /** A whole session ends with as many records as it started with. */
  lemma {:induction false} LoopKeepsCount(s: seq<Record>, inputs: seq<string>, pos: nat)
    requires AllWellFormed(s) && pos <= |inputs|
    ensures |Loop(s, inputs, pos).states| == |s|
    decreases |inputs| - pos
  {
    if pos < |inputs| {
      var t := TakeTurn(s, inputs, pos);
      TurnKeepsCount(s, inputs, pos);
      if t.stop.None? {
        LoopKeepsCount(t.states, inputs, t.next);
      }
    }
  }

  /** A session that ends by option 5 ends with the farewell message, printed last. */
  lemma {:induction false} ExitSaysFarewell(s: seq<Record>, inputs: seq<string>, pos: nat)
    requires AllWellFormed(s) && pos <= |inputs|
    ensures var r := Loop(s, inputs, pos);
      r.phase == Exited ==> |r.events| > 0 && r.events[|r.events| - 1] == Print(Farewell)
    decreases |inputs| - pos
  {
    if pos < |inputs| {
      var t := TakeTurn(s, inputs, pos);
      if t.stop.None? {
        ExitSaysFarewell(t.states, inputs, t.next);
      } else if t.stop == Some(Exited) {
        var selection := ParseInt(inputs[pos]);
        assert selection.Some? && Dispatch(selection.value) == Exit;
      }
    }
  }

  /**
   * A selection `int()` rejects, or a number that is no option, prints
   * "Invalid input." and changes nothing; the menu is shown again.
   */
  lemma InvalidSelection(s: seq<Record>, inputs: seq<string>, pos: nat)
    requires AllWellFormed(s) && pos < |inputs|
    requires ParseInt(inputs[pos]).None? || !(1 <= ParseInt(inputs[pos]).value <= 5)
    ensures TakeTurn(s, inputs, pos) == Turn([Print(InvalidInput)], pos + 1, None, s)
  {
  }

  /** Selection 5 prints the farewell, changes nothing and ends the session. */
  lemma ExitSelection(s: seq<Record>, inputs: seq<string>, pos: nat)
    requires AllWellFormed(s) && pos < |inputs|
    requires ParseInt(inputs[pos]) == Some(5)
    ensures TakeTurn(s, inputs, pos) == Turn([Print(Farewell)], pos + 1, Some(Exited), s)
    ensures Loop(s, inputs, pos) == Outcome([Print(MenuText), Print(Farewell)], Exited, s)
  {
    assert Dispatch(5) == Exit;
    assert TakeTurn(s, inputs, pos) == Turn([Print(Farewell)], pos + 1, Some(Exited), s);
    assert [Print(MenuText)] + [Print(Farewell)] == [Print(MenuText), Print(Farewell)];
  }

  /** Option 2 on the store: `search`, then `dispaly_a_state`. Nothing is changed. */
  method SearchSelected(store: StateStore, inputs: seq<string>, pos: nat) returns (events: seq<Event>, next: nat, stop: Option<Phase>)
    requires store.Valid() && pos < |inputs|
    ensures Turn(events, next, stop, store.states) == SearchTurn(store.states, inputs, pos)
  {
    var found, after, messages := store.SearchPrompt(inputs, pos + 1);
    if found.None? {
      events, next, stop := messages, |inputs|, Some(OutOfInput);
    } else {
      AskFromFound(store.states, inputs[pos + 1..]);
      events, next, stop := messages + StateEvents(found.value), after, None;
    }
  }

  /** Option 4 on the store: `search`, then `update_states`. */
  method UpdateSelected(store: StateStore, inputs: seq<string>, pos: nat) returns (events: seq<Event>, next: nat, stop: Option<Phase>)
    requires store.Valid() && pos < |inputs|
    modifies store
    ensures store.Valid()
    ensures Turn(events, next, stop, store.states) == UpdateTurn(old(store.states), inputs, pos)
  {
    ghost var s := store.states;
    var found, after, messages := store.SearchPrompt(inputs, pos + 1);
    if found.None? {
      events, next, stop := messages, |inputs|, Some(OutOfInput);
      assert AskFrom(s, inputs[pos + 1..]).value.None?;
      return;
    }
    AskFromFound(s, inputs[pos + 1..]);
    UpdateTurnFound(s, inputs, pos, found.value, after, messages);
    var rest, done;
    next, rest, done := store.UpdatePopulation(found.value, inputs, after);
    events := messages + rest;
    stop := if done then None else Some(OutOfInput);
  }

  /** Once `search` has printed `shown` and found `x`, option 4 goes on as `update_states` for `x` from line `at` on. */
  lemma UpdateTurnFound(s: seq<Record>, inputs: seq<string>, pos: nat, x: Record, at: nat, shown: seq<Event>)
    requires AllWellFormed(s) && pos < at <= |inputs| && x in s
    requires AskFrom(s, inputs[pos + 1..]) == Prompted(Some(x), at - pos - 1, shown)
    ensures UpdateTurn(s, inputs, pos) == FoundTurn(shown, at, UpdateFrom(s, x, inputs[at..]))
  {
    var a := AskFrom(s, inputs[pos + 1..]);
    assert inputs[pos + 1 + a.consumed..] == inputs[at..];
    assert UpdateFrom(s, a.value.value, inputs[pos + 1 + a.consumed..]) == UpdateFrom(s, x, inputs[at..]);
  }

  /**
   * `process_selection` after `main` has read the selection line at `pos`:
   * runs the chosen operation on `store` and reports what `TakeTurn` says.
   */
  method ProcessSelection(store: StateStore, inputs: seq<string>, pos: nat) returns (events: seq<Event>, next: nat, stop: Option<Phase>)
    requires store.Valid() && pos < |inputs|
    modifies store
    ensures store.Valid()
    ensures Turn(events, next, stop, store.states) == TakeTurn(old(store.states), inputs, pos)
  {
    var selection := ParseInt(inputs[pos]);
    if selection.None? {
      return [Print(InvalidInput)], pos + 1, None;
    }
    match Dispatch(selection.value)
    case ShowAll =>
      var table := store.DisplayStates();
      events, next, stop := [Print("")] + table, pos + 1, None;
    case SearchOne =>
      events, next, stop := SearchSelected(store, inputs, pos);
    case Chart =>
      var chart := store.BarGraph();
      events, next, stop := [chart], pos + 1, None;
    case Update =>
      events, next, stop := UpdateSelected(store, inputs, pos);
    case Exit =>
      events, next, stop := [Print(Farewell)], pos + 1, Some(Exited);
    case Unknown =>
      events, next, stop := [Print(InvalidInput)], pos + 1, None;
  }

  /**
   * One pass of `main`'s loop on the store: the menu, then the selection at
   * `pos`. What it prints, followed by what the rest of the loop prints,
   * is what `Loop` prints from `pos`.
   */
  method Round(store: StateStore, inputs: seq<string>, pos: nat) returns (events: seq<Event>, next: nat, stop: Option<Phase>)
    requires store.Valid() && pos < |inputs|
    modifies store
    ensures store.Valid() && pos < next <= |inputs|
    ensures var whole := Loop(old(store.states), inputs, pos);
      stop.Some? ==> whole == Outcome(events, stop.value, store.states)
    ensures var whole, rest := Loop(old(store.states), inputs, pos), Loop(store.states, inputs, next);
      stop.None? ==> whole == Outcome(events + rest.events, rest.phase, rest.states)
  {
    var turn;
    turn, next, stop := ProcessSelection(store, inputs, pos);
    events := [Print(MenuText)] + turn;
  }

  /**
   * `main`: the welcome message, then the menu and one selection after
   * another, until option 5 or the end of the input. What it prints and
   * the list it leaves are those of `Session`.
   */
  method Run(store: StateStore, inputs: seq<string>) returns (out: seq<Event>, phase: Phase)
    requires store.Valid()
    modifies store
    ensures store.Valid()
    ensures Outcome(out, phase, store.states) == Session(old(store.states), inputs)
  {
    out := [Print(Welcome)];
    var pos := 0;
    while pos < |inputs|
      invariant store.Valid() && pos <= |inputs|
      invariant var rest := Loop(store.states, inputs, pos);
        Session(old(store.states), inputs) == Outcome(out + rest.events, rest.phase, rest.states)
      decreases |inputs| - pos
    {
      var events, next, stop := Round(store, inputs, pos);
      if stop.Some? {
        out, phase := out + events, stop.value;
        return;
      }
      var rest := Loop(store.states, inputs, next);
      assert out + (events + rest.events) == (out + events) + rest.events;
      out, pos := out + events, next;
    }
    out := out + [Print(MenuText)];
    phase := OutOfInput;
  }
}
