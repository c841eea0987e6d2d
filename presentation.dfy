/**
 * What the program shows: the lines it prints (each `print` call is one
 * `Print` event, its text without the newline `print` adds), the flower image
 * it opens and the bar chart it draws. Opening the image and drawing the chart
 * are outside the model; the events record what they are given.
 */
module Presentation {
  import opened Strings
  import opened Numbers
  import opened Records
  import opened TopFive

  datatype Event =
    | Print(text: string)
    | ShowImage(path: string)
    | ShowChart(title: string, xLabel: string, yLabel: string, labels: seq<string>, values: seq<int>)

  const InvalidInput := "Invalid input."
  const NonNegative := "Population must be non-negative."
  const Farewell := "Thank you for using this program, have a great day!"
  const Welcome := "Welcome to the State Information Application! Use the menu below to navigate through the application."
  const MenuText :=
    "\nPlease choose from the menu options below:\n"
    + "\n1.\tDisplay all U.S. States in Alphabetical order along with the Capital, State Population, and Flower."
    + "\n2.\tSearch for a specific state and display the appropriate Capital, State Population, and an image of the associated State Flower."
    + "\n3.\tProvide a Bar graph of the top 5 populated States showing their overall population."
    + "\n4.\tUpdate the overall state population for a specific state."
    + "\n5.\tExit Program.\n"

  /** The column headings, preceded by a blank line. */
  const Header := "\n" + PadRight("State", 18) + PadRight("Capitol", 18) + PadRight("Population", 15) + PadRight("Flower", 15)

  /** The dashes under the headings, followed by a blank line. */
  const Rule := PadRight("-----", 18) + PadRight("-------", 18) + PadRight("----------", 15) + PadRight("------", 15) + "\n"

  /**
   * One table row: name and capital in 18-character columns, the population
   * with thousands separators and the flower in 15-character columns.
   */
  function Row(r: Record): string
    requires WellFormed(r)
  {
    PadRight(r[0], 18) + PadRight(r[1], 18) + PadRight(WithCommas(Population(r)), 15) + PadRight(r[3], 15)
  }

  /** A field that begins with `x` and follows `pre` shows `x` right after `pre`. */
  lemma FieldAt(pre: string, field: string, post: string, x: string)
    requires |x| <= |field| && field[..|x|] == x
    ensures (pre + field + post)[|pre|..|pre| + |x|] == x
  {
    var line := pre + field + post;
    forall i | 0 <= i < |x| ensures line[|pre| + i] == x[i] {
      assert line[|pre| + i] == field[i];
    }
  }

  /**
   * When name, capital and population fit their columns, each field starts
   * at its fixed offset (0, 18, 36 and 51), and the row is 66 characters
   * wide or as long as a longer flower name makes it.
   */
  lemma RowColumns(r: Record)
    requires WellFormed(r)
    requires |r[0]| <= 18 && |r[1]| <= 18 && |WithCommas(Population(r))| <= 15
    ensures var line, p := Row(r), WithCommas(Population(r));
      && |line| == 51 + (if |r[3]| < 15 then 15 else |r[3]|)
      && line[..|r[0]|] == r[0]
      && line[18..18 + |r[1]|] == r[1]
      && line[36..36 + |p|] == p
      && line[51..51 + |r[3]|] == r[3]
  {
    var p := WithCommas(Population(r));
    var a, b, c, d := PadRight(r[0], 18), PadRight(r[1], 18), PadRight(p, 15), PadRight(r[3], 15);
    PadRightShape(r[0], 18);
    PadRightShape(r[1], 18);
    PadRightShape(p, 15);
    PadRightShape(r[3], 15);
    var line := a + b + c + d;
    assert Row(r) == line;
    FieldAt([], a, b + c + d, r[0]);
    assert [] + a + (b + c + d) == line;
    FieldAt(a, b, c + d, r[1]);
    assert a + b + (c + d) == line;
    FieldAt(a + b, c, d, p);
    FieldAt(a + b + c, d, [], r[3]);
    assert a + b + c + d + [] == line;
  }

  /** The rows `display_states` prints for the list `s`, one per record. */
  function Rows(s: seq<Record>): seq<Event>
    requires AllWellFormed(s)
    decreases |s|
  {
    if |s| == 0 then [] else Rows(s[..|s| - 1]) + [Print(Row(s[|s| - 1]))]
  }

  /** One row per record: the table is as long as the list. */
  lemma {:induction false} RowsLength(s: seq<Record>)
    requires AllWellFormed(s)
    ensures |Rows(s)| == |s|
    decreases |s|
  {
    if |s| > 0 {
      RowsLength(s[..|s| - 1]);
    }
  }

  /** Row `i` of the table is the row of record `i`: the table follows the list order. */
  lemma {:induction false} RowAt(s: seq<Record>, i: nat)
    requires AllWellFormed(s) && i < |s|
    ensures |Rows(s)| == |s| && Rows(s)[i] == Print(Row(s[i]))
    decreases |s|
  {
    var p := s[..|s| - 1];
    RowsLength(s);
    RowsLength(p);
    var last := Print(Row(s[|s| - 1]));
    assert Rows(s) == Rows(p) + [last];
    if i < |p| {
      RowAt(p, i);
      assert s[i] == p[i];
      assert Rows(s)[i] == Rows(p)[i];
    } else {
      assert Rows(s)[i] == last;
    }
  }

  /** What `display_states` prints for the list `s`: headings, then the rows. */
  function TableEvents(s: seq<Record>): seq<Event>
    requires AllWellFormed(s)
  {
    [Print(Header), Print(Rule)] + Rows(s)
  }

  /** What `dispaly_a_state` does: headings, the record's row, then its flower image from the `flowers/` folder. */
  function StateEvents(r: Record): (e: seq<Event>)
    requires WellFormed(r)
    ensures e == TableEvents([r]) + [ShowImage("flowers/" + r[4])]
  {
    assert [r][..0] == [] && Rows([r]) == [Print(Row(r))];
    [Print(Header), Print(Rule), Print(Row(r)), ShowImage("flowers/" + r[4])]
  }

  /** The message printed after an accepted update, for the updated record. */
  function Confirmation(r: Record): string
    requires WellFormed(r)
  {
    "\nThe population of " + r[0] + " was successfully updated to " + WithCommas(Population(r)) + "."
  }

  /**
   * After `state[2] = str(n)`, the confirmation names the state and reads the
   * population back as `n`, with thousands separators.
   */
  lemma ConfirmationOfUpdate(r: Record, n: int)
    requires WellFormed(r)
    ensures Confirmation(WithPopulation(r, n))
      == "\nThe population of " + r[0] + " was successfully updated to " + WithCommas(n) + "."
  {
  }

  /** The bar chart drawn for the selected items: names on the x axis, populations as bar heights. */
  function ChartEvent(top: seq<Entry>): (e: Event)
    ensures e.ShowChart? && |e.labels| == |e.values| == |top|
    ensures forall i :: 0 <= i < |top| ==> e.labels[i] == top[i].0 && e.values[i] == top[i].1
  {
    ShowChart("Top 5 Populated States", "State Names", "Population",
      seq(|top|, i requires 0 <= i < |top| => top[i].0),
      seq(|top|, i requires 0 <= i < |top| => top[i].1))
  }
}
