# State Information Application — a Dafny model

`lab3.py` is a console menu program for a list of U.S. states. Each record
is `[name, capital, population, flower, image]`, loaded from `states.txt`.
Five options are offered:

1. Display every state, sorted, as a table.
2. Search for a state by name; show its row and its flower picture.
3. Draw a bar chart of the five most populous states.
4. Update a state's population.
5. Exit.

This project models that program in Dafny:

- The module-level list `states` is the class `Store.StateStore`, which the
  operations change in place.
- The Python string, integer and ordering behaviour the program relies on
  (`strip`, `split(',')`, `upper`, `int()`, `str()`, `f"{n:,}"`, list
  comparison) are functions with lemmas.
- The interactive loops read from a finite sequence of input lines. What the
  program prints with `print`, the image it opens and the chart it draws
  become `Event`s; the prompts `input()` writes are not recorded.

Modules, in dependency order:

- `Optional`, `Strings` (`strings.dfy`): `str.strip`, `str.split`, `str.join`, `str.upper`, left-aligned padding.
- `Numbers` (`numbers.dfy`): `int()` on the forms the program reads, `str(n)`, and the `,` thousands separator.
- `Records` (`records.dfy`): parsing one line of the data file, loading the file, the case-insensitive name match.
- `Ordering` (`ordering.dfy`): Python's order on strings and on lists of strings, and `list.sort()`.
- `TopFive` (`topfive.dfy`): the name → population dictionary, the descending stable sort and the cut to five.
- `Presentation` (`presentation.dfy`): the printed lines, the image and the chart, as events.
- `Store` (`store.dfy`): the class `StateStore`, plus the specification functions of its prompt loops.
- `Menu` (`menu.dfy`): `process_selection` and `main`. `Session` is the whole run as a function of the loaded list and the lines typed. `Run` performs it on a `StateStore` and is proved equal to `Session`.

Two points where the code decides what its comments leave open:

- `search` (lab3.py:77-83) keeps looping after a match, with no `break`, so when several records match a query the last one is returned (`Records.LastMatch`).
- The comment at lab3.py:44 says the states are sorted "in alphabetical order". `states.sort()` compares whole records field by field (`Ordering.RecordLe`): names come out in Python's code-point string order (`Ordering.SortedByName`), which is alphabetical only for names cased and spaced alike ("Texas" sorts before "ohio", "New York" before "Newark"), and records that share a name are ordered by their remaining fields.

## Model

| member | source | states |
|---|---|---|
| Strings.StripShape | lab3.py:31 | Stripping a set of characters (`str.isspace()`'s for `strip()`, a smaller one for `int()`) keeps one contiguous slice of the line. Everything before and after it is in the set, and the slice neither starts nor ends with a character of the set. |
| Strings.SplitCount | lab3.py:31 | `split(',')` gives one piece more than there are commas, and no piece contains a comma. |
| Strings.JoinSplit | lab3.py:31 | Joining the pieces of `split(',')` with commas gives back the split string. |
| Strings.SplitJoin | lab3.py:31 | Splitting a comma-join of comma-free pieces gives back exactly those pieces. |
| Strings.UpperEqual | lab3.py:80 | Two strings upper-case alike exactly when they have the same length and agree character by character up to the case of ASCII letters. |
| Strings.PadRightShape | lab3.py:54 | `f"{s:<w}"` is `w` characters long, or `s` itself when `s` is longer. It starts with `s` and continues with spaces only. |
| Numbers.NatToStringSpec | lab3.py:165 | `str(n)` for `n >= 0` is digits only, has no leading zero unless it is "0", and reads back as `n`. |
| Numbers.IntToString | lab3.py:165 | `str(n)` is non-empty and starts with `-` exactly when `n` is negative. |
| Numbers.ReadDigitsDecimal | lab3.py:158 | A digit run is accepted exactly when it is a non-empty string of ASCII digits, and its value is the decimal value. |
| Numbers.ParseIntShape | lab3.py:158 | The modelled `int()` accepts exactly: after skipping the whitespace `int()` skips, an optional `+`/`-`, then one or more ASCII digits and nothing else. A negative result comes only from a `-`, and each accepted form has its decimal value with its sign. |
| Numbers.SeparatorNotSkipped | lab3.py:158 | `int()` does not skip the separators U+001C to U+001F that `strip()` removes, so digits behind one are rejected, although the stripped line would be a number. |
| Numbers.ParseIntRoundTrip | lab3.py:165-171 | `int(str(n)) == n` for every integer `n`, so the confirmation message reads back the stored population. |
| Numbers.GroupShape | lab3.py:53 | For a digit string `d`, the comma-separated groups of its grouping concatenate to `d`. Each group is digits; the first has 1 to 3, every later one exactly 3. |
| Numbers.WithCommasShape | lab3.py:53 | `f"{n:,}"` without its commas is `str(n)`. The first group (after a `-` when negative) has 1 to 3 digits; every later group has exactly 3. |
| Records.ParseRecord | lab3.py:31 | A record has at least one field, no field contains a comma, and the fields joined by commas are the stripped line. |
| Records.LoadRecords | lab3.py:27-31 | The loaded list has one record per line, in file order. Record `i` is line `i` stripped and split. |
| Records.WithPopulation | lab3.py:165 | The population field becomes exactly `str(n)`, the record stays well formed and its population reads back as `n`. It has the same length and the same other fields. |
| Records.LastMatchSpec | lab3.py:77-83 | The index `search` ends with names a record that matches the query case-insensitively, and no later record matches. |
| Records.LookupNone | lab3.py:77-87 | A query finds nothing exactly when no record's name matches it. |
| Records.LookupCaseInsensitive | lab3.py:73-83 | A query and any variant of it that differs only in letter case find the same record. |
| Records.LastWithName | lab3.py:126-127 | The last record carrying a given name: it has that name, and no later record does. |
| Ordering.StrLeTotal | lab3.py:45 | Any two strings are comparable under Python's string order. |
| Ordering.StrLeAntisymmetric | lab3.py:45 | Strings that are `<=` each other are equal. |
| Ordering.StrLeTransitive | lab3.py:45 | The string order is transitive. |
| Ordering.RecordLeReflexive | lab3.py:45 | Every record is `<=` itself under list comparison. |
| Ordering.RecordLeTotal | lab3.py:45 | Any two records are comparable under list comparison. |
| Ordering.RecordLeAntisymmetric | lab3.py:45 | Records that are `<=` each other are equal. |
| Ordering.RecordLeTransitive | lab3.py:45 | The record order is transitive. |
| Ordering.InsertSorted | lab3.py:45 | Inserting a record into a sorted list keeps it sorted and adds exactly that record. |
| Ordering.SortSpec | lab3.py:45 | After `sort()` the list is non-decreasing and is a permutation of the list before. |
| Ordering.SortedUnique | lab3.py:45 | Two sorted lists with the same records, counted with multiplicity, are equal. So the model's sort gives the same list as any correct sort. |
| Ordering.SortedByName | lab3.py:44-45 | In a sorted list the names are non-decreasing in Python's code-point string order, which is alphabetical only for names cased and spaced alike. |
| Ordering.SortSorted | lab3.py:167 | Sorting a list that is already sorted leaves it unchanged. |
| TopFive.Put | lab3.py:127 | `d[k] = v` keeps every key listed once. It adds a key exactly when `k` was new. |
| TopFive.Items | lab3.py:130 | `d.items()` has one item per key, item `i` carries key `i` of the insertion order, and an item is in it exactly when it is a key with its current value. |
| TopFive.BuildTable | lab3.py:123-127 | The dictionary after the fill loop lists each key exactly once. |
| TopFive.PopulationTable | lab3.py:123-127 | The fill loop builds exactly the dictionary `BuildTable` describes. |
| TopFive.TableKeys | lab3.py:126-127 | The dictionary's keys are exactly the names in the list. |
| TopFive.TableValues | lab3.py:126-127 | Each name maps to the population of the last record with that name; a later write wins. |
| TopFive.TableOrder | lab3.py:126-127 | The keys come in order of each name's first occurrence. Overwriting a value does not move its key. |
| TopFive.TableSize | lab3.py:123-130 | The dictionary has one item per distinct name. |
| TopFive.SortDesc | lab3.py:130 | `sorted(..., key=itemgetter(1), reverse=True)` is non-increasing in population and a permutation of the items. |
| TopFive.SortDescStable | lab3.py:130 | The sort is stable: items with equal populations keep their dictionary order. |
| TopFive.TopFiveOfTable | lab3.py:130 | `[:5]` of the sorted items has `min(5, n)` items, all from the dictionary, non-increasing. Every item left out is no larger than the fifth. |
| TopFive.TopFiveSpec | lab3.py:123-130 | The chart data has `min(5, distinct names)` bars, non-increasing. Every name left out has a population no larger than the smallest bar. Each bar is a name of the list with the population of its last record. |
| TopFive.TopFiveTies | lab3.py:123-130 | Bars of equal population appear in the order in which their names first occur in the list. |
| Presentation.RowColumns | lab3.py:54 | When name, capital and population fit their columns, the four fields start at offsets 0, 18, 36 and 51, and the row is `51 + max(15, len(flower))` characters long. |
| Presentation.RowsLength | lab3.py:52-54 | The table has one row per record. |
| Presentation.RowAt | lab3.py:52-54 | Row `i` of the table is the row of record `i`, so the table follows the list order. |
| Presentation.StateEvents | lab3.py:93-110 | `dispaly_a_state` prints exactly the table `display_states` would print for a one-record list (headings, then the row with the population through `f"{n:,}"`), then shows the image `"flowers/" + state[4]`. |
| Presentation.ConfirmationOfUpdate | lab3.py:165-171 | After the population is set to `str(n)`, the confirmation names the state and shows `n` with thousands separators. |
| Presentation.ChartEvent | lab3.py:133-138 | The chart has one bar per selected item, in order: the name on the x axis and the population as the height. |
| Store.RemoveFirst | lab3.py:164 | `remove(x)` shortens the list by one and takes away exactly one copy of `x`. |
| Store.ReplacedSpec | lab3.py:164-167 | An accepted update keeps the length, replaces one copy of the record with its copy carrying the new population, keeps every other record and leaves the list sorted. |
| Store.ReplacedIdempotent | lab3.py:164-167 | Repeating the same update on the updated record leaves the list as it is. |
| Store.SortWellFormed | lab3.py:45 | Sorting keeps every record displayable. |
| Store.AskFromSpec | lab3.py:70-89 | `search` stops at the first line that names a record and returns that record; each earlier line names none and prints "Invalid input.". If no line names a record, every line is read and rejected. |
| Store.ReadFromSpec | lab3.py:154-179 | `update_states` stops at the first non-negative integer. Each earlier line printed "Invalid input." (not an integer) or "Population must be non-negative." (negative). If none is accepted, every line is read. |
| Store.UpdateFrom | lab3.py:154-179 | The update reads no more lines than it has and keeps the list's length and well-formedness. If no line is accepted, the list is unchanged and every line was read. |
| Store.UpdateFromDone | lab3.py:154-179 | An update happens exactly when some line is a non-negative integer. Otherwise the list is unchanged and only rejection messages are printed. |
| Store.ReadPopulation | lab3.py:154-179 | The input loop of `update_states` reads, prints and settles on exactly what `ReadFrom` describes. |
| Store.StateStore.Load | lab3.py:24-31 | The store holds one record per line of the file, in file order, each the stripped line split on commas. |
| Store.StateStore.DisplayStates | lab3.py:35-54 | `display_states` sorts the list in place, then prints the headings and one row per record of the sorted list. |
| Store.StateStore.Search | lab3.py:76-83 | The loop over the list ends with the last record whose name matches the query, or finds none. |
| Store.StateStore.SearchPrompt | lab3.py:58-89 | `search` reads query lines, prints and returns exactly what `AskFrom` describes, and changes nothing. |
| Store.StateStore.ReplacePopulation | lab3.py:164-167 | Remove, set the population, append and sort leave the list `Replaced` describes. |
| Store.StateStore.UpdatePopulation | lab3.py:145-179 | `update_states` leaves the list, prints the messages and reads the lines `UpdateFrom` describes. |
| Store.StateStore.BarGraph | lab3.py:114-141 | `bar_graph` draws the chart of the first five items of the population dictionary, sorted by population. |
| Menu.Code | lab3.py:213-232 | Each option has a menu number from 1 to 5. |
| Menu.DispatchCode | lab3.py:213-237 | Each option is reached by its own number and no other. Exactly the numbers 1 to 5 select an option. |
| Menu.ShowAllTurn | lab3.py:213-215 | Option 1 reads only the selection line and keeps every record displayable. |
| Menu.SearchTurn | lab3.py:218-220 | Option 2 never changes the list and reads within the input. |
| Menu.SearchTurnShows | lab3.py:58-110 | Option 2 prints one "Invalid input." per query line that names no record, then, for the first line that does, the state's table and flower picture (`StateEvents` of `Lookup` of the stripped line). If no line names a record, every line is rejected and the session ends. |
| Menu.UpdateTurn | lab3.py:227-229 | Option 4 reads within the input and keeps the list's length and well-formedness. |
| Menu.TakeTurn | lab3.py:205-237 | Every selection reads at least one line, stays within the input, and keeps every record well formed. |
| Menu.TurnKeepsCount | lab3.py:205-237 | No selection adds or loses a record. |
| Menu.LoopKeepsCount | lab3.py:255-273 | A whole session ends with as many records as it started with. |
| Menu.ExitSaysFarewell | lab3.py:232-234 | A session that ends by option 5 prints the farewell message last. |
| Menu.InvalidSelection | lab3.py:236-237 | A non-integer selection, or one outside 1 to 5, prints "Invalid input." and changes nothing, and the menu comes back. |
| Menu.ExitSelection | lab3.py:232-234 | Selection 5 prints the farewell, changes nothing and ends the session. |
| Menu.SearchSelected | lab3.py:218-220 | Option 2 on the store prints and reads exactly what `SearchTurn` describes. |
| Menu.UpdateSelected | lab3.py:227-229 | Option 4 on the store prints, reads and leaves exactly what `UpdateTurn` describes. |
| Menu.UpdateTurnFound | lab3.py:227-229 | Once the search has found a record, option 4 proceeds as `update_states` for that record on the lines after the query. |
| Menu.ProcessSelection | lab3.py:205-237 | `process_selection` on the store prints, reads and leaves exactly what `TakeTurn` describes. |
| Menu.Round | lab3.py:255-265 | One pass of `main`'s loop, followed by the rest of the loop, prints what `Loop` prints from that line on. |
| Menu.Run | lab3.py:241-273 | `main` prints and leaves exactly what `Session` describes for the loaded list and the lines typed. |

## Left out

- Reading `states.txt` (lab3.py:24): the file's lines are a parameter of `LoadRecords` and `StateStore.Load`.
- Console I/O: every `input()` is the next element of a sequence of lines, and every `print` is a `Print` event holding the text without its newline.
- When the lines run out, Python's `input()` raises `EOFError` and the program dies with a traceback. The model ends the session with the phase `OutOfInput`.
- Opening and showing the flower picture with PIL (lab3.py:109-110) is a `ShowImage` event with its path.
- Drawing the chart with matplotlib (lab3.py:133-141) is a `ShowChart` event with its title, labels and data.
- `sys.exit()` (lab3.py:234) is the terminal phase `Exited`.
- Numbers.ParseInt: models `int()` only for an optional sign and ASCII digits, surrounded by the whitespace `int()` skips: the ASCII whitespace characters and the non-ASCII characters `str.isspace()` accepts, but not U+001C to U+001F (`Numbers.IntWhitespace`). Underscores between digits and non-ASCII digits are rejected, where Python accepts them.
- Numbers.ParseInt: has no limit on the number of digits. Python 3.11 and later raise `ValueError` for a decimal string of more than 4300 digits, so such a population line prints "Invalid input." and is asked again (lab3.py:158, 178-179). The model accepts it (`Store.Accepted`, `Store.ReadFrom`) and updates the list.
- The prompts that `input()` writes (lab3.py:73-74, 158, 262) are not recorded as events. Only the output of `print`, the picture and the chart are.
- Strings.Upper: upper-cases the ASCII letters `a`-`z` only. Python's full Unicode case mapping, including characters that grow to two, is not modelled.
- Bad data in `states.txt` is excluded rather than modelled. A line with fewer than five fields, or a population that `int()` rejects, makes `display_states`, `dispaly_a_state` or `bar_graph` raise, and a record with fewer than three fields makes `state[2] = str(population)` (lab3.py:165) raise `IndexError`. `main` would catch that `ValueError` (or crash on `IndexError`) part-way through an option. The model requires every loaded record to be `WellFormed` (`StateStore.Valid`).
- `states.sort()` is modelled by an insertion sort (`Ordering.Sort`). `Ordering.SortedUnique` shows that any correct sort gives the same list, so Python's sorting algorithm is not modelled.
- Arithmetic on populations cannot wrap around in Python, and Dafny's `int` is unbounded too; the only size limit, on converting long digit strings, is the `Numbers.ParseInt` line above.
