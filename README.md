# EventPattern log analyser, modelled in Dafny

`ProcessEvent.log.py` reads a CSV file of named regular expressions
("event patterns"), each of which may name a parent pattern, and assembles
them into a forest. It then reads `events.log` style files line by line. A
line that matches the fixed line grammar becomes an `Event`, and that event
is matched against the forest: the first root whose regex matches, then at
each level the first child whose regex matches. The event is recorded at the
node where this walk stops, together with the values of that node's named
groups. At the end every pattern prints a header line with its occurrence
count, one line per named group with the values it has seen, and then the
reports of its sub-patterns. The command line picks the pattern file, the
event files and a few switches.

The model has these modules:

- `Text` (text.dfy): the string helpers the source relies on: Python
  whitespace (ASCII), `str.strip`, `str.lower` (ASCII), decimal digits,
  `int()` of a digit string, and the `{:4d}` field.
- `LogLine` (log_line.dfy): `line_regex` as a left-to-right parser and
  `Event.__init__`. The parser is proved to accept exactly the lines that some
  well-formed field tuple spells, and to give that tuple's event.
- `Tree` (tree.dfy): the `EventPattern` node as a recursive datatype, with
  paths into the forest, replacement at a path, and size measures.
- `Assembly` (assembly.dfy): `__init__`, `addSubPattern` and
  `findSubPatternWithId` as functions. It proves that the search finds the
  first node in preorder with the id, and that a child defined before its
  parent is lost.
- `Matching` (matching.dfy): `mainMatchEvent`, `matchEvent` and `addEvent`.
  The walk is proved to be the unique first-match walk, and recording is shown
  to touch only the node at the end of the walk. The returned node is the
  matching root or its immediate child, never deeper; the model keeps this, as
  the source does.
- `Report` (report.dfy): `EventPattern.__str__`, both as a specification
  function and as methods with the source's loops. The counter `i` of the
  group loop is not advanced for a hidden group, so a later line reports an
  earlier group's values; the model keeps this, and `CounterQuirk` exhibits
  it.
- `Arguments` (arguments.dfy): the argument loop of `myMain` and the default
  event file.
- `Patterns` (forest.dfy): the class-level list `EventPattern._patterns` as
  the class `Forest`, whose methods update it in place. It also holds the
  per-line loop of `mainLoop`.
- `Scenarios` (scenarios.dfy): small concrete configurations worked through
  in proofs: a lost forward reference, a two-level hierarchy, and the sample
  line from the source's comment, followed to its report header.

Python's regular expression engine is not modelled. A compiled pattern is
represented by its source text, its group names and a function `run` that
stands for `regEx.match(message)`. The set-join order of `', '.join` is a
parameter `join`.

The recorded value `"-None-"` is stored for a named group that did not
take part in the match (`match.group(ng)` is `None`). A group that took part
but captured the empty string stores `""`.

## Model

| member | source | states |
|---|---|---|
| Text.StripIsStripped | ProcessEvent.log.py:204 | `strip()` leaves no whitespace at either end and never lengthens the string |
| Text.StripSurrounded | ProcessEvent.log.py:204 | stripping whitespace-padding around a stripped text gives back that text |
| Text.StripIdempotent | ProcessEvent.log.py:204 | stripping twice is stripping once |
| Text.NatToStringRoundTrip | ProcessEvent.log.py:169 | the decimal text of a count reads back as that count |
| Text.PadLeft | ProcessEvent.log.py:169 | `{:4d}`: at least the given width, the digits right-aligned after spaces |
| Text.LowerIsLower | ProcessEvent.log.py:289-292 | `lower()` yields a lower-case string and is idempotent |
| LogLine.Timestamp | ProcessEvent.log.py:57 | group 1 and the rest concatenate back to the input |
| LogLine.LineLength | ProcessEvent.log.py:57 | `.*` stops at the first line feed or at the end |
| LogLine.ParseLine | ProcessEvent.log.py:193-204 | an accepted line yields a stripped, single-line message, a non-negative type code and a timestamp that is a prefix of the line |
| LogLine.Message | ProcessEvent.log.py:204 | the stored message is group 6 stripped: no surrounding whitespace and no line feed |
| LogLine.ParseFormat | ProcessEvent.log.py:193-204 | every well-formed line parses into the event its fields spell (type code is `int` of field 2, message stripped) |
| LogLine.ParseSound | ProcessEvent.log.py:193-204 | every accepted line is the text of a well-formed field tuple and parses into that tuple's event |
| LogLine.Grammar | ProcessEvent.log.py:240-241 | a line matches `line_regex` if and only if it is a well-formed field tuple followed by a proper line end |
| LogLine.NumberFieldSplit | ProcessEvent.log.py:57 | an accepted `\s*(\d+),` field is padding, digits, comma and rest |
| LogLine.MessageSplit | ProcessEvent.log.py:57 | `\s*(.*)` is padding, a single-line text, and a proper line end |
| Tree.ReplaceAtOthers | ProcessEvent.log.py:84-90 | growing one node's child list in place leaves every other node's own fields as they were |
| Tree.ReplaceAtTotal | ProcessEvent.log.py:84-90 | replacing a node changes the forest's totals by exactly the difference between old and new subtree |
| Assembly.FindIn | ProcessEvent.log.py:95-103 | a found path is valid and names a node with the id |
| Assembly.FindSubPatternWithId | ProcessEvent.log.py:95-103 | a found path lies strictly below the node and names a node with the id |
| Assembly.FindInFirst | ProcessEvent.log.py:95-103 | the search returns the first node in preorder with the id, and returns nothing only when no node has it |
| Assembly.FirstNamedUnique | ProcessEvent.log.py:95-103 | there is only one first node in preorder with a given id |
| Assembly.BeforeTotal | ProcessEvent.log.py:97-102 | of two distinct paths, the search visits one before the other |
| Assembly.BeforeIrreflexive | ProcessEvent.log.py:97-102 | no path is visited before itself |
| Assembly.BeforeAsymmetric | ProcessEvent.log.py:97-102 | two paths are never each visited before the other |
| Assembly.BeforeTransitive | ProcessEvent.log.py:97-102 | visiting order is transitive; with the three rows above, it is a strict total order |
| Assembly.AttachAtFirst | ProcessEvent.log.py:80-93 | the new pattern becomes the last child of the first node with its parent id; every other node keeps its own fields |
| Assembly.AttachSize | ProcessEvent.log.py:80-93 | attaching adds the new subtree when the parent is found, and otherwise leaves the forest unchanged (forward reference lost) |
| Assembly.AttachWellFormed | ProcessEvent.log.py:80-93 | attaching keeps the forest well formed |
| Assembly.DefineEffect | ProcessEvent.log.py:61-77 | an empty parent makes a new last root; otherwise the pattern is attached under its first parent or dropped; the forest grows by at most one node |
| Assembly.BuildSize | ProcessEvent.log.py:108-116 | loading definitions adds at most one node per row |
| Assembly.AttachNames | ProcessEvent.log.py:80-93 | attaching a sub-pattern never changes the list of root ids |
| Assembly.BuildRoots | ProcessEvent.log.py:74-77 | for any mix of rows, the root ids are the earlier roots followed by the names of the rows without a parent, in file order |
| Matching.FirstMatching | ProcessEvent.log.py:123-126 | the index of the first sibling whose regex matches, or the list's length when none does |
| Matching.Route | ProcessEvent.log.py:119-135 | no path exactly when no root matches; a path found is valid and ends at a matching node |
| Matching.Descend | ProcessEvent.log.py:142-148 | a nonempty continuation is a valid path below the node to a matching node |
| Matching.RouteWalk | ProcessEvent.log.py:137-149 | the computed walk takes the first matching node at every level and stops where no child matches |
| Matching.WalkRoute | ProcessEvent.log.py:137-149 | every such first-match walk is the computed one: the walk is unique |
| Matching.Recorded | ProcessEvent.log.py:151-158 | `addEvent`: the event is appended; each group's set gains its capture, or `"-None-"`, and nothing else; name, regex, parent and children are unchanged |
| Matching.RecordedSizes | ProcessEvent.log.py:158 | a value already seen leaves its set unchanged; a new value grows it by one |
| Matching.RecordAtHit | ProcessEvent.log.py:148-158 | the node at the end of the walk is changed exactly as `addEvent` changes it |
| Matching.RecordAtOthers | ProcessEvent.log.py:151-158 | recording leaves every other node's own fields unchanged: no ancestor's count or values change |
| Matching.RecordAtTotals | ProcessEvent.log.py:152 | recording keeps the node count and adds exactly one occurrence |
| Matching.Dispatch | ProcessEvent.log.py:119-135 | a filtered event changes nothing and returns `None`; a node is returned if and only if the event passes the filter and some root matches; with no node returned the forest is unchanged |
| Matching.DispatchWalk | ProcessEvent.log.py:119-135 | an event that passes is recorded at the end of the first-match walk and the returned node is that walk's first or second step |
| Matching.DispatchTotals | ProcessEvent.log.py:119-135 | the forest keeps its nodes; the occurrence total grows by one exactly when a node is returned |
| Matching.AddEvent | ProcessEvent.log.py:151-158 | the loop over the groups computes `Recorded` |
| Matching.MatchEvent | ProcessEvent.log.py:137-149 | returns nothing exactly when the node does not match; otherwise records at the end of the walk below it and reports itself or the child it descended to |
| Report.Header | ProcessEvent.log.py:169 | the header starts with `*** ` and ends with a line feed |
| Report.Shown | ProcessEvent.log.py:172-174 | never more group lines than group names |
| Report.Report | ProcessEvent.log.py:165-186 | the text is empty exactly when the pattern has no events, no sub-patterns and `showDetail` is off; otherwise it starts with the header |
| Report.ReportAllAt | ProcessEvent.log.py:183-184 | each sub-pattern's report sits between those of its earlier and later siblings |
| Report.ReportAllAppend | ProcessEvent.log.py:183-184 | the reports of two runs of sub-patterns follow each other |
| Report.ShownAll | ProcessEvent.log.py:173 | with `showDetail` on every group is shown |
| Report.DetailLines | ProcessEvent.log.py:170-181 | with `showDetail` on, the `j`-th line is for the `j`-th group and its own value set |
| Report.ShownVisible | ProcessEvent.log.py:172-174 | without `showDetail`, every shown group is visible, and every visible declared group is shown |
| Report.ShownAppend | ProcessEvent.log.py:172-174 | the shown names of two runs of declared names follow each other, so shown names keep declaration order |
| Report.CounterQuirk | ProcessEvent.log.py:171-181 | after any run of hidden group names, the first shown group's line reports the first value set, which belongs to the first hidden group |
| Report.GroupLinesStep | ProcessEvent.log.py:172-181 | one more name adds nothing when hidden, otherwise the line for the value set the counter points at |
| Report.Render | ProcessEvent.log.py:165-186 | `__str__` computes `Report` |
| Report.RenderGroups | ProcessEvent.log.py:170-181 | the group loop with its counter computes the group lines |
| Report.RenderAll | ProcessEvent.log.py:183-184 | the loop over the sub-patterns concatenates their reports |
| Arguments.Finish | ProcessEvent.log.py:298-309 | the file list is never empty; an empty one becomes `['events.log']` and a nonempty one is kept |
| Arguments.StartTakesNext | ProcessEvent.log.py:271-286 | the argument after `-start` is the start bound verbatim, and nothing else changes |
| Arguments.EndTakesNext | ProcessEvent.log.py:271-288 | the argument after `-end` is the end bound; while `-start` is pending, `-end` itself becomes the start bound |
| Arguments.StepClassified | ProcessEvent.log.py:268-297 | one argument keeps every list entry classified and adds at most one entry |
| Arguments.FoldClassified | ProcessEvent.log.py:268-297 | after the loop users are lower case without a dot, files contain a dot, globs a `*`, and the pattern file is the default or a lower-cased `.csv` name; at most one entry per argument |
| Arguments.LowerDots | ProcessEvent.log.py:289-292 | lower-casing keeps exactly the dots |
| Arguments.ParseArguments | ProcessEvent.log.py:259-309 | the argument loop and the default file compute `Parse` |
| Patterns.Events | ProcessEvent.log.py:237-242 | no more events than lines |
| Patterns.DispatchAll | ProcessEvent.log.py:250 | dispatching events keeps the forest well formed |
| Patterns.DispatchAllTotals | ProcessEvent.log.py:237-250 | processing events never adds or removes a pattern and records each event at most once |
| Patterns.Forest.constructor | ProcessEvent.log.py:60 | the pattern list starts empty |
| Patterns.Forest.AddSubPattern | ProcessEvent.log.py:80-93 | the loop attaches under the first node in preorder with the parent id and returns whether there was one |
| Patterns.Forest.AddPattern | ProcessEvent.log.py:61-77 | `EventPattern(name, regEx, parent)` updates the list as `Define` says |
| Patterns.Forest.LoadDefinitions | ProcessEvent.log.py:108-116 | the rows are added in file order |
| Patterns.Forest.MainMatchEvent | ProcessEvent.log.py:119-135 | the method leaves the forest and returns the node that `Dispatch` specifies |
| Patterns.Forest.ProcessLines | ProcessEvent.log.py:237-250 | every line is counted, the matches are the lines that match the grammar, and their events are dispatched in order |
| Scenarios.ForwardReferenceLost | ProcessEvent.log.py:74-93 | a child defined before its parent is dropped |
| Scenarios.Hierarchy | ProcessEvent.log.py:119-149 | with `A` (`foo.*`) and child `B` (`foo bar`), the message `foo bar` is recorded at `B` only, and `B` is returned |
| Scenarios.StartupLine | ProcessEvent.log.py:193-204 | the sample line from the source's comment parses into its event |
| Scenarios.StartupRecorded | ProcessEvent.log.py:119-135 | with the single root pattern `Startup`, the sample event is recorded there and the header shows one occurrence |

## Left out

- The regular expression engine: `re.compile` and `regEx.match` are the opaque function `run` of a `Regex`. The model assumes only what Python guarantees: distinct non-empty group names and one capture per name.
- File I/O: opening and reading the CSV file (`csv.DictReader`) and the event files. `LoadDefinitions` takes the rows, and `ProcessLines` takes the lines of all event files, concatenated in order.
- Printing: `printResults`, the `print` in `mainLoop` and `myMain`, and the `debug` trace output. `Render` builds the text that would be printed.
- `glob.glob`: an argument with a `*` is kept as the unexpanded element `GlobOf(pattern)`. Opening such an element, which the source hands to `open` as a list, is not modelled.
- `start`, `end`, `onlyFirst` and the `users` list are parsed, but the source never uses them afterwards; the model parses them the same way. `showUsers` is set once at line 47 of ProcessEvent.log.py and never changed or read, so the model has no field for it.
- `Repo`, `Event.__str__`, `__repr__` and the module-level `mainLoop()` call on import are not modelled. They only wire things together or print.
- Python object identity: patterns are values. A node reachable twice would be shared in Python, but no code path creates one. The value set for a group is found by the group's position, which is what `groupNames.index(ng)` gives for distinct names.
- Unreachable branches are left out:
  - the fall-through at lines 132-133 of ProcessEvent.log.py after `matchEvent` returns `None` for a matching root;
  - the `ValueError` handler in `mainLoop`, because `int` of ASCII digits never fails;
  - `eventPatternFile == None`;
  - `len(argv) < 0`.
- Whitespace, digits and lower-casing are ASCII only. Python's Unicode whitespace, Unicode digits accepted by `\d`, and Unicode case mapping are not modelled.
- The iteration order of a Python `set` in `', '.join` is the parameter `join`.
- Report.Hidden: an empty group name counts as not hidden. Python would raise `IndexError` on `n[0]`, but a compiled regex never has an empty group name.
- Report.RenderGroups requires non-empty group names, which every compiled regex has.
