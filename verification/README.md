# A verified model of the session statistics scripts, the affected-package planner and shell builtins

This project models the parts of the repository that hold real algorithms and proves what they
are for, over all inputs, all runs or all reachable states. Each Dafny file is one module.

| Modules | What they model |
|---|---|
| `Sync`, `SessionTables`, `TableMeaning`, `LineRows`, `Upserts`, `SyncProgram`, `Records` | the incremental sync of append-only session logs: a state machine of appends, rewrites, parser upgrades and sync passes with three moments each; the keyed tables and their upserts; the program of a pass; exactly when a pass is exact after a rewrite |
| `Hashline`, `HashlineRoundTrip`, `HashlineLines` | the line-oriented patch parser on the text itself, its mutable sections, and a printer |
| `Repeat` | the quadratic search for the longest repeated run of lines |
| `Getopts`, `GetoptsReports` | the resumable option parser, whose cursor lives in shell variables (the getopts utility of IEEE Std 1003.1-2017, XBD section 12.2 for the syntax guidelines), with `shift` |
| `Intervals`, `ReplayPair`, `ReadReplay`, `ReadMeaning`, `Pareto`, `Ordering` | interval sets, the two counterfactual replays, and the frontier |
| `Boundary`, `BoundaryForms`, `BoundaryText`, `BoundaryPrint`, `BoundaryLines`, `BoundaryOutcome`, `BoundaryProgram`, `TextLines` | how far a polluted edit input is complete, on the text itself, and a printer |
| `Marker`, `MarkerMeaning` | leaked protocol markers, fences, and the decision to cut the tail |
| `Affected`, `Plan`, `PlanMeaning` | the reverse-dependency closure over workspace packages, and the planned tasks |
| `MapFile` | the byte-at-a-time record reader |
| `ToolIO` | the pairing of tool calls with results up to a limit |
| `Text`, `Numbers`, `Wrappers` | white space as Python has it, least and greatest, optional values |

Code that works by changing things step by step is written as methods (loops, classes whose
fields are updated) and proved against a function; the properties are then lemmas about that
function. What the functions themselves mean, line by line and character by character, is stated
in `LineRows`, `HashlineLines`, `GetoptsReports`, `ReadMeaning`, `BoundaryLines`,
`BoundaryOutcome`, `MarkerMeaning` and `PlanMeaning` without them. Decoding, tokenizing, sorting
orders and character classes that come from libraries are parameters: the for-all statements
hold for every choice of them. Where exactness is claimed for all parsers at once, the failing
half needs some parser that tells two lines apart; `Sync.ExactForParserIff` and
`Sync.RewriteUnnoticed` speak of one given parser instead.

Where the code and its documentation disagree the code is followed. The docstring of
`find_longest_repeat` promises a result whenever a repeat of `min_len` lines with enough
meaningful lines exists; the code looks only at the longest extension of each pair of positions,
so trailing empty lines can hide such a repeat (`Repeat.WorthwhileRepeatMissed`). The contract of
`Repeat.FindLongestRepeat` says exactly what is found, and `Repeat.PromiseKeptIff` for which blocks
the promise holds. The comment in `getopts` says that external changes of OPTIND are detected;
re-assigning the value it already has in the middle of a word is not (`Getopts.RestartUnnoticed`;
`Getopts.RestartWorksIff` gives the exact condition). The sync is meant for append-only files; a
rewritten file that is not shorter can be taken for a grown one (`Sync.RewriteUnnoticed`).
`Sync.PassIsExactIff` says exactly when a pass is exact whatever the lines say,
`Sync.ReadableExactIff` when only some lines can be read, and `Sync.ExactForParserIff` for one given
parser. The comment in `read_optimizer.py` says that a counted request would be truncated; some that
are delivered in full are counted, too (`ReadReplay.CountedInFull`; `ShortIff` and `CountedIff` give
the exact conditions).

Verify everything with `dafny verify dfyconfig.toml`.

## Model

| member | source | states |
|---|---|---|
| `Sync.AnyInterleaving` | scripts/session-stats/sync.py:498-582 | for every interleaving of whole-line appends, parser upgrades and the three moments of any number of sync passes, some of which may die before they write, over a file first seen by the sync, one more pass leaves the tables of one full parse of the final file |
| `Sync.TablesAfterAnyHistory` | scripts/session-stats/sync.py:766-878 | after any history of appends, rewrites at any moment (also between the moments of a pass), upgrades and passes, some of which may die before they write, the tables are exactly one full parse of the bytes read since the last start from scratch, by the parser version stored in the row |
| `Sync.InvStep` | scripts/session-stats/sync.py:498-582 | every step, a rewrite at any moment and a pass that dies included, keeps the invariant: the tables are the full parse of the bytes read so far, offset and line count of the row name their end, and a plan starts there or from nothing |
| `Sync.InvRun` | scripts/session-stats/sync.py:898-923 | the same over whole histories |
| `Sync.ReadKeepsInv` | scripts/session-stats/sync.py:498-582 | the read that ends a pass keeps the invariant, also if the file grew or was rewritten after the decision and after the `stat` |
| `Sync.PassIngests` | scripts/session-stats/sync.py:898-923 | an uninterrupted pass ends, whatever was rewritten before, with one full parse by the current parser: of what was read before and the rest of the file, of the whole file, or of what was read before if it does nothing |
| `Sync.ExactForParserIff` | scripts/session-stats/sync.py:898-923 | for one given parser a pass leaves the full parse of the current file if and only if, for every key of every table, the last row among the lines read when it ends equals the last row among the lines of the file |
| `Sync.ReadableExactIff` | scripts/session-stats/sync.py:536-546 | for all parsers that find something in a given set of readable lines only (well-formed JSON, say), a pass leaves the full parse if and only if the readable lines, each at its number, are the same in what is read when it ends and in the file |
| `Sync.PassIsExactIff` | scripts/session-stats/sync.py:898-923 | whatever the lines say, a pass leaves the full parse of the current file if and only if it starts from scratch, or what was read before is still the beginning of the file (all of it if the pass does nothing) |
| `Sync.StalePass` | scripts/session-stats/sync.py:898-923 | for any parser the tables are stale if it finds another message in some line of the file than in the line read in its place |
| `Sync.FullPass` | scripts/session-stats/sync.py:907-908 | a full pass starts from scratch whatever is stored: it leaves the full parse of the file and a row that names its size, end and line count |
| `Sync.AbortedPass` | scripts/session-stats/sync.py:880-882 | a pass can end at either moment before its read, and then leaves the world as it was |
| `Sync.PassTwice` | scripts/session-stats/sync.py:913-914 | a second pass over the same file does nothing |
| `Sync.AppendedAlone` | scripts/session-stats/sync.py:915-923 | after lines were added to a file that had been read to its end, the next pass reads exactly the added bytes, numbered from the next line on |
| `Sync.RewriteNoticedIff` | scripts/session-stats/sync.py:898-923 | after a rewrite between two passes the next one leaves the full parse, whatever the lines say, in exactly three cases: the file is shorter than what was read, it has that length and a newer time stamp, or it still begins with what was read |
| `Sync.RewriteUnnoticed` | scripts/session-stats/sync.py:898-923 | for any parser and any file: once it is read, replacing its bytes by as many others and adding lines behind leaves stale tables after the next pass, if the parser finds different messages in some line of the old and the new bytes |
| `Sync.GrowingRead` | scripts/session-stats/sync.py:498-582 | in an append-only history the read reaches the end of the file |
| `Sync.LoadIsFullParse` | scripts/session-stats/sync.py:766-878 | a planned load of the remaining lines, numbered from the stored line count, equals the full parse of all lines |
| `Sync.AppendsAreNeverStale` | scripts/session-stats/sync.py:898-923 | in an append-only history no resume ever relies on bytes that changed |
| `SessionTables.StubsOutcomesCommute` | scripts/session-stats/sync.py:810-833 | upserting a batch of edit calls and a batch of edit results commutes, from any table |
| `SessionTables.StubsOutcomesIndependent` | scripts/session-stats/sync.py:810-833 | the upsert of an edit call and that of its result set disjoint columns of a stored row |
| `Upserts.UpsertsCommute` | scripts/session-stats/sync.py:810-833 | two batches of upserts that set disjoint columns can be done in either order, from any table |
| `Upserts.UpsertConcat` | scripts/session-stats/sync.py:779-844 | upserting two batches one after the other equals upserting their concatenation |
| `Upserts.UpsertMeaning` | scripts/session-stats/sync.py:779-844 | after upserts whose later rows set every column again, a key holds its last row merged into what was stored |
| `Upserts.InsertRows` | scripts/session-stats/sync.py:779-844 | the `executemany` loop computes the upsert of its rows in order |
| `SessionTables.WriteJoin` | scripts/session-stats/sync.py:766-878 | two transactions leave the same six tables as one with the rows of both |
| `SessionTables.ParseConcat` | scripts/session-stats/sync.py:536-567 | parsing is line by line: the rows of two pieces with continued numbering are the rows of the whole |
| `SessionTables.ResumeTwice` | scripts/session-stats/sync.py:498-582 | adding lines in two transactions equals adding them in one |
| `SessionTables.ResumeIsFullParse` | scripts/session-stats/sync.py:498-582 | resuming behind the lines already stored equals one full parse |
| `TableMeaning.ResumeIsFullParseIff` | scripts/session-stats/sync.py:533-545 | over all parsers, resuming equals the full parse if and only if the first part ends with a whole line or nothing follows |
| `TableMeaning.CutLineLost` | scripts/session-stats/sync.py:533-545 | a message in a line that is cut in two is lost: neither half decodes, the resumed tables have no row for it and the full parse has one |
| `TableMeaning.UsersMeaning` | scripts/session-stats/sync.py:733-743 | after a full parse the user table holds the message of each line that has one, under the number of the line, and no other row |
| `TableMeaning.ResultsMeaning` | scripts/session-stats/sync.py:713-731 | the same for tool results, under call id and line number |
| `TableMeaning.EditsMeaning` | scripts/session-stats/sync.py:810-833 | the row of an edit call joins the last call and the last result with its id, whatever their order; a missing result leaves the success unknown, a missing call leaves its columns 0 |
| `LineRows.CallsMeaning` | scripts/session-stats/sync.py:590-621 | over the decoded lines: the call table holds at (id, k) the last tool call with that id in line k with its name, arguments and token count, and no other row |
| `LineRows.EditRowMeaning` | scripts/session-stats/sync.py:647-667 | an id has an edit row if and only if some line holds a call named edit with it, or a result named edit; the columns of the call are those of the last such call, and 0 without one |
| `LineRows.EditResultMeaning` | scripts/session-stats/sync.py:713-731 | the success and the warnings of an edit row are those of the last edit result with the id; without one the success is unknown |
| `LineRows.SectionsMeaning` | scripts/session-stats/sync.py:669-711 | the section table holds at (id, i) section i of the last edit call with that id that has so many, under its line, and no other row |
| `LineRows.AssistantsMeaning` | scripts/session-stats/sync.py:622-645 | the row of line k holds the non-empty texts and the non-empty thoughts of an assistant message, each in order and joined by line feeds, with their token counts; no row if there are none |
| `TableMeaning.SameTablesIff` | scripts/session-stats/sync.py:766-878 | the rows of two files make the same six tables if and only if, for every key, the last row with it is the same, and for every id the join of the last edit call and the last edit result |
| `TableMeaning.SameEvents` | scripts/session-stats/sync.py:536-567 | lines that say the same at the same number make the same rows; lines that say nothing may follow |
| `SyncProgram.BatchCountTokens` | scripts/session-stats/sync.py:213-226 | the batched count gives each string its own count, empty strings 0 without a call |
| `SyncProgram.ParseFile` | scripts/session-stats/sync.py:498-582 | the loop over the lines computes the batch, final offset and final line number of the specification |
| `SyncProgram.ReadLines` | scripts/session-stats/sync.py:536-567 | offset, sequence number and rows after any number of lines |
| `SyncProgram.Database.WriteRecords` | scripts/session-stats/sync.py:766-878 | one transaction takes the stored tables to `Write` of the old ones, or of empty ones on a rebuild, and sets the row |
| `SyncProgram.Database.UpsertEdits` | scripts/session-stats/sync.py:810-833 | edit calls, then results: on conflict each sets only its own columns |
| `SyncProgram.Database.Finish` | scripts/session-stats/sync.py:498-582 | the program takes the step `ReadAndWrite` of the state machine |
| `HashlineRoundTrip.ParseOfPrint` | scripts/session-stats/sync.py:284-349 | parsing the printed lines of any sections, with or without envelope and with anything behind the end marker, gives one summary per section: one payload block per operation in order, the anchors, the sum of the range sizes, the operation count and the exact bounds of the touched lines |
| `HashlineRoundTrip.ChangeSizeOf` | scripts/session-stats/sync.py:275-281 | the change size is the number of payload lines plus the lines of all ranges |
| `HashlineRoundTrip.ParseRangeOf` | scripts/session-stats/sync.py:238-248 | a printed anchor or range reads back as its size (at least 1) and its bounds |
| `HashlineRoundTrip.AnchorLineOf` | scripts/session-stats/sync.py:251-258 | a printed anchor reads back as its line number |
| `HashlineRoundTrip.RangeAnchorsOf` | scripts/session-stats/sync.py:334-337 | splitting a printed range gives back its anchors in order |
| `HashlineRoundTrip.ReadOpLine` | scripts/session-stats/sync.py:314-340 | a printed operation line is recognised as that operation |
| `HashlineRoundTrip.TouchExact` | scripts/session-stats/sync.py:271-273 | touching a line keeps the stored bounds the exact minimum and maximum of all touched lines |
| `HashlineRoundTrip.RunOps` | scripts/session-stats/sync.py:314-345 | operations with their payload are applied in order, nothing else is touched |
| `HashlineRoundTrip.RunBehindStop` | scripts/session-stats/sync.py:297-300 | lines behind an end marker are ignored |
| `HashlineRoundTrip.ApplyAllDescribes` | scripts/session-stats/sync.py:314-345 | the summary built by applying operations one by one describes exactly these operations |
| `Hashline.SplitOfJoin` | scripts/session-stats/sync.py:293 | splitting joined one-line strings gives them back |
| `Hashline.RunConcat` | scripts/session-stats/sync.py:293-348 | the parse is one pass over the lines: running two pieces one after the other is running their concatenation |
| `Hashline.EditSection.Touch` | scripts/session-stats/sync.py:271-273 | updates the two bounds in place |
| `Hashline.EditSection.ReplaceOp` | scripts/session-stats/sync.py:328-340 | the whole effect of a replace line on the section object |
| `Hashline.EditSection.InsertOp` | scripts/session-stats/sync.py:318-327 | the whole effect of an insert line on the section object |
| `Hashline.ParseHashlineInput` | scripts/session-stats/sync.py:284-349 | the loop over mutable sections computes the parse of the specification |
| `HashlineLines.MarkersIff` | scripts/session-stats/sync.py:293-300 | for every line: it begins or ends the envelope if and only if it is one of the three markers with nothing but white space behind |
| `HashlineLines.HeaderIff` | scripts/session-stats/sync.py:302-312 | for every line: it is a header of a file if and only if it is section signs and that name with white space around it |
| `HashlineLines.InsertIs` | scripts/session-stats/sync.py:314-327 | a line of an insert sign and one word: the anchors are the word unless it is BOF or EOF, and the line is n if and only if the word is the digits of n and a tag |
| `HashlineLines.ReplaceIs` | scripts/session-stats/sync.py:328-340 | a line of the replace sign and one word: the anchors are the non-empty parts of the word between two dots, and the range is that of its anchors, at least one line, or one line if the word is no range |
| `HashlineLines.OnlyWords` | scripts/session-stats/sync.py:314 | no other line is an operation |
| `HashlineLines.SplitDotsIs` | scripts/session-stats/sync.py:334 | splitting at two dots: the parts make up the word, and each is cut off at the first dots |
| `HashlineLines.NumberIff` | scripts/session-stats/sync.py:231-232 | the value of a text of digits is the number that it shows, zeros in front included |
| `Repeat.FindLongestRepeat` | scripts/session-stats/sync.py:352-371 | None exactly if no maximal non-overlapping repeat of at least `min_len` lines passes the meaningful-line test; otherwise the result is such a repeat, none is longer, and it starts at the first position that has one of its length |
| `Repeat.BoundsLoseNothing` | scripts/session-stats/sync.py:359-360 | no qualifying pair lies outside the loop bounds |
| `Repeat.BestAfter` | scripts/session-stats/sync.py:361-370 | one more pair keeps the record of the best repeat exact |
| `Repeat.MaximalUnique` | scripts/session-stats/sync.py:361-363 | the extension of a pair of starting points is unique |
| `Repeat.WorthwhileRepeatMissed` | scripts/session-stats/sync.py:352-371 | the claim of the docstring fails: a block that holds a worthwhile repeat of 4 lines for which the search reports nothing, because only the longest extension of a pair is tested |
| `Repeat.PromiseKeptIff` | scripts/session-stats/sync.py:352-371 | the exact condition under which the claim of the docstring holds for a block: it holds no worthwhile repeat of at least `min_len` lines, or one of them has at least as large a surplus of meaningful lines as the shortfall of the lines that its longest extension adds |
| `Repeat.ReportsIff` | scripts/session-stats/sync.py:352-371 | the search reports something if and only if some worthwhile repeat is not outweighed by its extension |
| `Repeat.CountsIff` | scripts/session-stats/sync.py:361-368 | the same for a single worthwhile repeat and its longest extension |
| `Repeat.Extend` | scripts/session-stats/sync.py:361-363 | the inner loop finds the longest extension of a pair of positions |
| `Repeat.QualifiesIff` | scripts/session-stats/sync.py:359-370 | what counts, line by line: the same k lines at both positions, apart from each other, no line more, k at least min_len, and at least two of the lines and half of them with four characters or more besides white space |
| `Repeat.MissedInTwice` | scripts/session-stats/sync.py:352-371 | a whole family of such blocks |
| `Repeat.NothingMissedAmongMeaningful` | scripts/session-stats/sync.py:352-371 | when every line of the block is meaningful each repeat of at least `min_len >= 2` lines extends to one the search counts |
| `Getopts.ParseOptionSpec` | crates/brush-builtins-vendored/src/getopts.rs:55-82 | an option takes an argument if and only if its first occurrence is immediately followed by ':'; a leading ':' is silent mode |
| `Getopts.TakesArgumentSnoc` | crates/brush-builtins-vendored/src/getopts.rs:55-82 | what one more character of the option string changes |
| `Getopts.RunIsOnePassParse` | crates/brush-builtins-vendored/src/getopts.rs:102-155 | calling getopts from OPTIND=1 until it fails reports exactly the (option, OPTARG) sequence of a one-pass recursive parse and leaves OPTIND on the first operand, with 1 <= OPTIND <= len+1 |
| `Getopts.RunReportsFuture` | crates/brush-builtins-vendored/src/getopts.rs:102-155 | from any variables whatever, a run reports exactly what is left to report |
| `Getopts.StepTakesHead` | crates/brush-builtins-vendored/src/getopts.rs:163-270 | one call reports the head of what is left and keeps its tail; it fails exactly when nothing is left |
| `Getopts.StepPlain` | crates/brush-builtins-vendored/src/getopts.rs:197-270 | a call before a character without argument, known or not |
| `Getopts.StepTaker` | crates/brush-builtins-vendored/src/getopts.rs:275-307 | a call before a character with an argument: attached, next word, or missing |
| `GetoptsReports.Undeclared` | crates/brush-builtins-vendored/src/getopts.rs:309-325 | a character that the option string does not declare reports ?, and itself as OPTARG if and only if the option string starts with a colon |
| `GetoptsReports.Flag` | crates/brush-builtins-vendored/src/getopts.rs:241-262 | one declared without argument reports itself without OPTARG, and the cursor or OPTIND moves on |
| `GetoptsReports.WithValue` | crates/brush-builtins-vendored/src/getopts.rs:275-307 | one declared with argument reports itself with the rest of the word or the next word; without either : with itself in silent mode, and ? otherwise |
| `GetoptsReports.NoOption` | crates/brush-builtins-vendored/src/getopts.rs:169-196 | no word, a word without hyphen, a single hyphen and -- end the options, and only -- is passed over |
| `GetoptsReports.RunIsSensible` | crates/brush-builtins-vendored/src/getopts.rs:102-155 | over a whole run every report names a declared option, with OPTARG if and only if it is declared with an argument, or stands for an undeclared one or a missing argument |
| `GetoptsReports.OnlyDeclared` | crates/brush-builtins-vendored/src/getopts.rs:102-155 | over a whole run a report of [c] with c other than ? and : names an option that is declared |
| `Getopts.IsValidVariableName` | crates/brush-core-vendored/src/env.rs:656-664 | the check of the target variable: a letter or underscore, then letters, digits and underscores |
| `Getopts.StepDecreases` | crates/brush-builtins-vendored/src/getopts.rs:163-270 | each successful call strictly decreases (words left, characters left in the word) |
| `Getopts.CharIndexInWord` | crates/brush-builtins-vendored/src/getopts.rs:203-218 | the 'argument too short' branch is unreachable |
| `Getopts.StepKeepsCursor` | crates/brush-builtins-vendored/src/getopts.rs:129-138 | a set cursor always points inside the option word at OPTIND, behind only argument-less characters, with LAST_OPTIND equal to OPTIND; a failing call leaves no cursor |
| `Getopts.RestartWorksIff` | crates/brush-builtins-vendored/src/getopts.rs:129-135 | assigning OPTIND between calls restarts the parse there if and only if no cursor is set or the number differs from the one OPTIND has |
| `Getopts.RestartUnnoticed` | crates/brush-builtins-vendored/src/getopts.rs:129-135 | at a reachable state the comment fails: after one call on `-ab`, assigning OPTIND the value 1 it already has does not start over |
| `Getopts.FutureAtWordStart` | crates/brush-builtins-vendored/src/getopts.rs:129-155 | without a cursor what is left is the plain parse from OPTIND on |
| `Getopts.ParseOfPrint` | crates/brush-builtins-vendored/src/getopts.rs:163-307 | printed options parse back in front of any further words |
| `Getopts.PrintRunRoundTrip` | crates/brush-builtins-vendored/src/getopts.rs:163-307 | printing options (clustered flags, attached or separate arguments), "--" and operands and running getopts to the end gives back the options and leaves exactly the operands |
| `Getopts.Shell.ParseNextOption` | crates/brush-builtins-vendored/src/getopts.rs:163-270 | the call with its hidden cursor variable refines `NextOption` |
| `Getopts.Shell.ResolveArgument` | crates/brush-builtins-vendored/src/getopts.rs:275-307 | where the argument comes from, and the missing-argument report in both modes |
| `Getopts.Shell.UpdateVariables` | crates/brush-builtins-vendored/src/getopts.rs:330-380 | what the four variables hold afterwards, and the exit code |
| `Getopts.Shell.Execute` | crates/brush-builtins-vendored/src/getopts.rs:102-155 | the builtin takes one `Step` on the variables of the shell, or fails and changes nothing for an invalid name |
| `Getopts.Shell.Shift` | crates/brush-builtins-vendored/src/shift.rs:14-36 | fails, changing nothing, exactly outside 0..#; otherwise drops that many parameters |
| `Getopts.Shell.OptionLoop` | crates/brush-builtins-vendored/src/getopts.rs:102-155 | the usual loop followed by `shift $((OPTIND - 1))` ends, its shift never fails, and it leaves the operands of the one-pass parse |
| `Intervals.Merge` | scripts/session-stats/optimize_read_config.py:146-157 | sort and sweep give the canonical form: sorted, never adjacent, the same lines, and the same list as adding the intervals one at a time |
| `Intervals.AddInterval` | scripts/session-stats/read_optimizer.py:261-278 | incremental insertion: the same lines plus those of the item, still spaced |
| `Intervals.AddSpaced` | scripts/session-stats/read_optimizer.py:261-278 | adding an interval adds exactly its lines and keeps gaps of at least one line between neighbours |
| `Intervals.AddCanonical` | scripts/session-stats/read_optimizer.py:261-278 | insertion keeps the canonical form |
| `Intervals.CanonicalUnique` | scripts/session-stats/optimize_read_config.py:146-157 | two canonical lists with the same lines are equal |
| `Intervals.SameUnionIff` | scripts/session-stats/optimize_read_config.py:146-157 | two lists denote the same lines if and only if their merges are equal, hence in any order of insertion |
| `Intervals.SweepKeeps` | scripts/session-stats/optimize_read_config.py:150-156 | one step of the sweep |
| `Intervals.ContainedIff` | scripts/session-stats/optimize_read_config.py:160-164 | the containment test holds if and only if every line of the target is in the union |
| `Intervals.IsCoveredIff` | scripts/session-stats/read_optimizer.py:251-258 | the early exit of the covering test loses nothing |
| `Intervals.SubtractExact` | scripts/session-stats/optimize_read_config.py:167-183 | what is left is canonical and holds exactly the lines of the target in no interval |
| `Intervals.SubtractIntervals` | scripts/session-stats/optimize_read_config.py:167-183 | the nested loops with their early exit compute it |
| `Intervals.ChunkRange` | scripts/session-stats/optimize_read_config.py:357-368 | the chunk loop computes `Chunks` |
| `Intervals.ChunkLoopEndsIff` | scripts/session-stats/optimize_read_config.py:357-368 | the chunk loop ends if and only if the range is empty or the cap is at least 1 |
| `Intervals.CutAll` | scripts/session-stats/optimize_read_config.py:167-183 | the inner loop cuts one interval out of every piece |
| `ReplayPair.Replay` | scripts/session-stats/optimize_read_config.py:371-415 | kept is the reads phase one keeps plus the chunks phase two buys, the total is their charges, and the final coverage is exactly what phase one returns together with every line the session received |
| `ReplayPair.Phase1Delivers` | scripts/session-stats/optimize_read_config.py:389-402 | skipping contained reads loses nothing: phase one delivers exactly the lines its reads would return one by one |
| `ReplayPair.SkippedIffDelivered` | scripts/session-stats/optimize_read_config.py:392-402 | a read is skipped exactly when it names no lines or earlier reads delivered all of them |
| `ReplayPair.BoughtExactly` | scripts/session-stats/optimize_read_config.py:404-415 | each observed line missing after phase one is in exactly one bought chunk, no other line is bought, and no chunk is above the line and byte caps |
| `ReplayPair.BoughtCovers` | scripts/session-stats/optimize_read_config.py:404-415 | the same as a statement about coverage |
| `ReplayPair.ChunksPartition` | scripts/session-stats/optimize_read_config.py:357-368 | the chunks of a range hold each of its lines once, none above the cap |
| `ReplayPair.GapsPartition` | scripts/session-stats/optimize_read_config.py:404-407 | the gaps of the needs hold each uncovered line once |
| `ReplayPair.EffectiveReturned` | scripts/session-stats/optimize_read_config.py:315-343 | a read returns a non-empty window within the line and byte caps, except for the kinds that name no lines |
| `ReplayPair.ReturnedLines` | scripts/session-stats/optimize_read_config.py:331-343 | line by line: a read returns its first line (1, or the requested start) and every later line that is asked for, in the file, and within the line cap and the byte cap; nothing else |
| `ReplayPair.ChunkCap` | scripts/session-stats/optimize_read_config.py:357-362 | a chunk may have one line, or as many as are within both caps |
| `ReplayPair.Phase1Charges` | scripts/session-stats/optimize_read_config.py:385-402 | phase one keeps exactly the reads that return a line no earlier read returned, and charges each its lines at the rate of its kind and 200 tokens |
| `ReplayPair.ChunkCostIs` | scripts/session-stats/optimize_read_config.py:346-354 | bought chunks cost their lines at the full rate and 200 tokens each |
| `ReplayPair.ReplayObserved` | scripts/session-stats/optimize_read_config.py:385-402 | the first loop computes phase one and the observed intervals |
| `ReplayPair.ChargeRead` | scripts/session-stats/optimize_read_config.py:389-402 | one read: skipped if contained, else charged and merged into the coverage |
| `ReplayPair.FillGaps` | scripts/session-stats/optimize_read_config.py:408-415 | the second loop charges every chunk of every gap and covers them |
| `ReadReplay.SkippedIffDelivered` | scripts/session-stats/read_optimizer.py:346-394 | a read is skipped exactly when every line it asks for was delivered by paid reads of its group before |
| `ReadReplay.CoverageIsDelivered` | scripts/session-stats/read_optimizer.py:341-394 | the folded coverage is exactly the set of lines delivered so far |
| `ReadReplay.ShortDeliveryIsTruncation` | scripts/session-stats/read_optimizer.py:372-377 | a paid explicit request (start >= 1) that is not delivered in full is counted as a truncation |
| `ReadReplay.ShortIff` | scripts/session-stats/read_optimizer.py:235-240 | a paid explicit request of n lines (start >= 1) is not delivered in full if and only if n plus the context lines in front of it exceed the cap |
| `ReadReplay.CountedIff` | scripts/session-stats/read_optimizer.py:372-377 | it is counted as a truncation if and only if n plus the context on both sides reaches the cap, and with all the configured context in front exceeds it |
| `ReadReplay.CountedInFull` | scripts/session-stats/read_optimizer.py:372-377 | so a request can be counted although it is delivered in full: lines 1 to 105 under a cap of 105 with 10 lines of context |
| `ReadMeaning.RequestedLines` | scripts/session-stats/read_optimizer.py:221-228 | line by line what each kind of call asks for |
| `ReadMeaning.DeliveredLines` | scripts/session-stats/read_optimizer.py:231-248 | line by line what it gets: context on both sides of an explicit request, in front of an open one, the first lines for a default one, never more than the cap |
| `ReadMeaning.PayIs` | scripts/session-stats/read_optimizer.py:372-388 | a paid call costs its arguments and the tokens of the delivered lines, at most 12800 or 128 a line, and is counted as limited exactly above that |
| `ReadMeaning.JudgeIs` | scripts/session-stats/read_optimizer.py:346-394 | a call without bounds costs what it did; any other is skipped or pays for its own window |
| `ReadMeaning.TruncatedIff` | scripts/session-stats/read_optimizer.py:373-377 | an explicit call that reaches the cap is counted as truncated if and only if the lines that it names, or a single one, exceed the cap together with the context; a bound of 0 counts as missing |
| `ReadMeaning.FiguresAre` | scripts/session-stats/read_optimizer.py:316-407 | every figure of the replay, for all reads and for each cohort, is the sum of what each call and each group adds to it |
| `ReadReplay.NoTruncationMeansDelivered` | scripts/session-stats/read_optimizer.py:316-407 | with zero truncations every explicit request of every group is delivered in full, at the latest when it is made |
| `ReadReplay.PaidPlusSkipped` | scripts/session-stats/read_optimizer.py:316-407 | paid plus skipped reads equals all reads, overall and in the selector and default cohorts |
| `ReadReplay.GroupConserves` | scripts/session-stats/read_optimizer.py:334-407 | the same within one group |
| `ReadReplay.DeliveredIsWindow` | scripts/session-stats/read_optimizer.py:221-248 | no request is empty; what is delivered for a request that starts at line 1 or later is not empty, and for one that starts at line 0 it may be |
| `ReadReplay.Replay` | scripts/session-stats/read_optimizer.py:316-407 | the loops over groups and calls compute the sum of all shares |
| `ReadReplay.ReplayGroup` | scripts/session-stats/read_optimizer.py:334-407 | one group |
| `ReadReplay.ReplayCall` | scripts/session-stats/read_optimizer.py:346-394 | one call: skipped, raw or paid, with its share of every total |
| `ReadReplay.FirstCoversLater` | scripts/session-stats/read_optimizer.py:395-404 | whether the window delivered first holds every later bounded request |
| `Pareto.Frontier` | scripts/session-stats/read_optimizer.py:446-457 | exactly the frontier of the eligible results: members only, tokens strictly rise and calls strictly fall, every result is weakly dominated by a member, and a member is dominated only by results equal to it in both coordinates |
| `Pareto.FrontierMeans` | scripts/session-stats/read_optimizer.py:446-457 | the frontier in plain numbers: no member has too many truncations or tokens, tokens rise and calls fall, every other admissible result has a member with no more of either, and none has less than a member of one and no more of the other |
| `Pareto.FrontierGrows` | scripts/session-stats/read_optimizer.py:452-456 | a result with fewer calls than all members joins the frontier |
| `Pareto.FrontierStays` | scripts/session-stats/read_optimizer.py:452-456 | any other later result is dominated |
| `Pareto.FrontierUnique` | scripts/session-stats/read_optimizer.py:446-457 | two frontiers of the same results have the same coordinates |
| `Boundary.CutIsStable` | scripts/session-stats/harmony_backtest.py:422-523 | the kept end is a line end; parsing the text cut there gives the same end, target files, payload and deleted counts, never again a missing payload, and the same operation count except exactly one less when an insert had no payload |
| `Boundary.KeptPart` | scripts/session-stats/harmony_backtest.py:432-510 | the lines up to the kept end are a complete parse with the same sections, up to the pending insert |
| `Boundary.KeptIsLongest` | scripts/session-stats/harmony_backtest.py:432-510 | no longer run of lines is complete: the parser keeps the longest complete prefix |
| `Boundary.AppendedLines` | scripts/session-stats/harmony_backtest.py:432-510 | appending whole lines never lowers the kept end, never changes earlier sections, only adds to the last one, and changes nothing at all once the parse has stopped |
| `Boundary.RunExtends` | scripts/session-stats/harmony_backtest.py:432-510 | the same on runs of lines |
| `Boundary.StepFromSettled` | scripts/session-stats/harmony_backtest.py:432-510 | where one line leads when everything before is complete |
| `Boundary.StepFromWaiting` | scripts/session-stats/harmony_backtest.py:440-497 | behind an insert only payload is accepted; every other line ends the parse |
| `Boundary.CountTotals` | scripts/session-stats/harmony_backtest.py:94-117 | counting in the current section adds exactly that to the totals and changes no target |
| `Boundary.CutSpans` | scripts/session-stats/harmony_backtest.py:292-304 | cutting behind a line leaves exactly the lines in front of it, with the same ends |
| `BoundaryForms.KeptIsLongestDocument` | scripts/session-stats/harmony_backtest.py:432-510 | what is kept follows that grammar and is the longest beginning of the input that does |
| `BoundaryForms.KeptWholeIff` | scripts/session-stats/harmony_backtest.py:432-510 | an input is kept whole if and only if it follows a grammar: blank lines, envelope marks, then sections of operations, blank lines and marks, with payload only behind an operation or its payload and at least one payload line behind each insert |
| `BoundaryForms.BodyIff` | scripts/session-stats/harmony_backtest.py:444-510 | the same from any state inside a section |
| `BoundaryLines.InsertIff` | scripts/session-stats/harmony_backtest.py:59 | for every line: it is an insert if and only if it is one of the two insert signs and BOF, EOF or an anchor (a number without leading zero and two letters), with nothing but white space around that |
| `BoundaryLines.ReplaceIff` | scripts/session-stats/harmony_backtest.py:60-61 | for every line: it replaces n lines if and only if it is the replace sign and one anchor, or two with two dots between them, n lines apart, with nothing but white space around that |
| `BoundaryLines.HeaderIff` | scripts/session-stats/harmony_backtest.py:56 | for every line: it is a header of a file if and only if it is section signs and the name, or the longer form with white space in front of the name |
| `BoundaryLines.MarkIff` | scripts/session-stats/harmony_backtest.py:57-58 | for every line: the envelope marks, with nothing but white space behind |
| `BoundaryLines.LookIs` | scripts/session-stats/harmony_backtest.py:474-478 | for every line: blank means white space only, and the four signs in front mean no payload |
| `BoundaryLines.RangeIff` | scripts/session-stats/harmony_backtest.py:413-419 | a range is one anchor or two, and its size the number of lines between them, at least one |
| `BoundaryOutcome.VerdictIs` | scripts/session-stats/harmony_backtest.py:512-523 | a text is usable if and only if a kept line is a header; an insert lacks its payload if and only if it is the first line not kept; the line number is that of the line that ended the parse |
| `BoundaryOutcome.LegacyIff` | scripts/session-stats/harmony_backtest.py:515-516 | a text goes to the parser of the older format if and only if no section was found and --- comes first behind white space |
| `BoundaryPrint.PrintedIsKept` | scripts/session-stats/harmony_backtest.py:422-523 | printing any files (short or long header, operation lines, payload lines, line feeds) gives a text that the parser keeps to its end, complete, with the printed numbers of operations, payload lines and deleted lines in every section |
| `BoundaryPrint.TextKeptWholeIff` | scripts/session-stats/harmony_backtest.py:422-523 | a text is kept to its last character if and only if its lines follow the grammar |
| `BoundaryPrint.InsertLook` | scripts/session-stats/harmony_backtest.py:432-497 | a printed insert line is seen as an insert, not blank and not payload |
| `BoundaryPrint.ReplaceLook` | scripts/session-stats/harmony_backtest.py:432-507 | a printed replace line is seen as a replacement of the lines of its range |
| `BoundaryPrint.HeaderLook` | scripts/session-stats/harmony_backtest.py:432-465 | a printed header of either form is seen as the header of its file |
| `BoundaryForms.WellFormedIsKept` | scripts/session-stats/harmony_backtest.py:422-523 | the same on the lines as the parser sees them: a well-formed input is kept to its end, with its own counts in every section |
| `BoundaryText.InsertLineRead` | scripts/session-stats/harmony_backtest.py:59 | a printed insert line is recognised |
| `BoundaryText.ReplaceLineRead` | scripts/session-stats/harmony_backtest.py:413-419 | a printed replace line is recognised with the number of lines of its range, at least one |
| `BoundaryText.UpdateRead` | scripts/session-stats/harmony_backtest.py:56 | the `*** Update File:` header names its file |
| `BoundaryText.HeaderRead` | scripts/session-stats/harmony_backtest.py:56 | the section header names its file |
| `BoundaryForms.OpRun` | scripts/session-stats/harmony_backtest.py:470-507 | one operation with its payload counts once, with its deleted lines and payload lines |
| `BoundaryProgram.LineSpans` | scripts/session-stats/harmony_backtest.py:292-304 | the loop that collects lines and their ends |
| `BoundaryProgram.ReadInSection` | scripts/session-stats/harmony_backtest.py:470-510 | a line below a header: flags and counters in place |
| `BoundaryProgram.ReadContent` | scripts/session-stats/harmony_backtest.py:444-510 | any line behind the leading blank ones |
| `BoundaryProgram.ScanSpans` | scripts/session-stats/harmony_backtest.py:422-523 | the loop with its early exits computes the run of the state machine |
| `BoundaryProgram.ParseEditBoundary` | scripts/session-stats/harmony_backtest.py:422-523 | with the older format as a parameter, the whole parser |
| `TextLines.SplitConcat` | scripts/session-stats/harmony_backtest.py:295 | `splitlines` of two texts with a line end between them |
| `TextLines.CutLines` | scripts/session-stats/harmony_backtest.py:295 | cutting a text behind its first lines leaves exactly these lines |
| `TextLines.LinesEndIsLineEnd` | scripts/session-stats/harmony_backtest.py:295 | the end of each line is a line end, never between a carriage return and its line feed |
| `TextLines.LinesAre` | scripts/session-stats/harmony_backtest.py:295 | a line holds no line end before its own, which may be a carriage return and a line feed, and only the last one may lack it |
| `TextLines.BreaksAre` | scripts/session-stats/harmony_backtest.py:295 | the ten characters that end a line |
| `Marker.CutIsClean` | scripts/session-stats/harmony_backtest.py:562-611 | whenever the action is sanitize_tail, evaluating the cut text finds nothing and yields allow, and its parse is that of the kept part |
| `Marker.TailIsCutIff` | scripts/session-stats/harmony_backtest.py:546-559 | for any boundary at a line end the action is sanitize_tail if and only if the boundary is ok, there are signals, and the cut removes all of them |
| `Marker.SignalsInCut` | scripts/session-stats/harmony_backtest.py:251-281 | a text cut at a line end holds no signal if and only if no signal of the whole text starts in front of the cut |
| `Marker.FindAtLineEnd` | scripts/session-stats/harmony_backtest.py:261-272 | the matches in a text cut at a line end are exactly those of the whole text in front of the cut |
| `Marker.FindInCut` | scripts/session-stats/harmony_backtest.py:261-272 | a search whose matches do not reach over a position finds in front of it what it finds in the cut text |
| `Marker.FindSound` | scripts/session-stats/harmony_backtest.py:261-272 | the search finds places where the pattern matches, with the length of the match |
| `Marker.FindApart` | scripts/session-stats/harmony_backtest.py:261-272 | found matches are in order and do not overlap |
| `Marker.FindComplete` | scripts/session-stats/harmony_backtest.py:261-272 | a place where the pattern matches is left out only inside a found match |
| `Marker.TagIff` | scripts/session-stats/harmony_backtest.py:27 | a tag matches exactly where the text goes on with one of the six tags |
| `Marker.CallIs` | scripts/session-stats/harmony_backtest.py:26 | a call marker takes the literal and the whole name behind it |
| `Marker.LengthLocal` | scripts/session-stats/harmony_backtest.py:26-27 | a match depends only on the line it is in |
| `Marker.UnfencedInCut` | scripts/session-stats/harmony_backtest.py:190-196 | fence state depends only on the text in front of the match |
| `Marker.IsInsideFencedBlock` | scripts/session-stats/harmony_backtest.py:190-196 | the toggling loop computes the parity of the fence lines |
| `Marker.DetectSignals` | scripts/session-stats/harmony_backtest.py:251-281 | the two loops and the sort compute the list of signals |
| `MarkerMeaning.SignalIff` | scripts/session-stats/harmony_backtest.py:251-281 | a position holds a signal if and only if it is outside a fence, as far as fences matter, and one of the six tags is there, or a call marker at the start of a word that is not the name of another one that counts |
| `MarkerMeaning.SignalSpans` | scripts/session-stats/harmony_backtest.py:26-27 | a signal takes the whole tag, or the literal and the longest run of letters, digits and underscores behind it |
| `MarkerMeaning.SignalsInOrder` | scripts/session-stats/harmony_backtest.py:279 | signals come in the order of their positions, and no two start at the same one |
| `MarkerMeaning.ActionIs` | scripts/session-stats/harmony_backtest.py:546-559 | for every tool: allow if and only if there is no signal; sanitize_tail only for the edit tool with a usable boundary and no signal in front of its end; abort_replay in every other case |
| `MarkerMeaning.AllowedIff` | scripts/session-stats/harmony_backtest.py:546-559 | an input is allowed if and only if it holds neither a tag nor a call marker outside a fence |
| `MarkerMeaning.OpenFenceIff` | scripts/session-stats/harmony_backtest.py:190-196 | inside a fence means an odd number of lines that start, behind white space, with three backticks or tildes |
| `Affected.ExpandWithDependents` | scripts/ci-dev-affected.ts:305-321 | the worklist ends, for cyclic graphs too, with exactly the names on dependency paths from touched packages, each once, all packages of the workspace, sorted by directory |
| `Affected.FindTouched` | scripts/ci-dev-affected.ts:301-303 | the packages whose directory holds a changed path |
| `Affected.IsUnderIff` | scripts/ci-dev-affected.ts:302 | a path is in a directory if and only if it is it or goes on behind it with a slash |
| `Affected.EdgeIff` | scripts/ci-dev-affected.ts:323-333 | a package depends on another if and only if one of its four tables gives it a version that is not empty, and that is one of the workspace or the other is a package of it |
| `Affected.AddDependents` | scripts/ci-dev-affected.ts:309-319 | taking one name from the queue keeps the invariant, and either selects something new or shortens the queue |
| `Affected.Close` | scripts/ci-dev-affected.ts:309-319 | the loop ends for cyclic graphs too, with an empty queue and the invariant |
| `Affected.ChainSelected` | scripts/ci-dev-affected.ts:305-321 | completeness: when the queue is empty every dependency path ends in a selected package |
| `Affected.InvGivesClosure` | scripts/ci-dev-affected.ts:305-321 | at an empty queue selected and reachable names coincide |
| `Affected.Start` | scripts/ci-dev-affected.ts:306-308 | the touched packages by name, and their names queued |
| `Affected.Set` | scripts/ci-dev-affected.ts:307 | what one insertion-ordered assignment changes |
| `Affected.SortKeepsDistinct` | scripts/ci-dev-affected.ts:320 | sorting keeps the names distinct |
| `Plan.PackageIsPlannedIff` | scripts/ci-dev-affected.ts:189-226 | with distinct names, the check or the test of a package is planned if and only if packages are validated one by one (not full workspace, ci-only or workflow-only), the package depends on a touched one, and it has the script; it runs in the directory of the package |
| `Plan.PlannedKeys` | scripts/ci-dev-affected.ts:189-280 | keys are unique; root tests are planned exactly in the full mode, package tasks exactly for affected packages with the script |
| `Plan.NativeFirst` | scripts/ci-dev-affected.ts:207-226 | the linux native build stands in front of every package test and of the root tests |
| `Plan.PlannedPlace` | scripts/ci-dev-affected.ts:219-224 | a planned package task runs where its package is |
| `Plan.AddAllKeys` | scripts/ci-dev-affected.ts:295-299 | each wanted key is planned once and no other |
| `Plan.AddAllNative` | scripts/ci-dev-affected.ts:295-299 | leaving out repeated keys keeps the native build in front |
| `Plan.TaskMap.Add` | scripts/ci-dev-affected.ts:295-299 | adds behind the others unless the key is there |
| `Plan.TaskMap.AddPackages` | scripts/ci-dev-affected.ts:218-225 | the loop over the affected packages |
| `Plan.AddValidation` | scripts/ci-dev-affected.ts:207-226 | the three modes |
| `Plan.PlanTasks` | scripts/ci-dev-affected.ts:189-280 | the method plans exactly the wanted tasks of the flags and the affected packages |
| `PlanMeaning.WorkspaceTasks` | scripts/ci-dev-affected.ts:207-229 | the root check, the root tests and the linux native build by the changed paths and affected packages that ask for them |
| `PlanMeaning.PackageTasksPlanned` | scripts/ci-dev-affected.ts:214-226 | the check and the test of a package name by the mode, the affected packages and their scripts |
| `PlanMeaning.LanguageTasksPlanned` | scripts/ci-dev-affected.ts:250-262 | the python, web and rust tasks by the changed paths |
| `PlanMeaning.ReleaseTasksPlanned` | scripts/ci-dev-affected.ts:230-248 | the release and SDK tasks by the changed paths |
| `PlanMeaning.SmokeTasksPlanned` | scripts/ci-dev-affected.ts:263-277 | the install and CLI smoke tests, the native build, and the tests of the selector itself by the changed paths |
| `PlanMeaning.PlacesAre` | scripts/ci-dev-affected.ts:218-256 | every planned task runs in the directory of its package, of the SDK or of the web application, or at the root |
| `PlanMeaning.BasenameIff` | scripts/ci-dev-affected.ts:372 | the base name of a path is the last name in it, whatever slashes are behind |
| `MapFile.ReadEntries` | crates/brush-builtins-vendored/src/mapfile.rs:118-176 | for every input: a negative count is an error before anything is read; otherwise the entries are take(max, drop(skip, lines)) with the delimiter stripped if and only if -t, and at the limit no further byte is read; with no skip, no limit and no -t the entries concatenate to the input if and only if no byte of it acts as a control byte |
| `MapFile.EntriesAre` | crates/brush-builtins-vendored/src/mapfile.rs:157-173 | entry by entry: how many there are, which line each is, and that a delimiter is taken off its end if and only if -t |
| `MapFile.CleanIff` | crates/brush-builtins-vendored/src/mapfile.rs:139-150 | no byte acts as a control byte if and only if there is no byte 3, and no byte 4 in front or behind a delimiter |
| `MapFile.DelimiterIs` | crates/brush-builtins-vendored/src/mapfile.rs:118-134 | the delimiter is the line feed, the zero byte for an empty -d, and else its first byte |
| `MapFile.NothingLostIff` | crates/brush-builtins-vendored/src/mapfile.rs:135-159 | the raw lines concatenate to the input, and are the input cut behind each delimiter, if and only if it holds no interrupt byte and no line starts with the end-of-input byte |
| `MapFile.LinesOfClean` | crates/brush-builtins-vendored/src/mapfile.rs:135-159 | without such bytes the lines are the input cut behind each delimiter; with one, something is lost |
| `MapFile.WithoutControlIsClean` | crates/brush-builtins-vendored/src/mapfile.rs:142-143 | input without the bytes 0x03 and 0x04 is of that kind |
| `MapFile.ReadNoFurther` | crates/brush-builtins-vendored/src/mapfile.rs:135-173 | the lines read and what is left in the stream make up the input |
| `MapFile.TakeFirst` | crates/brush-builtins-vendored/src/mapfile.rs:139-155 | one inner loop reads the first record, or drops a byte at a control byte |
| `MapFile.ReadLine` | crates/brush-builtins-vendored/src/mapfile.rs:136-155 | the inner loop over single bytes |
| `MapFile.ReadAll` | crates/brush-builtins-vendored/src/mapfile.rs:135-173 | the outer loop with skip and limit |
| `ToolIO.WeightBound` | scripts/tool_io.py:215-230 | what is yielded is a prefix of the unlimited stream; its weight is at most max_items in calls mode and max_items + 1 in events mode, and it is whole or has reached max_items; a limit below one lets exactly one item through |
| `ToolIO.LimitIs` | scripts/tool_io.py:371-374 | in numbers: counting calls, the limit yields the first max_items invocations; counting events, calls and results together are at most one above it |
| `ToolIO.FileEventsIs` | scripts/tool_io.py:163-208 | the events of a file are the calls in its messages and the results with an id and a wanted name, and no others |
| `ToolIO.PutIs` | scripts/tool_io.py:186-194 | a second call with an id replaces the waiting one where it is, and a new one comes last |
| `ToolIO.RemoveIs` | scripts/tool_io.py:203 | an answered call is taken out and the others stay in order |
| `ToolIO.RunPairs` | scripts/tool_io.py:163-220 | for every sequence of events, repeated ids included: pending holds exactly the calls with no later event of their id, and each call whose next event of its id is a result has been yielded with it, as often as that happens, and nothing else |
| `ToolIO.DueSnoc` | scripts/tool_io.py:163-220 | what one more event changes: a result answers the waiting call with its id, a call takes the place of a waiting one |
| `ToolIO.DueAtMostCalled` | scripts/tool_io.py:163-220 | an invocation is due at most as often as its call is made |
| `ToolIO.FileIsDue` | scripts/tool_io.py:161-230 | a file yields each invocation exactly as often as it is due, unresolved ones only if they are asked for |
| `ToolIO.StreamIsDue` | scripts/tool_io.py:154-230 | the unlimited stream holds each invocation as often as it is due in all files, and nothing else |
| `ToolIO.LimitedConcat` | scripts/tool_io.py:215-230 | once the limit is reached nothing more is yielded |
| `ToolIO.ReadFile` | scripts/tool_io.py:161-230 | one file with its pending dictionary, the early return and the unresolved rest |
| `ToolIO.IterToolInvocations` | scripts/tool_io.py:154-230 | the generator yields the limited stream of all files; if the limit is not reached, the output holds each invocation exactly as often as it is due in the files: each wanted call whose next event of its id is a wanted result, with that result, and each one without a later event, without result, if unresolved calls are asked for |

## Left out

Simplifications inside what is modelled:

- Hashline.AnchorLine: only ASCII digits form a number, although `\d` accepts any Unicode digit; Python's limit on the length of integer literals is not modelled.
- HashlineRoundTrip.ParseOfPrint: payload lines that look like markers, headers or operations, or end with a carriage return, cannot be printed faithfully and are excluded.
- SyncProgram.BatchCountTokens: rows get their token counts when they are made; the program fills them in after the loop.
- SessionTables.ResumeIsFullParse: the metadata columns of `ss_sessions` (kept by COALESCE), row ids, time stamps of the sync, and the duplicate-anchor and repeat columns of the sections are not part of the tables.
- Sync.AnyInterleaving: one file and one sync process; appends and rewrites are whole lines, because an unterminated last line is consumed as bad JSON (`TableMeaning.CutLineLost` and `ResumeIsFullParseIff` show what that breaks). A file that disappears, I/O errors and lines that make the parser itself fail end a pass without effect; they are the step `Abort`.
- Sync.PassIsExactIff: about a pass that no write to the file interrupts; for interrupted ones `Sync.TablesAfterAnyHistory` says what the tables are.
- Getopts.Shell.Execute: a target named OPTIND or OPTARG, read-only variables, error text, OPTERR and 32-bit overflow are not modelled; variables hold numbers, so unparsable values of OPTIND appear as unset.
- Getopts.PrintRunRoundTrip: an attached argument that is empty, and option words that would print as `-` or `--`, are excluded, because the syntax has no form for them.
- ReplayPair.Replay: needs a line cap of at least 1; with a smaller one the chunk loop of the source does not end (`Intervals.ChunkLoopEndsIff`). Token and byte rates are reals.
- ReadReplay.SkippedIffDelivered: needs limits of at least one line and requests as the reader of the log builds them (no reversed range, no negative line).
- ReadReplay.ShortDeliveryIsTruncation: a request that starts at line 0 never gets that line, which does not exist; the statement starts at line 1.
- Boundary.CutIsStable: the parser of the older `---` format is a parameter; the statement is about texts that do not reach it.
- Boundary.AppendedLines: about the parser of the current format; appending can turn a blank text into one of the older format.
- Marker.CutIsClean: the marker strategy only. The fusion and tail strategies look at evidence across the cut; labels and details of signals are not modelled.
- Affected.ExpandWithDependents: the order of directories is a parameter; names that JavaScript objects inherit (such as `constructor`) count as absent entries.
- Plan.PlanTasks: descriptions and command lines follow from the key and are not stored; keys are constructors instead of strings.
- MapFile.ReadEntries: entries are bytes, before the lossy conversion to text; read errors, terminal settings, `-O`, `-C` and the assignment to the array are not modelled.
- ToolIO.IterToolInvocations: entries are already decoded, and their order and the list of files are given. `IterToolInvocations` says how often each invocation is yielded; the order is that of the specification `Stream`.
- BoundaryPrint.PrintedIsKept: prints no blank lines and no envelope marks between sections; `BoundaryForms.KeptWholeIff` covers them.

Not modelled:

- SQLite, JSON, tiktoken, the regular expression engines, argument parsing and plotting: libraries whose source is not part of the repository.
- `looks_successful`, `extract_warnings`, `duplicated_anchors` and the other single-pass text checks of `sync.py`: each is a filter over one string without state that later code depends on; they appear as parameters.
- `analyze_selector_reads.py` apart from its interval merge, which is the one of `Intervals`: its remaining code counts and prints; its inverted ranges are outside the interval precondition.
- `ReservoirSample` (its result depends on a random source), and `resolve_tool_names` and the filters of `tool_io.py` (membership tests, given here as the configuration).
- Reading git and the manifests in `ci-dev-affected.ts`: process output and files, given here as parameters.
- The other shell builtins: each passes its arguments to a shell library that is not part of this model.
- Release, publish, rebrand and documentation scripts, benchmarks and smoke tests: they call external programs in a fixed order.
