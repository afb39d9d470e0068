# InertialFlowCutter, modelled in Dafny

InertialFlowCutter computes nested-dissection orders for customizable
contraction hierarchies (CCH) on road graphs. The C++ `console` tool loads a
graph, runs a queue of commands given on the command line, reorders nodes and
arcs, and prints metrics as `label : value` lines. A set of Python scripts
runs the tool and the competing partitioners, parses what they print, keeps
experiment ledgers (CSV tables keyed by graph and partitioner), and renders
LaTeX tables from them.

This project models both layers.

- **Evaluation scripts.** This covers:
  - the metrics-log parser shared by all the scripts, including its exact
    regular-expression semantics;
  - the per-script variants of that parser: blank-line skipping, the
    `running_time` rename and the rescaling;
  - path and name construction and summary lines;
  - the gpmetis invocation and its timing extraction;
  - cut selection per imbalance bound;
  - the experiment ledgers: containment, append-if-absent and the stable
    multi-key sort;
  - the three table renderers: unit rescaling, per-group and whole-column
    minimum bolding, the heat-map bucket, digit grouping, and the marking
    of unbalanced cells.
- **Graph algorithms.** This covers:
  - the explicit-stack DFS preorder;
  - the unit-capacity Ford–Fulkerson maximum flow, with its saturation,
    conservation and finishing invariants;
  - the unit-capacity Dinic maximum flow (level BFS, blocking-flow DFS and
    `advance`);
  - the FlowCutter variant of Dinic;
  - inertial-flow source and target selection, scheduling and separator
    extraction;
  - the CCH ordering combinators of `min_fill_in.h`;
  - the core state of the accelerated FlowCutter;
  - the console's command dispatcher, its in-place graph transformations,
    and the statistics its `examine_node_color_cut` and
    `examine_chordal_supergraph` commands print.

The Python scripts are modelled as functions over sequences of lines and
records, with loop-shaped methods proved equal to them. The C++ algorithms
are classes over arrays, with loop invariants that carry what the source's
own debug checks assert. Numbers that Python holds as floats are held
exactly, as `real`.

## Model

| member | source | states |
|---|---|---|
| MetricsLog.SpacePrefix | evaluation/order_experiments.py:62 | the leading `\s*` run: all Python whitespace and maximal |
| MetricsLog.ValuePrefix | evaluation/order_experiments.py:62 | the leading `[0-9.]` run, maximal |
| MetricsLog.LabelGroupSound | evaluation/order_experiments.py:62 | a captured label is non-empty, uses only `[a-zA-Z_ ]`, and the text before it is whitespace |
| MetricsLog.LabelGroupComplete | evaluation/order_experiments.py:62 | whenever the text splits into whitespace and a label, a label is captured, one no longer than that label |
| MetricsLog.ValueGroupSound | evaluation/order_experiments.py:62 | a captured value is a non-empty run of digits and dots, followed only by non-digits |
| MetricsLog.ValueGroupComplete | evaluation/order_experiments.py:62 | whenever the text splits into a value run and a digit-free tail, a value is captured, one no shorter than that run |
| MetricsLog.MatchSound | evaluation/order_experiments.py:62-63 | every match is a reading of the line against `^\s*([a-zA-Z_ ]+) : ([0-9.]+)[^0-9]*$` with the reported groups |
| MetricsLog.FirstColon | evaluation/order_experiments.py:62 | in every reading, the " : " sits at the first ':' of the line |
| MetricsLog.MatchComplete | evaluation/order_experiments.py:62-63 | every reading makes the matcher succeed, with the shortest label and the longest value (the greedy groups) |
| MetricsLog.MatchAt | evaluation/order_experiments.py:62 | a line with a label reading before its first ':' and a value reading after it matches |
| MetricsLog.MatchIff | evaluation/order_experiments.py:62-63 | the matcher succeeds exactly on the lines the pattern matches |
| MetricsLog.TypeValueInt | evaluation/order_experiments.py:66-69 | a decimal integer literal is typed as that `int` |
| MetricsLog.TypeValueFloat | evaluation/order_experiments.py:66-67 | `a.f` is typed as the float a + f/10^\|f\| |
| MetricsLog.TypeValueFails | evaluation/order_experiments.py:66-69 | typing fails exactly on a dotted value with two or more dots or no digit |
| MetricsLog.Steps | evaluation/order_experiments.py:59-70 | one entry per line, in order |
| MetricsLog.ParseLog | evaluation/order_experiments.py:58-71 | the line loop builds exactly `Parse` of the lines: the dictionary of all entries, or the first failure |
| MetricsLog.FoldErrPersists | evaluation/order_experiments.py:63 | a failing prefix is the result of the whole log (the assert aborts) |
| MetricsLog.FoldFails | evaluation/order_experiments.py:62-63 | the fold fails iff some line fails, and then with the first failing line's error |
| MetricsLog.LastNaming | evaluation/order_experiments.py:70 | the index of the last step naming a key, or -1 when none names it |
| MetricsLog.FoldGet | evaluation/order_experiments.py:70 | the folded dictionary maps a key to the value of the last step naming it |
| MetricsLog.FoldLastWins | evaluation/order_experiments.py:70 | a key holds the value of its LAST assignment, and is absent when never assigned |
| MetricsLog.FoldValid | evaluation/order_experiments.py:70 | folded keys are distinct |
| MetricsLog.FoldKeys | evaluation/order_experiments.py:70 | every folded key was assigned by some step |
| MetricsLog.ParseFails | evaluation/order_experiments.py:62-63 | a log is rejected iff one of its lines is, with the first such line's error |
| MetricsLog.ParseLastWins | evaluation/inertialflowcutter_order.py:36 | a later duplicate label overwrites an earlier one; unnamed keys are absent |
| MetricsLog.ParseValid | evaluation/order_experiments.py:70 | the parsed dictionary has distinct keys |
| MetricsLog.EntryRenames | evaluation/inertialflowcutter_order.py:33-35 | under the rename rule, a time line's key is "order_running_time" and its value is the float of microseconds / 10^6 |
| MetricsLog.ParseRenames | evaluation/parameterstudy.py:49-52 | under the rename rule, the only parsed key containing "running_time" is "order_running_time", and it holds a float |
| MetricsLog.NonBlank | evaluation/order_experiments.py:60-61 | the lines with the blank ones removed |
| MetricsLog.EntrySkip | evaluation/order_experiments.py:60-61 | with skipping, a blank line contributes nothing and any other line reads as without skipping |
| MetricsLog.SkipBlankLines | evaluation/order_experiments.py:59-61 | skipping blank lines gives the same result as parsing the log without them |
| MetricsLog.BlankLineFails | evaluation/parameterstudy.py:40-42 | without blank skipping, a blank line makes the whole log fail |
| OrderScripts.ScriptPathsAgree | evaluation/flowcutter_order.py:13-17 | each script's order and log paths are `G.P.order` and `G.P.order.log` for the name it reports (also kahip_order.py:13-17 and inertialflow_order.py:14-18) |
| OrderScripts.NamesInjective | evaluation/inertialflowcutter_order.py:41 | different cutter counts give different partitioner names, so orders never share a file |
| OrderScripts.NamesOrderTime | evaluation/inertialflowcutter_order.py:33-34 | a line's entry is named "order_running_time" iff its label contains "running_time" |
| OrderScripts.OrderTimeIsLastTimeLine | evaluation/inertialflowcutter_order.py:84 | the reported time fails iff no line reports a time; otherwise it is the LAST time line's value in seconds |
| OrderScripts.SummaryFields | evaluation/inertialflowcutter_order.py:84-85 | the summary is exactly the fields P, G, and the time rounded to 3 decimals (within half a millisecond), comma-separated |
| MetisCut.MetisArgsShape | evaluation/metis_cut.py:58-63 | gpmetis bisects "tmp.graph" into 2 parts; ε == 0 becomes ufactor 1; otherwise ufactor = ⌊1000·ε⌋ |
| MetisCut.UFactorOfImbalances | evaluation/metis_cut.py:61-63 | the ufactor of every ε the cut experiments use (1, 10, 30, …, 900) |
| MetisCut.SearchSec | evaluation/metis_cut.py:69 | `re.search` of `([0-9.]+) sec`: none iff no position matches; otherwise a group of digits and dots at a matching position |
| MetisCut.TimeSteps | evaluation/metis_cut.py:66-71 | one step per gpmetis output line |
| MetisCut.PartitioningTime | evaluation/metis_cut.py:65-71 | the output loop builds the fold of the per-line time steps |
| MetisCut.MetisCut | evaluation/metis_cut.py:56-76 | the invocation is `MetisArgs(ε)` and the row is the timing merged with the cut report |
| MetisCut.MetisRowKeys | evaluation/metis_cut.py:66-73 | the report's metrics win; "running_time" is the last "  Partitioning:" line's seconds unless the report has its own; no other key is added |
| InertialFlowCut.MapSteps | evaluation/inertialflow_cut.py:44-46 | the in-place conversion applied to every step |
| InertialFlowCut.EntryRescale | evaluation/inertialflow_cut.py:35-46 | reading a line with the rescale is the plain reading, converted |
| InertialFlowCut.FoldMapSteps | evaluation/inertialflow_cut.py:44-46 | converting every assignment equals converting the finished dictionary |
| InertialFlowCut.RescaleIsPlainThenSeconds | evaluation/inertialflow_cut.py:35-47 | the rescaling parse fails exactly where the plain one does, has the same keys, and holds each "running_time" value / 10^6 |
| InertialFlowCut.TimesStayNamed | evaluation/inertialflow_cut.py:44-46 | no key is renamed: a time metric keeps its name and holds a float |
| CutExperiments.ImbalancesIncreasing | evaluation/toplevel_cut_experiments.py:15 | the imbalance list is strictly increasing, so indexing and sorting by it keeps the loop order |
| CutExperiments.DigitPrefix | evaluation/toplevel_cut_experiments.py:33 | the leading digit run, maximal |
| CutExperiments.DispatchFlowCutter | evaluation/toplevel_cut_experiments.py:32-34 | "flowcutter" followed by the digits of n dispatches to FlowCutter with n cutters |
| CutExperiments.DispatchInertialFlowCutter | evaluation/toplevel_cut_experiments.py:37-39 | "inertialflowcutter" followed by the digits of n dispatches to InertialFlowCutter with n cutters |
| CutExperiments.DispatchFails | evaluation/toplevel_cut_experiments.py:27-41 | dispatch fails iff the name is none of the three exact names and neither prefix is followed by a digit |
| CutExperiments.DispatchListed | evaluation/toplevel_cut_experiments.py:14 | every listed partitioner dispatches to the kind and count its name says |
| CutExperiments.Metric | evaluation/toplevel_cut_experiments.py:49 | a lookup fails iff the key is absent, and otherwise returns the stored value |
| CutExperiments.ConnectedIff | evaluation/toplevel_cut_experiments.py:52 | connected iff both component counts are 1; it fails iff the left count is missing, or the left count is 1 and the right count is missing |
| CutExperiments.CollectIff | evaluation/toplevel_cut_experiments.py:44-53 | the row loop succeeds iff every step does, with one row per step in order; otherwise it fails with the first failing step's error |
| CutExperiments.OneShotResults | evaluation/toplevel_cut_experiments.py:45-53 | one result per imbalance, in order |
| CutExperiments.OneShotCuts | evaluation/toplevel_cut_experiments.py:43-55 | the metis, KaHIP and inertial-flow loops compute `Collect` of the per-imbalance rows (also lines 57-69 and 71-83) |
| CutExperiments.OneShotShape | evaluation/toplevel_cut_experiments.py:43-55 | a finished table has one row per imbalance, indexed by it, and each row's `connected` is the report's connectivity |
| CutExperiments.OneShotResultShape | evaluation/toplevel_cut_experiments.py:48-52 | a row carries its own ε and the connectivity of the tool's metrics |
| CutExperiments.InertialBalance | evaluation/toplevel_cut_experiments.py:75 | inertial flow is asked for balance (1 − ε)/2, which lies in [0, 1/2] and is 1/2 at ε = 0 |
| CutExperiments.FirstWithin | evaluation/toplevel_cut_experiments.py:92 | the chosen cut is a cut of the front within ε (`iloc[0]` of the filter) |
| CutExperiments.FirstWithinMonotone | evaluation/toplevel_cut_experiments.py:92 | a looser bound never picks a later cut |
| CutExperiments.EnumResults | evaluation/toplevel_cut_experiments.py:90-98 | one result per imbalance, in order |
| CutExperiments.EnumeratedCuts | evaluation/toplevel_cut_experiments.py:85-100 | the FlowCutter and InertialFlowCutter loops compute `EnumCuts` of the front (also lines 102-117) |
| CutExperiments.EnumShape | evaluation/toplevel_cut_experiments.py:87-100 | an enumerated table has one connected row per imbalance, with a float achieved imbalance at most ε and an int cut size |
| CutExperiments.EnumFails | evaluation/toplevel_cut_experiments.py:87-92 | it fails iff the front is empty or some imbalance is met by no cut (`iloc[0]` on an empty selection) |
| CutExperiments.ComputeCuts | evaluation/toplevel_cut_experiments.py:27-41 | the dispatch computes `Cuts(G, P)`: the right loop for the partitioner's kind, or the dispatch failure |
| CutExperiments.Files | evaluation/toplevel_cut_experiments.py:125 | exactly the names of the files written |
| CutExperiments.RunGraph | evaluation/toplevel_cut_experiments.py:121-127 | the inner loop computes `RunRow`, and the files present afterwards are those before plus those written |
| CutExperiments.RowSkips | evaluation/toplevel_cut_experiments.py:122-127 | a pair whose cut file is present is skipped |
| CutExperiments.RowFails | evaluation/toplevel_cut_experiments.py:124 | a pair whose computation fails ends the script with that error |
| CutExperiments.RowWrites | evaluation/toplevel_cut_experiments.py:122-125 | an absent pair's cuts are computed and written to its file |
| CutExperiments.RunExperiments | evaluation/toplevel_cut_experiments.py:119-127 | `main` computes `RunAll` over the graphs and partitioners |
| CutExperiments.RunRowFresh | evaluation/toplevel_cut_experiments.py:122 | within one graph, only absent files are written, each once |
| CutExperiments.RunRowEntries | evaluation/toplevel_cut_experiments.py:124-125 | within one graph, each written file holds the cuts computed for its partitioner |
| CutExperiments.RunRowCovers | evaluation/toplevel_cut_experiments.py:121-127 | without a failure, every partitioner has its cut file for that graph |
| CutExperiments.RunAllFresh | evaluation/toplevel_cut_experiments.py:122 | `main` computes a pair only when its cut file is absent, and writes each file once |
| CutExperiments.RunAllEntries | evaluation/toplevel_cut_experiments.py:124-125 | every written file holds the cuts computed for one (graph, partitioner) pair of the lists |
| CutExperiments.RunAllCovers | evaluation/toplevel_cut_experiments.py:120-127 | unless a computation fails, every pair of the lists ends with its cut file |
| Ledger.Contained | evaluation/order_experiments.py:17-22 | an inner merge of the key with the ledger is non-empty iff some row agrees with the key on every key column |
| Ledger.Cells | evaluation/order_experiments.py:121 | a parsed log kept key for key and in order, each value the number it denotes |
| Ledger.Remove | evaluation/order_experiments.py:132-133 | `list.remove`: one column fewer when present, and no other column lost or added |
| Ledger.NewColumns | evaluation/order_experiments.py:128 | exactly the row's keys that the ledger does not have yet |
| Ledger.ToMapGet | evaluation/order_experiments.py:128 | the stored row holds exactly the dictionary's keys, with its values |
| Ledger.Append | evaluation/order_experiments.py:128 | the row is added last; the old columns stay in front; the columns are the old ones and the row's keys |
| Ledger.AppendContains | evaluation/order_experiments.py:113-128 | after an append, a key the row agrees with is contained |
| Ledger.KeyOf | evaluation/order_experiments.py:138 | the sort key of a row has one component per sort column |
| Ledger.KeyLeTotal | evaluation/order_experiments.py:138 | any two keys are comparable |
| Ledger.KeyLeTrans | evaluation/order_experiments.py:138 | the key order is transitive |
| Ledger.KeyLeAntisym | evaluation/order_experiments.py:138 | the key order is antisymmetric |
| Ledger.Insert | evaluation/order_experiments.py:138 | inserting a row adds exactly that row |
| Ledger.Sort | evaluation/order_experiments.py:138 | `sort_values` permutes the rows |
| Ledger.InsertSorted | evaluation/order_experiments.py:138 | insertion keeps a sorted ledger sorted |
| Ledger.SortSorted | evaluation/order_experiments.py:138 | the sorted rows are in ascending key order |
| Ledger.InsertWithKey | evaluation/order_experiments.py:138 | insertion places a row after every earlier row with the same key |
| Ledger.SortStable | evaluation/order_experiments.py:138 | rows with equal keys keep their relative order (a stable sort) |
| OrderExperiments.IndexIn | evaluation/order_experiments.py:24-28 | the first position of a name in the fixed list; none (StopIteration) iff the name is unlisted |
| OrderExperiments.IndexInDistinct | evaluation/order_experiments.py:9-28 | in a list of distinct names, each name's id is its position |
| OrderExperiments.Matching | evaluation/order_experiments.py:122 | the selection of the order-time table is drawn from it |
| OrderExperiments.OrderTimeFound | evaluation/order_experiments.py:122 | a found order time is that of a record for the pair; with no record for the pair the lookup fails |
| OrderExperiments.MatchingIn | evaluation/order_experiments.py:122 | the selected times all belong to records of the pair, and none are selected without one |
| OrderExperiments.StepEffect | evaluation/order_experiments.py:110-128 | the ledger is unchanged iff the order file is missing or the pair is contained; otherwise exactly the new row is appended |
| OrderExperiments.StepContains | evaluation/order_experiments.py:110-128 | after a step the pair is contained whenever its order exists (unless the report names a graph or partitioner metric itself) |
| OrderExperiments.KeyContains | evaluation/order_experiments.py:117-128 | appending a row carrying the graph and partitioner makes the pair contained |
| OrderExperiments.NewRowKey | evaluation/order_experiments.py:117-126 | the new row has distinct columns and carries its graph and partitioner |
| OrderExperiments.RunOrderExperiments | evaluation/order_experiments.py:100-140 | the ledger, the loops and the post-processing of `main` give `Experiments` |
| OrderExperiments.RunPartitionersGrows | evaluation/order_experiments.py:109-128 | rows are only ever appended in the inner loop |
| OrderExperiments.RunGraphsGrows | evaluation/order_experiments.py:108-128 | rows are only ever appended |
| OrderExperiments.ContainedPrefix | evaluation/order_experiments.py:113 | a contained key stays contained when rows are appended |
| OrderExperiments.RunPartitionersCovers | evaluation/order_experiments.py:109-128 | after the inner loop, every partitioner of the graph whose order exists is in the ledger |
| OrderExperiments.RunGraphsCovers | evaluation/order_experiments.py:108-128 | when the loops finish, every listed pair whose order file exists is in the ledger |
| OrderExperiments.AddIds | evaluation/order_experiments.py:136-137 | the id column is added iff every row's name is listed, and then holds each row's position in the list |
| OrderExperiments.WithColumn | evaluation/order_experiments.py:136-137 | a new column is added at the end |
| OrderExperiments.WithIds | evaluation/order_experiments.py:136-137 | a row with both id cells set to its positions |
| OrderExperiments.Identified | evaluation/order_experiments.py:136-137 | every row with its ids set |
| OrderExperiments.AddBothIds | evaluation/order_experiments.py:136-137 | the two `map` assignments set both id cells of every named row |
| OrderExperiments.FinishFails | evaluation/order_experiments.py:131-138 | the post-processing fails iff a key column is missing or some row names an unlisted graph or partitioner |
| OrderExperiments.FinishRows | evaluation/order_experiments.py:136-139 | the saved rows are the ledger's rows with ids set, sorted by (graph_id, partitioner_id); the ids are not dropped |
| OrderExperiments.FinishShape | evaluation/order_experiments.py:131-139 | graph and partitioner lead the columns, no column is lost, the id columns are written, and the rows are a permutation of the ledger's |
| OrderExperiments.FinishColumns | evaluation/order_experiments.py:131-137 | the column list: graph, partitioner, the rest, then the id columns |
| OrderExperiments.FinishOrdered | evaluation/order_experiments.py:138 | the saved ledger lists graphs in list order and, within a graph, partitioners in list order |
| OrderExperiments.IdKeyOrder | evaluation/order_experiments.py:138 | on rows with ids, the sort order is the order of the positions |
| OrderExperiments.FinishStable | evaluation/order_experiments.py:138 | rows with the same graph and partitioner keep their relative order |
| ParameterStudy.FieldStrings | evaluation/parameterstudy.py:29 | `map(str, config)`: one string per field, in order |
| ParameterStudy.PathsShape | evaluation/parameterstudy.py:28-35 | the order path is `parameterstudy/col.<fields joined by '.'>.order` and the log path is that plus ".log" |
| ParameterStudy.ConfigToStringSplits | evaluation/parameterstudy.py:28-29 | when no field contains '.', splitting the joined string at '.' gives the fields back |
| ParameterStudy.ConfigCells | evaluation/parameterstudy.py:25 | the configuration as one key cell per field, in order |
| ParameterStudy.CommonKey | evaluation/parameterstudy.py:25-26 | the merge joins on exactly the fields that are ledger columns, which is all of them when every field is a column |
| ParameterStudy.ConfigContainedIff | evaluation/parameterstudy.py:24-26 | when every field is a column, the config is contained iff some row agrees with it on every field |
| ParameterStudy.RunConfigsOk | evaluation/parameterstudy.py:75-86 | a successful step continues the loop from its ledger |
| ParameterStudy.RunConfigsErr | evaluation/parameterstudy.py:75-86 | a failed step ends the loop with its error |
| ParameterStudy.RunParameterStudy | evaluation/parameterstudy.py:68-89 | `main` computes `Study`: the ledger on disk or the six-column header-only ledger, the loop, then the sort, which raises `KeyError` when a config column is not a ledger column |
| ParameterStudy.MissingColumn | evaluation/parameterstudy.py:88 | the first sort column the ledger lacks, and none exactly when every sort column is a ledger column |
| ParameterStudy.StudyFails | evaluation/parameterstudy.py:68-89 | the study fails exactly when the loop fails, with the loop's error, or when some config column is missing from the final ledger, with `KeyError` |
| ParameterStudy.RunAll | evaluation/parameterstudy.py:75-86 | the loop over the configurations computes `RunConfigs` |
| ParameterStudy.StudyStep | evaluation/parameterstudy.py:76-86 | one iteration computes `Step`: skip a contained config, else parse its log and append its row |
| ParameterStudy.StepEffect | evaluation/parameterstudy.py:76-86 | the ledger is unchanged iff the config is contained; otherwise exactly one row is appended; columns only grow |
| ParameterStudy.NewRowMatches | evaluation/parameterstudy.py:79-84 | the new row has distinct keys and holds every field of its configuration |
| ParameterStudy.FirstGet | evaluation/parameterstudy.py:79 | in a dictionary with distinct keys, each entry's key gives its value |
| ParameterStudy.KeyedGrows | evaluation/parameterstudy.py:86 | config fields that are ledger columns stay columns after an append |
| ParameterStudy.StepContains | evaluation/parameterstudy.py:76-86 | after a step, a keyed config without clashes is contained |
| ParameterStudy.StepAppendContains | evaluation/parameterstudy.py:79-86 | the appended row of a config not yet contained makes it contained |
| ParameterStudy.AppendKeyed | evaluation/parameterstudy.py:86 | appending a row holding the config's fields makes the config contained |
| ParameterStudy.RunGrows | evaluation/parameterstudy.py:75-86 | the loop only appends rows and columns |
| ParameterStudy.RunCovers | evaluation/parameterstudy.py:75-86 | when the loop finishes, every keyed configuration without clashes is contained |
| ParameterStudy.RunCoversFirst | evaluation/parameterstudy.py:75-86 | the first configuration is contained after its step and stays contained |
| ParameterStudy.StaysContained | evaluation/parameterstudy.py:76 | a contained config stays contained as rows and columns are appended |
| ParameterStudy.StudySorted | evaluation/parameterstudy.py:88 | the saved ledger has every config column, is sorted ascending by them, is a permutation of the loop's rows, and stable among equal configs |
| Latex.DigitRunEnd | evaluation/build_order_table.py:6 | the end of the maximal ASCII digit run from a position |
| Latex.IntStringIsNumber | evaluation/build_order_table.py:5-12 | `str` of any integer is a number, and so is one followed by a dot and digits |
| Latex.IsNumberExamples | evaluation/build_order_table.py:5-12 | "42", "1.5", "-7", ".5" and "12." are numbers; "F3", "nan", "K2.11", "" and "1e-05" are not |
| Latex.Reverse | evaluation/build_order_table.py:72 | `[::-1]` reverses |
| Latex.GroupDigitsStrip | evaluation/build_order_table.py:70-72 | deleting the inserted `\,` separators gives the value back |
| Latex.StripGroupReversed | evaluation/build_order_table.py:71-72 | the substitution only inserts separators |
| Latex.GroupReversedDigits | evaluation/build_order_table.py:71-72 | a run of n ≥ 1 digits gets ⌊(n−1)/3⌋ separators (one per full group of three left of the last group) |
| Latex.GroupDigitsLength | evaluation/build_order_table.py:70-72 | a digit string of length n grows by 2·⌊(n−1)/3⌋ characters |
| Latex.GroupDigitsExamples | evaluation/build_order_table.py:70-72 | "1234" becomes `1\,234`; "12.5" is left alone |
| Latex.Bold | evaluation/build_order_table.py:75 | `\bfseries{` value `}` |
| OrderTable.Divide | evaluation/build_order_table.py:33-36 | true division gives a float column holding each value / d |
| OrderTable.RoundFloats | evaluation/build_order_table.py:38-40 | float columns are rounded to one decimal; integer columns are untouched |
| OrderTable.Prepare | evaluation/build_order_table.py:33-49 | the column maps keep every column's length |
| OrderTable.PrepareValues | evaluation/build_order_table.py:33-40 | upward arcs and triangles are divided by 100000, search-space arcs by 1000, then rounded to one decimal; other columns are rounded if float, untouched if integer |
| OrderTable.MinWhere | evaluation/build_order_table.py:59-74 | the minimum over the rows of a group: none iff the group is empty, else a value attained in the group |
| OrderTable.SameGraph | evaluation/build_order_table.py:59 | the mask of the rows with the given graph |
| OrderTable.CountGraph | evaluation/build_order_table.py:60 | the number of rows with the graph |
| OrderTable.RowsWith | evaluation/build_order_table.py:54-78 | the rows render iff every row's graph is listed |
| OrderTable.RenderBody | evaluation/build_order_table.py:52-78 | the row loop writes `\\ ` then exactly `Rows` of the table, or fails at the first row with an unlisted graph |
| OrderTable.TableRowsOk | evaluation/build_order_table.py:54-78 | each row with a listed graph appends its text |
| OrderTable.TableRowsFail | evaluation/build_order_table.py:56-63 | a row with an unlisted graph is the failure of the whole table |
| OrderTable.RowsErrPersists | evaluation/build_order_table.py:54 | once a row fails, every longer prefix fails with it |
| OrderTable.RenderRow | evaluation/build_order_table.py:55-78 | one iteration writes `RowText`: the group header if the graph changes, " & " and a cell per column, then `\\` |
| OrderTable.BoldIffGroupMinimum | evaluation/build_order_table.py:59-75 | a metric cell is bold iff no row of its graph has a smaller value (ties are all bold) |
| OrderTable.GroupHasBold | evaluation/build_order_table.py:74-75 | every graph group has a bold cell in every metric column |
| OrderTable.CountGraphPositive | evaluation/build_order_table.py:60-63 | the `\multirow` of a group spans at least the row that opens it |
| ParameterStudyTable.Prepare | evaluation/build_parameterstudy_table.py:45-52 | metric columns are rescaled as in the order table and rounded if float; the four configuration columns are kept |
| ParameterStudyTable.AllRows | evaluation/build_parameterstudy_table.py:69 | the whole column is the group |
| ParameterStudyTable.ColumnMax | evaluation/build_parameterstudy_table.py:16 | `column.max()`: attained and an upper bound |
| ParameterStudyTable.ColumnMinBounds | evaluation/build_parameterstudy_table.py:15 | `column.min()`: attained and a lower bound |
| ParameterStudyTable.BucketRange | evaluation/build_parameterstudy_table.py:19-21 | buckets run from 0 at the minimum to 10 at the maximum |
| ParameterStudyTable.BucketMonotone | evaluation/build_parameterstudy_table.py:20 | the bucket never decreases with the value |
| ParameterStudyTable.IntensityShades | evaluation/build_parameterstudy_table.py:19-22 | within the range the intensity is one of 0, 10, …, 100: 100 at the minimum, 0 at the maximum, never increasing with the value |
| ParameterStudyTable.ColorShades | evaluation/build_parameterstudy_table.py:14-22 | a constant column gives "cyan!100"; otherwise the colour is "cyan!" followed by the intensity as a float (e.g. "cyan!70.0") |
| ParameterStudyTable.RenderBody | evaluation/build_parameterstudy_table.py:54-73 | the row loop writes exactly `Body` of all rows |
| ParameterStudyTable.RenderRow | evaluation/build_parameterstudy_table.py:55-73 | the column loop writes exactly `RowText`: one cell per column, then `\\` |
| ParameterStudyTable.BodyStep | evaluation/build_parameterstudy_table.py:54 | each row appends its text |
| ParameterStudyTable.BoldIffColumnMinimum | evaluation/build_parameterstudy_table.py:69-70 | a metric cell is bold iff no row has a smaller value in its column; configuration cells never are |
| ParameterStudyTable.ColorOnMetrics | evaluation/build_parameterstudy_table.py:67-68 | only the ten metric columns carry a colour |
| ParameterStudyTable.CellLayout | evaluation/build_parameterstudy_table.py:56-57 | the first column has no leading separator; every other cell starts with " & " |
| ParameterStudyTable.TimesAsIntegers | evaluation/build_parameterstudy_table.py:61-65 | the two time columns show `int(round(v))`, digit-grouped when non-negative |
| ParetoTable.FirstIndex | evaluation/build_pareto_table.py:59 | `list.index`: the first position holding the value |
| ParetoTable.FirstIndexDistinct | evaluation/build_pareto_table.py:22-59 | in a list without repetitions, each element's index is its own position |
| ParetoTable.Lookup | evaluation/build_pareto_table.py:59-67 | `data[P][key][index]` succeeds iff the column and the row exist |
| ParetoTable.FirstCells | evaluation/build_pareto_table.py:58-65 | the first group renders iff every partitioner's value exists |
| ParetoTable.Unbalanced | evaluation/build_pareto_table.py:63 | the crossed-out partitioners are among those read |
| ParetoTable.SecondCells | evaluation/build_pareto_table.py:66-71 | the second group renders iff every partitioner's value exists |
| ParetoTable.RowsWith | evaluation/build_pareto_table.py:55-72 | the rows render iff every row does |
| ParetoTable.TableRowsStep | evaluation/build_pareto_table.py:55 | each ε row appends its text or ends with its error |
| ParetoTable.TableRowsErr | evaluation/build_pareto_table.py:55 | a failing row is the failure of the whole table |
| ParetoTable.TableContent | evaluation/build_pareto_table.py:51-73 | `table_content` computes `Rows` of all bounds |
| ParetoTable.RenderRow | evaluation/build_pareto_table.py:56-72 | one bound computes `RowText`: `int(ε·100)`, the first group, the second group crossed out for the unbalanced set, `\\` |
| ParetoTable.FirstGroup | evaluation/build_pareto_table.py:58-65 | the first loop writes the first-group cells and fills `unbalanced` with exactly `Unbalanced` |
| ParetoTable.SecondGroup | evaluation/build_pareto_table.py:66-71 | the second loop writes the second-group cells, crossing out those in `unbalanced` |
| ParetoTable.RowTextFirstErr | evaluation/build_pareto_table.py:59 | a missing first-group value fails the row |
| ParetoTable.RowTextSecondErr | evaluation/build_pareto_table.py:67 | a missing second-group value fails the row |
| ParetoTable.RowTextOk | evaluation/build_pareto_table.py:57-72 | a row with both groups present is the bound, both groups and `\\` |
| ParetoTable.FirstCellCancelIff | evaluation/build_pareto_table.py:60-65 | a first-group cell is crossed out iff the table is the achieved-ε one and the value exceeds ε |
| ParetoTable.SecondCellCancelIff | evaluation/build_pareto_table.py:68-71 | a second-group cell is crossed out iff its partitioner was marked unbalanced |
| ParetoTable.UnbalancedIff | evaluation/build_pareto_table.py:56-63 | a row's unbalanced set holds exactly the partitioners whose achieved ε at that row exceeds the bound; nothing carries over |
| ParetoTable.NotAchievedIsPlain | evaluation/build_pareto_table.py:60-94 | outside the achieved-ε table nothing is marked and no cell is crossed out |
| ParetoTable.RowIndex | evaluation/build_pareto_table.py:22-59 | each row reads its cells at its own position |
| ParetoTable.FormatBool | evaluation/build_pareto_table.py:14-18 | True renders `$\bullet$`, False renders `$\circ$` |
| ParetoTable.AchievedFormatSmall | evaluation/build_pareto_table.py:91 | "<0.1" exactly for the non-zero values whose percentage rounds to 0.0 (within 0.0005 of zero); otherwise 100x with one decimal |
| ParetoTable.RoundToZero | evaluation/build_pareto_table.py:91 | `round` of a value within 1/2 of zero is 0 |
| ParetoTable.ConnectivityUncancelled | evaluation/build_pareto_table.py:93-94 | in the connectivity and running-time table no cell is crossed out |
| ParetoTable.MakeHeader | evaluation/build_pareto_table.py:37-49 | `make_header` computes `Header`: headings, the two cmidrules over columns 2…1+span and 2+span…1+2·span, both name groups, `\midrule` |
| ParetoTable.NameCellsOk | evaluation/build_pareto_table.py:43-46 | the name cells exist iff every partitioner has a short name |
| ParetoTable.NameCellsInOrder | evaluation/build_pareto_table.py:43-46 | the name cells are "& " and each partitioner's short name, in list order |
| ParetoTable.HeaderOk | evaluation/build_pareto_table.py:40-49 | the header is the start, the name cells twice, and the closing rule |
| ParetoTable.HeaderErr | evaluation/build_pareto_table.py:44 | a missing short name fails the header with that name |
| ParetoTable.HeaderFails | evaluation/build_pareto_table.py:43-46 | the header fails iff some partitioner has no short name |
| ParetoTable.PartitionersNamed | evaluation/build_pareto_table.py:21-26 | every partitioner of the table has a short name |
| Preorder.ComputePreorder | src/preorder.h:8-57 | `p` lists every node exactly once; its blocks start at increasing roots, each root the smallest id not yet written; each block is closed under out-arcs and every non-root is reached by an arc from an earlier node of its block; the count is the number of blocks, and on a symmetric graph two nodes share a block exactly when they are connected |
| Preorder.VisitRoot | src/preorder.h:29-53 | an unseen root adds one block and keeps all written nodes fully explored |
| Preorder.Explore | src/preorder.h:31-52 | the search writes the root at `id`, then each newly seen node once, each reached by an arc from an earlier node of the block; afterwards every seen node has passed all its arcs |
| Preorder.PassArc | src/preorder.h:37-46 | one iterator step passes one arc (fewer arcs pending); an unseen head is written, the current node pushed, and the head becomes current |
| Preorder.BetweenDone | src/preorder.h:28-56 | after the last root every node is written: `p` is a permutation with its block structure |
| Preorder.SeenClosed | src/preorder.h:37-51 | seen nodes whose iterators are exhausted are closed under out-arcs |
| Preorder.CoveredBound | src/preorder.h:12 | a duplicate-free list of ids below n that lists every one of them has n entries |
| Preorder.BlocksExtend | src/preorder.h:28-34 | a block searched from the smallest unwritten root extends the block structure |
| Preorder.ParentsExtend | src/preorder.h:38-44 | a node reached by an arc from the block keeps every position's parent earlier in the block |
| Preorder.BlocksAreComponents | src/preorder.h:28-53 | on a symmetric graph two positions of the order lie in one block exactly when their nodes are connected, so the blocks are the connected components |
| Preorder.ReachedFromStart | src/preorder.h:31-52 | every node of a block is reached by a path from the root that opened it |
| Preorder.PathStaysBefore | src/preorder.h:28-34 | nothing reachable from the nodes written before a root lies after it, since those nodes are closed under out-arcs |
| Preorder.SearchStart | src/preorder.h:31-34 | the root is seen and written, with an empty stack |
| Preorder.SearchPassSeen | src/preorder.h:38-39 | passing an arc to a seen node keeps the search state |
| Preorder.SearchDiscover | src/preorder.h:39-45 | an unseen head is written at `id` (so `id` < n) and pushed without overflowing the stack |
| Preorder.SearchPop | src/preorder.h:47-50 | a node with all arcs passed returns to its predecessor on the stack |
| Preorder.SearchDone | src/preorder.h:48-49 | with the stack empty, every seen node has passed all its arcs and every unseen one none |
| Graph.Ids | src/preorder.h:12 | the ids below n |
| Graph.MissingBound | src/preorder.h:39-42 | a duplicate-free list of ids below n missing one of them has fewer than n entries, so `p[id++]` stays in range |
| Graph.CountBound | src/preorder.h:22-23 | a duplicate-free list of ids below n has at most n entries (the stack depth bound) |
| Graph.PermutationCovers | src/preorder.h:12 | a permutation lists every id |
| Graph.PendingAdvance | src/preorder.h:38 | advancing one iterator leaves one arc fewer pending (the termination measure) |
| Graph.PendingNonNegative | src/preorder.h:37 | the pending count is never negative |
| FlowNetwork.ListExcessFlip | src/ford_fulkerson.h:82-89 | changing the flag of one arc changes the excess summed over a list of distinct arcs by the change at its back arc minus the change at the arc itself |
| FlowNetwork.ExcessFlip | src/ford_fulkerson.h:82-89 | changing the flag of arc `b` changes `excess_at_node` only at the tail and the head of `b` |
| FlowNetwork.PushUnitEffect | src/ford_fulkerson.h:70-75 | pushing a unit over an unsaturated arc keeps every arc apart from its back arc and moves exactly one unit of excess from its tail to its head |
| FlowNetwork.NodeSumShift | src/ford_fulkerson.h:111-117 | a unit of excess moved from `s` to `t` changes the masked excess sum by +1 if `t` is counted and -1 if `s` is |
| FlowNetwork.TargetMask | src/ford_fulkerson.h:113-115 | the targets summed by `verify_flow_conservation` are exactly the targets that are not sources |
| FlowNetwork.ZeroExcess | src/ford_fulkerson.h:82-89 | with nothing saturated, a list of arcs has excess 0 |
| FlowNetwork.ZeroNodeSum | src/ford_fulkerson.h:111-117 | with nothing saturated, every masked excess sum is 0 |
| FlowNetwork.ZeroConserved | src/ford_fulkerson.h:31-37 | the empty flow the constructors start from passes `verify_flow_conservation` with value 0 |
| FlowNetwork.ConservedShift | src/ford_fulkerson.h:109-123 | moving one unit from a source to a target that is not a source turns a conserved flow of value f into one of value f + 1 |
| FlowNetwork.BackSum | src/ford_fulkerson.h:82-89 | the back arcs pair two arc sets: summing a weight read at the back arc over one sums it over the other |
| FlowNetwork.ListExcessSum | src/ford_fulkerson.h:82-89 | `excess_at_node` over distinct out-arcs is the sum, over those arcs, of +1 per saturated back arc and -1 per saturated arc |
| FlowNetwork.NodeSumArcs | src/ford_fulkerson.h:111-117 | the excess summed over masked nodes is the same sum over the arcs whose tail is masked |
| FlowNetwork.InnerExcess | src/ford_fulkerson.h:82-89 | over the arcs with both ends on one side the excesses cancel: each unit leaves one node of the side and enters another |
| FlowNetwork.LeavingComplement | src/inertial_flow.h:145-150 | a side and its complement are left by equally many arcs, so either side of the cut has the same cut size |
| FlowNetwork.CutCarriesFlow | src/inertial_flow.h:139-144 | max-flow min-cut for unit capacities: a side holding every source, no other target, and every head of an unsaturated arc leaving it, is left by exactly as many arcs as the flow value |
| FordFulkerson.PredPath | src/ford_fulkerson.h:69-70 | the arcs read while walking predecessors from a reached node are arc ids |
| FordFulkerson.PushAll | src/ford_fulkerson.h:69-76 | pushing units along a path keeps the number of flags |
| FordFulkerson.ExhaustedStep | src/ford_fulkerson.h:92-104 | after exhausted searches, an unsaturated arc out of a reachable node ends at a reachable node |
| FordFulkerson.NoAugmentingPath | src/ford_fulkerson.h:92-107 | once the searches are exhausted, every chain of unsaturated arcs from a source stays reachable and ends at a source or a non-target, so the flow is maximum |
| FordFulkerson.ClosedGrow | src/ford_fulkerson.h:48-56 | a closed node stays closed when more nodes become reachable |
| FordFulkerson.NewlyBound | src/ford_fulkerson.h:41-56 | the nodes a search marks are fewer than n, so the stack never overflows |
| FordFulkerson.SearchInit | src/ford_fulkerson.h:41-42 | the search starts with the source alone on the stack and nothing marked |
| FordFulkerson.ScanStart | src/ford_fulkerson.h:45 | popping a node starts its scan with no arc passed |
| FordFulkerson.ScanSkip | src/ford_fulkerson.h:48-49 | an arc to a reachable node or a saturated arc is passed with nothing changed |
| FordFulkerson.MarkForest | src/ford_fulkerson.h:50-53 | marking the head of an unsaturated arc and recording that arc as its predecessor keeps the search forest |
| FordFulkerson.ScanPush | src/ford_fulkerson.h:50-56 | marking a node that is not a target and pushing it keeps the search state and passes the arc |
| FordFulkerson.MarkTarget | src/ford_fulkerson.h:54-55 | a marked target ends the search with it the only target marked |
| FordFulkerson.MarkPush | src/ford_fulkerson.h:50-56 | marking and pushing a non-target node passes the arc |
| FordFulkerson.ScanEnd | src/ford_fulkerson.h:46-59 | after its last out-arc a node is done: all its unsaturated arcs lead to reachable nodes |
| FordFulkerson.SearchExit | src/ford_fulkerson.h:44-62 | an empty stack means every node of the search is done and no target was marked |
| FordFulkerson.AugmentStart | src/ford_fulkerson.h:68-69 | the walk starts at the target with no arc of the path used |
| FordFulkerson.AugmentStep | src/ford_fulkerson.h:69-76 | one pass pushes a unit over the predecessor arc and moves to its tail |
| FordFulkerson.PathSource | src/ford_fulkerson.h:69 | the predecessor walk from a reached node ends at a source |
| FordFulkerson.AugmentRest | src/ford_fulkerson.h:69-76 | the rest of the walk carries the unit to the source at the end of the path |
| FordFulkerson.AugmentConserves | src/ford_fulkerson.h:65-80 | pushing a unit along the predecessor path of a reached target keeps the flow conserved and raises its value by one |
| FordFulkerson.WalkStep | src/ford_fulkerson.h:69-70 | the next arc of the path is `predecessor[x]` and the path goes on from its tail |
| FordFulkerson.TriedStep | src/ford_fulkerson.h:129-142 | a failed search adds its marked nodes and its front source to the closed, tried state |
| FordFulkerson.TriedAll | src/ford_fulkerson.h:144 | with every front source tried, the searches are exhausted |
| FordFulkerson.FoundGrow | src/ford_fulkerson.h:51 | a search adds exactly the nodes it marks to the nodes found, and their number to the count |
| FordFulkerson.NewlyDead | src/ford_fulkerson.h:137-138 | a search from a front source shut in a dead set (no sources, no targets, left only towards sources or itself) marks only nodes of that set, so it reaches no target |
| FordFulkerson.PathAvoidsDead | src/ford_fulkerson.h:69-76 | the predecessor path of a node outside a dead set passes only nodes that are outside it and are not sources |
| FordFulkerson.PushAllFrees | src/ford_fulkerson.h:69-76 | every arc the augmentation unsaturates is the back arc of an arc of the path |
| FordFulkerson.PushAllSpares | src/ford_fulkerson.h:69-76 | an augmentation along a path that avoids a set and the sources frees no arc leaving that set or a source |
| FordFulkerson.ShutInKeep | src/ford_fulkerson.h:129-133 | a source or dead node stays shut in the dead set after an augmentation that spares it |
| FordFulkerson.DeadSetKeep | src/ford_fulkerson.h:129-133 | a dead set stays dead after an augmentation that spares it |
| FordFulkerson.TriedDead | src/ford_fulkerson.h:129-142 | the nodes marked by failed searches join a dead set into a dead set, and every tried front source is shut in it |
| FordFulkerson.TryDead | src/ford_fulkerson.h:129-133 | before each try, the dead set with the marked nodes is dead, the sources tried in this loop are shut in it, and so is the current source if it was shut in the smaller set |
| FordFulkerson.FordFulkersonAlgo.constructor | src/ford_fulkerson.h:13-38 | the target flags are exactly the target list; nothing is saturated; flow 0, not finished, `last_source` 0; the flow is conserved; the dead set is empty |
| FordFulkerson.FordFulkersonAlgo.SearchFrom | src/ford_fulkerson.h:40-63 | the search marks only unreached nodes, counts each once, keeps the predecessor forest; it returns the only target it marked, or -1 with no target marked and the source and all marked nodes closed; each marked node was reached from the source or from another marked node |
| FordFulkerson.FordFulkersonAlgo.ScanNode | src/ford_fulkerson.h:46-59 | scanning the out-arcs of one node keeps the search state and makes the node done, or stops at a target |
| FordFulkerson.FordFulkersonAlgo.MarkArc | src/ford_fulkerson.h:50-56 | an unsaturated arc to an unreached node marks, counts and links its head; a target is returned, any other node pushed |
| FordFulkerson.FordFulkersonAlgo.Augment | src/ford_fulkerson.h:68-76 | the flow value goes up by one; the flags are those of pushing a unit along the predecessor path; the flow stays conserved |
| FordFulkerson.FordFulkersonAlgo.Walk | src/ford_fulkerson.h:69-76 | the new flags are the old ones with a unit pushed along the predecessor path of the target |
| FordFulkerson.FordFulkersonAlgo.AugmentFlowFrom | src/ford_fulkerson.h:65-80 | it returns true with the flow raised by one, or false with the flow unchanged, no target marked, and the source and marked nodes closed; from a source shut in a dead set it returns false, and an augmentation spares any dead set |
| FordFulkerson.FordFulkersonAlgo.Advance | src/ford_fulkerson.h:125-145 | with reachability reset to the sources, either one augmentation raised the flow by one and `last_source` names the front source used and did not decrease, because the second loop never augments (its `assert(false)` is proved from a dead set every front source before `last_source` is shut in, which the call keeps), or nothing changed, `finished` is set and the searches are exhausted (so no augmenting path exists); `num_reachable` counts the sources and the found nodes |
| FordFulkerson.FordFulkersonAlgo.ResetSearch | src/ford_fulkerson.h:126-127 | only the sources are reachable and `num_reachable` is their number |
| FordFulkerson.FordFulkersonAlgo.TryRange | src/ford_fulkerson.h:129-142 | trying the front sources `lo..hi-1` stops at the first that augments, or leaves all of them tried with the flow unchanged; when all of them are shut in a dead set none augments, and a success leaves the dead set joined by the marked nodes dead, spared, and shutting in the sources tried before |
| FordFulkerson.FordFulkersonAlgo.TryFront | src/ford_fulkerson.h:130-133 | one try either augments or adds the source to the tried state; a source shut in a dead set does not augment, and an augmentation spares the dead set |
| LevelGraph.StartOk | src/dinic.h:40-48 | the search starts with the front queued on level 0, nothing pushed or blocked, and the level flags equal to the source flags |
| LevelGraph.ScanArcStep | src/dinic.h:58-77 | scanning one out-arc keeps the breadth-first search state: the arc obeys the blocking rule and the queue stays in level order |
| LevelGraph.FreshArc | src/dinic.h:56-58 | the arc being scanned has not been scanned before |
| LevelGraph.ScanMarked | src/dinic.h:52-77 | scanning pushes only to the next level, so the level flags of the current level stay right |
| LevelGraph.PushFresh | src/dinic.h:69-73 | a node not yet pushed is not yet queued, so every node is queued at most once |
| LevelGraph.PushQueue | src/dinic.h:69-73 | pushing a new node keeps the queue duplicate-free, with no source or target pushed |
| LevelGraph.PushLayers | src/dinic.h:71 | appending a node one level deeper keeps the queue in level order and the entries before it unchanged |
| LevelGraph.NodeDone | src/dinic.h:56-78 | a queue entry whose out-arcs are all scanned is done |
| LevelGraph.ScannedNext | src/dinic.h:56-58 | past the last out-arc of an entry, the scanned arcs are those of the entries before the next |
| LevelGraph.LevelDone | src/dinic.h:80-81 | after a level, the next level spans exactly the nodes pushed while scanning it |
| LevelGraph.MarkStart | src/dinic.h:52 | marking a level starts with its first entry |
| LevelGraph.MarkStep | src/dinic.h:53 | flagging one entry of the level extends the marking |
| LevelGraph.MarkEnd | src/dinic.h:52-54 | after the first loop the level flags are the sources and the nodes pushed at most that deep |
| LevelGraph.MarkedEntry | src/dinic.h:53 | an entry of the current level is a seed or a node pushed at most that deep |
| LevelGraph.MarkedPushed | src/dinic.h:52-54 | a node pushed at the current depth is an entry of the current level |
| LevelGraph.SearchDone | src/dinic.h:50-82 | when the queue is used up every queued node is scanned |
| LevelGraph.MarkedAll | src/dinic.h:42-82 | at the end the level flags are exactly the sources and the pushed nodes |
| LevelGraph.ScannedAll | src/dinic.h:50-82 | at the end every arc out of a queued node is scanned |
| LevelGraph.QueuedSeed | src/dinic.h:46-47 | a queued node that was not pushed is a front source |
| LevelGraph.QueuedKind | src/dinic.h:47-73 | every queued node is a source or a pushed non-target |
| LevelGraph.ReachedIff | src/dinic.h:66-67 | the search reports a target iff some queued node has an unsaturated arc into a target that is not a source |
| LevelGraph.DoneExhausted | src/dinic.h:140-157 | with no target reported, the sources and the pushed nodes are closed under unsaturated arcs, so no augmenting path exists (the claim of `verify_flow_is_maximum`) |
| LevelGraph.DoneLevelArcs | src/dinic.h:59-65 | after the search every unblocked arc out of a queued node is unsaturated and enters a target or a node one level deeper |
| LevelGraph.LevelPath | src/dinic.h:69-73 | each pushed node has a path of unblocked arcs from a seed, one per level, as long as its depth |
| LevelGraph.ParentArc | src/dinic.h:69-72 | the arc that first reached a pushed node comes from a queued node one level up and is not blocked |
| LevelGraph.DoneWitness | src/dinic.h:66-67 | a reported target has an unblocked chain of arcs from a seed into it |
| LevelGraph.DoneRoom | src/dinic.h:25 | a reported target is not queued, so the path arrays have room for every path |
| LevelGraph.WitnessRetreat | src/dinic.h:102-106 | blocking an arc into a non-target with no unblocked out-arc keeps the witness chain unblocked |
| LevelGraph.WitnessStart | src/dinic.h:102-104 | a node whose out-arcs are all blocked does not start the witness chain |
| LevelGraph.PathStart | src/dinic.h:96-98 | the path starts at the seed with no arc |
| LevelGraph.PathBound | src/dinic.h:109-111 | no path is longer than the queue |
| LevelGraph.PathExtend | src/dinic.h:108-111 | appending an unblocked level arc into a non-target keeps a level path |
| LevelGraph.PathRetreat | src/dinic.h:105-106 | blocking and dropping the last arc keeps the rest a level path |
| LevelGraph.PathArcsDistinct | src/dinic.h:113-121 | the arcs of a path are distinct |
| LevelGraph.BlockOne | src/dinic.h:106 | blocking an unblocked arc lowers the number of unblocked arcs by one |
| LevelGraph.UnblockedShrink | src/dinic.h:99-126 | blocking an unblocked arc while keeping every blocked arc blocked lowers the count: the search terminates |
| LevelGraph.UnblockedMono | src/dinic.h:99-126 | keeping every blocked arc blocked never raises the count |
| LevelGraph.BlockAll | src/dinic.h:113-115 | after blocking the arcs of a path, exactly those arcs and the already blocked ones are blocked |
| LevelGraph.PushChain | src/dinic.h:113-121 | pushing a unit along a clean chain from `s` to `t` moves one unit of excess from `s` to `t`, keeps arcs and back arcs apart, and changes no other arc |
| LevelGraph.ChainFront | src/dinic.h:113-121 | dropping the last arc of a clean chain leaves a clean chain to its tail |
| LevelGraph.PhaseStart | src/dinic.h:94-95 | the depth-first phase starts with the flags and the blocked arcs of the search |
| LevelGraph.PhaseLevelArcs | src/dinic.h:99-126 | during the phase every unblocked arc out of a queued node is a level arc and unsaturated |
| LevelGraph.PhaseReached | src/dinic.h:112 | an unblocked arc into a target means the search reported a target |
| LevelGraph.DeepNode | src/dinic.h:111-112 | a path node past the seed is pushed, so it is not a target |
| LevelGraph.AugmentClean | src/dinic.h:112-121 | the path plus an unblocked arc into a target is a clean chain from the seed to the target |
| LevelGraph.TargetOutside | src/dinic.h:66-73 | a target that is not a source is never queued |
| LevelGraph.AugmentArcs | src/dinic.h:109-112 | the augmenting path is a chain of distinct unsaturated arcs |
| LevelGraph.BackOffPath | src/dinic.h:113-121 | no arc of the augmenting path is the back arc of another |
| LevelGraph.BackBlocked | src/dinic.h:59-65 | the back arc of an arc of the path is blocked |
| LevelGraph.PhaseAugment | src/dinic.h:112-124 | augmenting along the path keeps the flow conserved with one more unit, keeps the phase and lowers the number of unblocked arcs |
| LevelGraph.BlockStep | src/dinic.h:59-64 | blocking a saturated arc, or one into a source or a node no deeper than its tail, keeps the search state |
| LevelGraph.HitStep | src/dinic.h:66-67 | an unsaturated arc into a target sets the reached flag and keeps the search state |
| LevelGraph.PushStep | src/dinic.h:68-73 | an unsaturated arc into a new non-target pushes it one level deeper and keeps the search state |
| LevelGraph.RetreatStep | src/dinic.h:102-106 | retreating over the last arc of the path keeps the phase and the rest of the path, lowers the unblocked count and keeps a witness unblocked |
| LevelGraph.PhaseAugmentStep | src/dinic.h:112-122 | augmenting and restarting at the seed gives one more unit, keeps the phase and lowers the unblocked count |
| LevelGraph.WalkRetreat | src/dinic.h:102-106 | a retreat keeps the walk state and blocks one more arc |
| LevelGraph.WalkAugment | src/dinic.h:112-123 | an augmentation raises the flow by one and restarts the walk at the seed |
| LevelGraph.ExtendStep | src/dinic.h:107-111 | an unblocked arc out of the end of the path leaves room for one more node and extends the path unless it enters a target |
| LevelGraph.WalkExtend | src/dinic.h:107-111 | extending by an unblocked arc keeps the walk state |
| LevelGraph.SeedsBlocked | src/dinic.h:95-127 | once the search from seed `i` ends, the out-arcs of all seeds up to `i` are blocked |
| Dinic.UnitDinicAlgo.constructor | src/dinic.h:13-36 | the target flags are exactly the target list; nothing is saturated; flow 0, not finished; the flow is conserved |
| Dinic.UnitDinicAlgo.ComputeBlockingFlow | src/dinic.h:39-85 | the blocked, pushed and queue arrays are those of the finished level search; the level flags are the sources and the pushed nodes; the result is whether a target was seen; `num_reachable` counts the sources and the pushed nodes |
| Dinic.UnitDinicAlgo.ScanLevels | src/dinic.h:50-82 | the level loop ends with every queued node scanned |
| Dinic.UnitDinicAlgo.ResetSearch | src/dinic.h:40-48 | the arrays hold the start of the search |
| Dinic.UnitDinicAlgo.ScanOneLevel | src/dinic.h:51-81 | one round marks and scans a level and makes the nodes it pushed the next level |
| Dinic.UnitDinicAlgo.MarkLevel | src/dinic.h:52-54 | the entries of the level are flagged |
| Dinic.UnitDinicAlgo.ScanLevel | src/dinic.h:56-78 | every entry of the level is scanned |
| Dinic.UnitDinicAlgo.ScanNode | src/dinic.h:57-77 | every out-arc of one entry is scanned |
| Dinic.UnitDinicAlgo.ScanArcAt | src/dinic.h:59-76 | the arrays change as the blocking rule for one arc says |
| Dinic.UnitDinicAlgo.FindFirstNonBlockOutArc | src/dinic.h:87-92 | the result is the first unblocked out-arc of `x`, or -1 exactly when all of them are blocked |
| Dinic.UnitDinicAlgo.AugmentAllNonBlockedPath | src/dinic.h:94-128 | the flow stays conserved and never drops; it rises when the search reached a target; afterwards every out-arc of every seed is blocked |
| Dinic.UnitDinicAlgo.DfsFrom | src/dinic.h:96-126 | the search from one seed keeps the flow conserved and the phase, blocks no fewer arcs, blocks every out-arc of the seed, and keeps the witness unblocked while nothing was augmented |
| Dinic.UnitDinicAlgo.DfsLoop | src/dinic.h:99-126 | the loop ends with the path back at the seed and every out-arc of the seed blocked |
| Dinic.UnitDinicAlgo.Retreat | src/dinic.h:102-106 | dropping and blocking the last arc keeps the walk and lowers the number of unblocked arcs |
| Dinic.UnitDinicAlgo.ExtendOrAugment | src/dinic.h:107-124 | one step either extends the path by one arc or augments and blocks at least one more arc |
| Dinic.UnitDinicAlgo.Extend | src/dinic.h:108-111 | the arc and its head are appended to the path arrays |
| Dinic.UnitDinicAlgo.Augment | src/dinic.h:113-123 | each arc of the path is blocked and carries a unit, the flow rises by one, and the path restarts at the seed |
| Dinic.UnitDinicAlgo.Advance | src/dinic.h:176-183 | a finished algorithm stays finished with nothing changed; otherwise the flow rises, or it becomes finished with the flow unchanged and the search exhausted, so the flow is maximum |
| CutterSets.SatOf | src/flow_cutter_accelerated.h:221-223 | an arc is saturated exactly when its stored value is 2, which is flow 1 |
| CutterSets.FlowSign | src/flow_cutter_accelerated.h:201-223 | a valid stored flow is -1, 0 or 1 per arc and the negation of its back arc's flow; flow 1 means saturated, flow -1 means the back arc is saturated, and no arc is saturated together with its back arc |
| CutterSets.RaisePush | src/flow_cutter_accelerated.h:201-209 | `increase` keeps the stored flow valid, raises the arc by one and acts on the saturated flags as one unit pushed over the arc |
| CutterSets.LowerIsRaiseBack | src/flow_cutter_accelerated.h:211-219 | `decrease` on an arc is `increase` on its back arc |
| CutterSets.ClearedFlow | src/flow_cutter_accelerated.h:193-195 | after `clear` the stored flow is valid and saturates nothing |
| CutterSets.UnitFlow.constructor | src/flow_cutter_accelerated.h:191 | one fresh entry per arc |
| CutterSets.UnitFlow.Clear | src/flow_cutter_accelerated.h:193-195 | every arc stores 1, flow 0 |
| CutterSets.UnitFlow.Increase | src/flow_cutter_accelerated.h:201-209 | under the two asserted conditions, the stored values become `Raise` of the old ones |
| CutterSets.UnitFlow.Decrease | src/flow_cutter_accelerated.h:211-219 | under the two asserted conditions, the stored values become `Lower` of the old ones |
| CutterSets.UnitFlow.Value | src/flow_cutter_accelerated.h:221-223 | the flow is the stored value minus one |
| CutterSets.CountFlip | src/flow_cutter_accelerated.h:290-301 | setting one flag changes the number of set flags by the difference, the fact behind `node_count_inside_` in `add_node` and `remove_node` |
| CutterSets.CountNone | src/flow_cutter_accelerated.h:241-245 | no flag set means a count of 0 |
| CutterSets.MarkLast | src/flow_cutter_accelerated.h:262-267 | seeing fresh nodes one by one flags the last one on top of the others |
| CutterSets.MarkCount | src/flow_cutter_accelerated.h:262-267 | seeing fresh nodes raises the count by their number |
| CutterSets.GrowOrderCovers | src/flow_cutter_accelerated.h:274-288 | the two loops of `grow` try every extra node exactly once, starting at `last_grow_index` |
| CutterSets.SweepStops | src/flow_cutter_accelerated.h:274-288 | a growth only adds nodes, and it stops at an index it tried or not at all |
| CutterSets.SweepSnoc | src/flow_cutter_accelerated.h:274-288 | trying one more extra node either keeps an earlier stop or adds what its search sees, stopping there if the search said stop |
| CutterSets.StopAt | src/flow_cutter_accelerated.h:275-286 | once a search has said stop, the rest of the order is not tried |
| CutterSets.BasicNodeSet.constructor | src/flow_cutter_accelerated.h:234-239 | no node inside, count 0, no extra nodes, grow index 0 |
| CutterSets.BasicNodeSet.Clear | src/flow_cutter_accelerated.h:241-245 | no node inside, count 0, no extra nodes, and the count still matches the flags |
| CutterSets.BasicNodeSet.AddNode | src/flow_cutter_accelerated.h:290-295 | an outside node is flagged and the count rises by one, matching the flags |
| CutterSets.BasicNodeSet.RemoveNode | src/flow_cutter_accelerated.h:297-301 | an inside node is unflagged and the count drops by one, matching the flags |
| CutterSets.BasicNodeSet.AddExtraNode | src/flow_cutter_accelerated.h:303-306 | the node is appended to the extra nodes |
| CutterSets.BasicNodeSet.ClearExtraNodes | src/flow_cutter_accelerated.h:317-319 | no extra nodes are left |
| CutterSets.BasicNodeSet.CopyNodesWithoutExtraNodes | src/flow_cutter_accelerated.h:308-311 | the flags and count are copied from the other set |
| CutterSets.BasicNodeSet.CopyFrom | src/flow_cutter_accelerated.h:441-442 | the whole state of the other set is copied: flags, count, extra nodes and grow index |
| CutterSets.BasicNodeSet.SeeAll | src/flow_cutter_accelerated.h:262-267 | `see_node` on each fresh node flags it and raises the count by one |
| CutterSets.BasicNodeSet.SearchFrom | src/flow_cutter_accelerated.h:276-281 | one search flags the nodes it sees and reports whether the growth goes on |
| CutterSets.BasicNodeSet.Grow | src/flow_cutter_accelerated.h:252-288 | the flags become those of the sweep over the extra nodes from `last_grow_index` (0 when past the end) round to just before it, and the grow index becomes the index whose search said stop, or the start |
| CutterSets.BasicNodeSet.GrowTail | src/flow_cutter_accelerated.h:276-281 | the first loop is the sweep from the start to the end, and a stop there is the stop of the whole growth |
| CutterSets.BasicNodeSet.GrowHead | src/flow_cutter_accelerated.h:283-288 | the second loop completes the sweep of the whole growth |
| CutterSets.OutsideMembers | src/flow_cutter_accelerated.h:412-420 | `shrink_cut_front` keeps exactly the front arcs whose heads are outside the set |
| CutterSets.OutsideAppend | src/flow_cutter_accelerated.h:412-420 | the kept arcs keep their order |
| CutterSets.AssimilatedNodeSet.constructor | src/flow_cutter_accelerated.h:345-347 | an empty node set and an empty front |
| CutterSets.AssimilatedNodeSet.Clear | src/flow_cutter_accelerated.h:349-352 | the node set is emptied and the front is empty |
| CutterSets.AssimilatedNodeSet.ShrinkCutFront | src/flow_cutter_accelerated.h:412-420 | the front becomes its arcs with heads outside the set, in order |
| CutterSets.PredArcsWalk | src/flow_cutter_accelerated.h:500-507 | the arcs handed out form a walk backwards from the target to a source: none when the target is a source, otherwise the first enters the target, each next one enters the tail of the one before, the last leaves a source, and no arc enters a source |
| CutterSets.ReachableNodeSet.constructor | src/flow_cutter_accelerated.h:433-435 | an empty node set and one predecessor slot per node |
| CutterSets.ReachableNodeSet.Reset | src/flow_cutter_accelerated.h:437-443 | the nodes of the other set; with `keep_extra` the own extra nodes and grow index stay, otherwise they are the other set's |
| CutterSets.ReachableNodeSet.ForallArcsInPathTo | src/flow_cutter_accelerated.h:500-507 | the arcs handed to `on_new_arc` are the predecessor walk from the target to a source |
| CutterDinic.UnionSet | src/flow_cutter_dinic.h:62 | setting a level flag sets it in "on the same level or lower or a source" |
| CutterDinic.ListExcessBound | src/flow_cutter_dinic.h:181-183 | the excess over a list of arcs is at most its length |
| CutterDinic.NodeSumBound | src/flow_cutter_dinic.h:181-183 | a sum of node excesses is at most the number of out-arcs summed over |
| CutterDinic.ConservedBound | src/flow_cutter_dinic.h:181-183 | a conserved flow is at most the number of arcs, so the loop of `run` ends |
| CutterDinic.AugmentNext | src/flow_cutter_dinic.h:122-126 | the next arc of the path is still unsaturated when its turn comes, and increasing and blocking it extends the augmented prefix |
| CutterDinic.AugmentedAll | src/flow_cutter_dinic.h:122-126 | after the loop, the flow saturates the path pushed through and all of the path is blocked |
| CutterDinic.UnitDinicAlgo.constructor | src/flow_cutter_dinic.h:11-23 | flow 0, not finished, fresh arrays |
| CutterDinic.UnitDinicAlgo.Init | src/flow_cutter_dinic.h:138-141 | flow 0, not finished |
| CutterDinic.UnitDinicAlgo.ComputeBlockingFlow | src/flow_cutter_dinic.h:26-83 | the arrays hold the finished level search over the saturated arcs, the reachable set holds the source set and the pushed nodes, and the result says whether a target is adjacent to a queued node over an unsaturated arc |
| CutterDinic.UnitDinicAlgo.ResetSearch | src/flow_cutter_dinic.h:38-46 | nothing blocked, no level flag, the reachable set reset to the source set with its extra nodes, and the seeds queued |
| CutterDinic.UnitDinicAlgo.ScanLevels | src/flow_cutter_dinic.h:48-80 | the level loop ends with every queued node scanned, the reachable set mirroring the search |
| CutterDinic.UnitDinicAlgo.ScanOneLevel | src/flow_cutter_dinic.h:50-79 | one round flags and scans a level and makes the nodes it pushed the next level |
| CutterDinic.UnitDinicAlgo.MarkLevel | src/flow_cutter_dinic.h:50-52 | the entries of the level are flagged |
| CutterDinic.UnitDinicAlgo.ScanLevel | src/flow_cutter_dinic.h:54-76 | every entry of the level is scanned |
| CutterDinic.UnitDinicAlgo.ScanNode | src/flow_cutter_dinic.h:55-75 | every out-arc of one entry is scanned |
| CutterDinic.UnitDinicAlgo.ScanOutArc | src/flow_cutter_dinic.h:57-75 | one out-arc is scanned and the entry being scanned stays in place |
| CutterDinic.UnitDinicAlgo.ScanArcAt | src/flow_cutter_dinic.h:58-74 | the arrays and the reachable set change as the blocking rule for one arc says |
| CutterDinic.UnitDinicAlgo.FindFirstNonBlockOutArc | src/flow_cutter_dinic.h:85-91 | the first unblocked out-arc of `x`, or -1 exactly when all of them are blocked |
| CutterDinic.UnitDinicAlgo.AugmentAllNonBlockedPath | src/flow_cutter_dinic.h:93-135 | the flow intensity rises by the returned count, the flow stays conserved with that many more units, at least one unit when the search reached a target, and afterwards every out-arc of every seed is blocked |
| CutterDinic.UnitDinicAlgo.DfsFrom | src/flow_cutter_dinic.h:101-133 | the search from one seed keeps the flow conserved and the phase, only adds blocked arcs, blocks every out-arc of the seed, and keeps the witness unblocked while nothing was augmented |
| CutterDinic.UnitDinicAlgo.DfsLoop | src/flow_cutter_dinic.h:105-132 | the loop ends with the path back at the seed and every out-arc of the seed blocked |
| CutterDinic.UnitDinicAlgo.Retreat | src/flow_cutter_dinic.h:108-112 | dropping and blocking the last arc keeps the walk and lowers the number of unblocked arcs |
| CutterDinic.UnitDinicAlgo.ExtendOrAugment | src/flow_cutter_dinic.h:113-130 | one step extends the path by one arc, or augments, counting one more unit and blocking at least one more arc |
| CutterDinic.UnitDinicAlgo.Extend | src/flow_cutter_dinic.h:115-120 | the arc and its head are appended to the path arrays |
| CutterDinic.UnitDinicAlgo.Augment | src/flow_cutter_dinic.h:121-129 | each arc of the path is blocked and carries one more unit, and the path restarts at the seed |
| CutterDinic.UnitDinicAlgo.AugmentArc | src/flow_cutter_dinic.h:123-125 | blocking and increasing one arc of the path extends the augmented prefix |
| CutterDinic.UnitDinicAlgo.Advance | src/flow_cutter_dinic.h:143-161 | the flow intensity rises by the returned count, which is 0 exactly when it ends finished; with 0 the flow is unchanged, and on the call that finishes no augmenting path is left |
| CutterDinic.UnitDinicAlgo.Round | src/flow_cutter_dinic.h:153-156 | the search then the augmentation keep the flow conserved; with nothing augmented the flow is unchanged and the search exhausted |
| CutterDinic.UnitDinicAlgo.Run | src/flow_cutter_dinic.h:171-185 | from flow 0, advancing until finished returns the flow intensity, and the flow is maximum |
| CutterDinic.UnitDinicAlgo.Step | src/flow_cutter_dinic.h:181-183 | one round of the loop of `run` raises the flow unless it finishes, and the flow stays within the out-degree bound |
| CutterDinic.UnitDinicAlgo.ReadyBound | src/flow_cutter_dinic.h:181-183 | the flow is at most the number of arcs |
| InertialFlow.Trunc | src/inertial_flow.h:28 | `static_cast<int>` of a real: the integer nearest to zero within one of it |
| InertialFlow.MinSideSize | src/inertial_flow.h:28 | `min_side_size` is the truncated `min_balance * node_count`, but at least 1 |
| InertialFlow.SourceAndTargetList | src/inertial_flow.h:26-38 | `k` sources taken from the front of the order and `k` targets from its back, last node first, all of them nodes |
| InertialFlow.TerminalsDistinct | src/inertial_flow.h:35-36 | from a permutation, the source list and the target list each hold distinct nodes |
| InertialFlow.TerminalsDisjointIff | src/inertial_flow.h:35-36 | sources and targets share no node exactly when `2k <= n` |
| InertialFlow.SourcesMinimal | src/inertial_flow.h:30-35 | after the first `nth_element`, no source compares greater than a node that is no source |
| InertialFlow.TargetsMaximal | src/inertial_flow.h:31-36 | after the second `nth_element`, with sources and targets apart, no target compares less than a node that is no target |
| InertialFlow.TailInTargets | src/inertial_flow.h:36 | the last `k` nodes of the order are the targets |
| InertialFlow.FrontMembers | src/inertial_flow.h:54-74 | the source front holds exactly the sources of the list with an out-neighbour that is no source, in list order |
| InertialFlow.FrontIsCovering | src/inertial_flow.h:54-74 | every source with an arc to a non-source is in the front |
| InertialFlow.BuildIsSourceAndSourceFront | src/inertial_flow.h:40-78 | the source flags are exactly the listed nodes and the front is the filtered source list |
| InertialFlow.MarkSources | src/inertial_flow.h:44-48 | the source flags are exactly the listed nodes |
| InertialFlow.MarkFront | src/inertial_flow.h:50-64 | list entry `i` is flagged exactly when some out-arc of it leaves the sources, and the size is the number of flags |
| InertialFlow.CollectFront | src/inertial_flow.h:66-75 | the front has the counted size and holds the flagged entries in list order |
| InertialFlow.CountComplement | src/inertial_flow.h:149 | the complement flags `n` minus the flagged count |
| InertialFlow.CutIsSmallerSide | src/inertial_flow.h:146-150 | the cut is the reachable set or its complement, whichever flags at most half the nodes, its size is that count and its cut size the flow |
| InertialFlow.CountIsCard | src/inertial_flow.h:135 | the number of flags is the size of the flagged set |
| InertialFlow.ReachableCount | src/inertial_flow.h:135 | `num_reachable` counts exactly the reachable flags |
| InertialFlow.NextInstance | src/inertial_flow.h:128-131 | the instance with the least flow intensity, the lowest index among equals |
| InertialFlow.PotentialBound | src/inertial_flow.h:127-155 | each instance has finitely many steps left, so the scheduling loop ends |
| InertialFlow.AdvanceOne | src/inertial_flow.h:153-154 | advancing an unfinished instance keeps all four scheduled and lowers the steps left |
| InertialFlow.BuildInstances | src/inertial_flow.h:95-125 | four fresh instances on disjoint arrays, one per node order |
| InertialFlow.BuildInstance | src/inertial_flow.h:116-125 | one instance: its terminals, flags and front from one order, flow 0 and not finished |
| InertialFlow.FinishedCut | src/inertial_flow.h:134-150 | a finished instance yields the smaller side of its reachable set, with its flow conserved and no augmenting path left; the arcs leaving the reachable set, and those leaving the returned side, number `cut_size` |
| InertialFlow.ComputeInertialFlowCut | src/inertial_flow.h:80-156 | the result comes from one of the four orders: its flow of value `cut_size` is conserved and maximum, and the smaller side is the reachable set or its complement, at most half the nodes; the arcs leaving the reachable set, and those leaving the returned side, number `cut_size`, as the debug check of src/inertial_flow.h:139-144 asserts |
| InertialFlow.CutHeadsMembers | src/inertial_flow.h:198-200 | the collected nodes are exactly the heads of arcs leaving the smaller side |
| InertialFlow.CutArcsCarryFlow | src/inertial_flow.h:139-144 | the arcs leaving the reachable set number the flow intensity, as the debug check asserts, and the heads collected from the returned side number the cut size, as `assert(sep.size() == cut_size)` before deduplication asserts |
| InertialFlow.CollectCutHeads | src/inertial_flow.h:198-200 | the loop collects the heads of arcs leaving the smaller side, in arc order |
| InertialFlow.InsertSorted | src/inertial_flow.h:202-204 | inserting into a strictly increasing list keeps it strictly increasing with the new element added |
| InertialFlow.SortUnique | src/inertial_flow.h:202-204 | sort and unique: strictly increasing, with the same elements, and no longer than the input |
| InertialFlow.ComputeInertialFlowSeparator | src/inertial_flow.h:187-207 | `{0}` for one node; otherwise the sorted, duplicate-free heads of the arcs leaving the smaller side of a cut of some order's maximum flow, a side of at most half the nodes; before deduplication there are exactly cut-size heads, so the separator has at most that many nodes |
| AcceleratedCutter.LessOrder | src/flow_cutter_accelerated.h:895 | the `(avoids, score, secondary)` tuples compare as a strict total order |
| AcceleratedCutter.RandomNumber | src/flow_cutter_accelerated.h:1643-1648 | the hash of node and side, computed with 32-bit unsigned wrap-around, lies in `[0, 2^31 - 1)` |
| AcceleratedCutter.PierceNodeScore | src/flow_cutter_accelerated.h:1640-1728 | a node avoids an augmenting path exactly when the avoid mode is not `do_not_avoid` and it causes none. Such a node scores `INT_MAX` under `avoid_and_pick_oldest` and a hash in range under `avoid_and_pick_random`. The secondary score is 0 except for the two tie-break ratings, and `oldest` scores 0 unless the avoid mode replaces the score |
| AcceleratedCutter.AvoidersOutrank | src/flow_cutter_accelerated.h:1705-1722 | under any avoid mode other than `do_not_avoid`, a node that avoids an augmenting path outranks every node that causes one, whatever the rating |
| AcceleratedCutter.OldestTie | src/flow_cutter_accelerated.h:1711-1716 | under `avoid_and_pick_oldest` and a rating without tie-break, all avoiding nodes score alike, so the strict comparison keeps the first of them |
| AcceleratedCutter.PickIsMax | src/flow_cutter_accelerated.h:891-900 | no candidate of the cut front (a head not on the other side) scores above the kept maximum |
| AcceleratedCutter.PickWitness | src/flow_cutter_accelerated.h:891-900 | the kept node is the head of a candidate with the kept score, and every earlier candidate scores strictly less; with no candidate, -1 and the start value |
| AcceleratedCutter.PickAvoids | src/flow_cutter_accelerated.h:891-900 | scored with `PierceNodeScore` under an avoid mode, the kept node avoids an augmenting path whenever some candidate does |
| AcceleratedCutter.BasicCutter.GetCurrentCutSide | src/flow_cutter_accelerated.h:702-712 | a side with a cut whenever one has a cut. Of two sides with cuts it picks the one with fewer assimilated nodes, the source side on a tie, and the target side whenever the source side has no cut |
| AcceleratedCutter.BasicCutter.GetCurrentSmallerCutSideSize | src/flow_cutter_accelerated.h:714-716 | with cuts on both sides, the smaller assimilated count; always one side's assimilated count |
| AcceleratedCutter.BasicCutter.GetNextNodeFromOrder | src/flow_cutter_accelerated.h:774-796 | the pointer of `side` moves only its own way, over assimilated nodes only. The node returned is at the pointer and assimilated on neither side. -1 is returned only once the pointers have crossed or, unless forced, the threshold is reached |
| AcceleratedCutter.BasicCutter.SelectPierceNode | src/flow_cutter_accelerated.h:888-909 | the maximum candidate of the cut front with the pointers untouched; with no candidate, the forced next node of the order, which is unassimilated, or -1 once the pointers have crossed |
| AcceleratedCutter.MinFlow | src/flow_cutter_accelerated.h:1522-1535 | the least flow of the counted (unfinished, active) cutters, attained by one of them; `INT_MAX` exactly when none is counted |
| AcceleratedCutter.UpdateMinFlow | src/flow_cutter_accelerated.h:1522-1535 | the loop yields `MinFlow`, and its flag tells whether every counted cutter with that flow has a cut; with none counted the flag is as it was |
| AcceleratedCutter.BestCutter | src/flow_cutter_accelerated.h:1590-1603 | among unfinished cutters with the least flow, the first with the greatest smaller side, if that side exceeds 0; else -1 and weight 0 |
| AcceleratedCutter.EnumCuts | src/flow_cutter_accelerated.h:1506-1616 | each report is the best cutter of its round, in which every counted cutter with the least flow has a cut. Reports come in strictly later rounds with strictly greater, positive smaller sides |
| IdFunc.KeptIndices | src/console.cpp:135-141 | the flagged positions, strictly increasing, each one flagged, every flagged position included, as many as `count_true` |
| IdFunc.KeepIfKeeps | src/console.cpp:135-141 | `keep_if` keeps exactly the flagged entries in their order, and the new length is `count_true` |
| IdFunc.KeepIfExtremes | src/min_fill_in.h:567-575 | with every flag set nothing changes; with none set the result is empty |
| IdFunc.InversePermutation | src/console.cpp:123-125 | the inverse is a permutation that undoes `p` on both sides |
| IdFunc.ChainPermutation | src/min_fill_in.h:147-150 | chaining two permutations of the same ids gives a permutation |
| MinFillIn.ValidPartialOrderIffDistinct | src/min_fill_in.h:34-37 | an order of ids below the image count passes `is_valid_partial_order` exactly when no id occurs twice |
| MinFillIn.PathOrder | src/min_fill_in.h:40-51 | the rounds of stride `2i` list every node of the path exactly once |
| MinFillIn.RoundMembers | src/min_fill_in.h:44-46 | one round lists without repetition the nodes from `j` on whose `x + 1` has lowest power `2^e` |
| MinFillIn.RoundsMembers | src/min_fill_in.h:43-47 | the rounds from `2^e` on list without repetition the nodes whose `x + 1` has lowest power at least `2^e` |
| MinFillIn.FillRound | src/min_fill_in.h:44-46 | the inner loop writes one round's nodes, through the input ids, at the next positions |
| MinFillIn.ComputePathGraphOrder | src/min_fill_in.h:40-51 | the array holds the path order mapped to input ids |
| MinFillIn.PathOrderValid | src/min_fill_in.h:49 | with distinct input ids in range, the path order passes the partial-order check |
| MinFillIn.ClassifyGraphCases | src/min_fill_in.h:98-112 | clique or arc-free exactly when `n(n-1) == m` or `m == 0`, checked first; tree exactly when otherwise `m == 2(n-1)`; the two-node path is a clique |
| MinFillIn.TrivialGraphOrder | src/min_fill_in.h:87-116 | each branch yields a valid partial order when its ingredient does; for cliques and arc-free graphs that ingredient is distinct input ids in range, and the order lists every node |
| MinFillIn.FirstOfRun | src/min_fill_in.h:953-956 | the first arc of the run of equal arcs ending at `i` |
| MinFillIn.MakeGraphSimple | src/min_fill_in.h:933-971 | loop-free, no arc twice, and an arc `u -> v` is in the result exactly when the input has it and `u != v` |
| MinFillIn.SortedRunsKept | src/min_fill_in.h:950-961 | on sorted arcs, an arc equal to an earlier one is dropped |
| MinFillIn.MakeGraphSimpleSymmetric | src/min_fill_in.h:938-970 | a symmetric input gives a symmetric result |
| MinFillIn.MarkComponentBegins | src/min_fill_in.h:204-208 | node `x` is flagged exactly when no arc leads from it to a smaller id |
| MinFillIn.TakeSlot | src/min_fill_in.h:168-190 | a component placed at the end takes the last free positions, any other the first ones; the free range shrinks by its size |
| MinFillIn.ScanArcs | src/min_fill_in.h:215-218 | the arcs from `arc_begin` up to the first whose tail is at least `node_end` |
| MinFillIn.CloseComponent | src/min_fill_in.h:215-224 | closing a component extends the tiling of nodes, arcs and slots by one component |
| MinFillIn.SplitAt | src/min_fill_in.h:213-225 | one step of the scan keeps the split invariant, with the open component starting at the last flagged node |
| MinFillIn.SplitComponents | src/min_fill_in.h:210-230 | the components tile the nodes and arcs and start exactly at flagged nodes; their slots use every position, and `order_begin == order_end` at the end |
| MinFillIn.SlotsPartitionOrder | src/min_fill_in.h:233-252 | every position of the order lies in exactly one slot, and slots placed at the end follow all the others |
| MinFillIn.Schedule | src/min_fill_in.h:221-229 | every component is scheduled, as a big or a small one, and only components are scheduled |
| MinFillIn.FillSlot | src/min_fill_in.h:256-297 | the component's order is copied into its slot; the slots already filled are untouched |
| MinFillIn.SlotsApart | src/min_fill_in.h:233-252 | a position of one slot lies in no other slot |
| MinFillIn.AssembleOrder | src/min_fill_in.h:298-311 | once the big and then the small components are processed, every slot of the order holds its component's order |
| MinFillIn.ComputeUnconnectedGraphOrder | src/min_fill_in.h:124-313 | one component goes to the delegate whole. Otherwise the components tile the graph and start at flagged nodes, their slots tile the order with the placed-at-end slots last, and each slot holds its component's order |
| MinFillIn.AssembleComponentOrders | src/min_fill_in.h:255-311 | each slot holds the order the delegate gives its component |
| MinFillIn.UnconnectedOrderValid | src/min_fill_in.h:312 | when the components' orders hold ids below the image count and no id twice across all of them, the assembled order passes `is_valid_partial_order` |
| MinFillIn.MarkSeparator | src/min_fill_in.h:555-558 | node `x` is flagged exactly when it is in the separator |
| MinFillIn.SeparatorStep | src/min_fill_in.h:542-583 | an arc is kept exactly when both ends are in the separator or both outside, and the separator is not every node. A symmetric graph stays symmetric, and the flags mark the separator for placement at the end |
| MinFillIn.FilterArcsHas | src/min_fill_in.h:572-575 | the filtered graph has an arc exactly when some flagged arc has those ends |
| MinFillIn.CoreFlags | src/min_fill_in.h:728-733 | a node is in the core exactly when it is the tail of three or more arcs |
| MinFillIn.ThreeOccurrences | src/min_fill_in.h:728-733 | more than two occurrences exactly when three distinct positions hold the value |
| MinFillIn.TwoOccurrences | src/min_fill_in.h:34-37 | more than one occurrence exactly when two distinct positions hold the value |
| MinFillIn.StartExpandedGraphOrder | src/min_fill_in.h:316-385 | no arcs give the empty order. Otherwise the cut arcs' input ids fill the first `|cut|` positions in cut order, and exactly the cut arcs lose their keep flag |
| ConsoleDispatch.LookupFirst | src/console.cpp:3089-3090 | the lookup finds the first command with the name, and fails exactly when no command has it |
| ConsoleDispatch.FindCommand | src/console.cpp:244-249 | the linear search returns the first matching index, or -1 exactly when none matches |
| ConsoleDispatch.Decide | src/console.cpp:3089-3109 | a completed command was found by name, and its arguments are the next tokens, exactly as many as it declares |
| ConsoleDispatch.DecisionsReadTokens | src/console.cpp:3087-3111 | every completed command is read from its tokens and is declared in the table |
| ConsoleDispatch.TakeStep | src/console.cpp:3089-3100 | the loop body makes the decision `Decide` describes |
| ConsoleDispatch.RunCommandLine | src/console.cpp:3074-3116 | the loop runs the commands the decisions give, in order, with the timing flag threaded through, and stops at the first failure |
| ConsoleDispatch.RunConsumesTokens | src/console.cpp:3087-3111 | a run from `arg_pos` that ends without an exception consumes the tokens from there on, each once |
| ConsoleDispatch.CommandLineConsumesTokens | src/console.cpp:3087-3111 | a command line that runs without an exception is read completely, each token once, in order |
| ConsoleDispatch.RunArgumentCounts | src/console.cpp:3091-3096 | every command a run completes is declared, with exactly its declared argument count |
| ConsoleDispatch.CommandLineArgumentCounts | src/console.cpp:3091-3096 | every command `main` completes is in the table and got exactly its declared number of arguments |
| ConsoleDispatch.NoParameterStep | src/console.cpp:3091-3096 | a known command without parameters that does not throw completes in one token |
| ConsoleDispatch.ReportTimeBrackets | src/console.cpp:3098-3105 | in `report_time X do_not_report_time` all three commands complete, and only `X` has its running time printed |
| ConsoleDispatch.WordPrefix | src/console.cpp:237-239 | the longest whitespace-free prefix |
| ConsoleDispatch.Words | src/console.cpp:253-256 | the words extracted from a line are non-empty and free of whitespace |
| ConsoleDispatch.WordsOfJoin | src/console.cpp:237-256 | splitting words joined by single spaces gives back the words |
| ConsoleDispatch.DecideLine | src/console.cpp:237-262 | a line exits exactly when its first word is `exit`; an accepted line names a table command and passes it the remaining words, exactly as many as declared |
| ConsoleDispatch.Interactive | src/console.cpp:212-276 | the loop produces the session the line decisions describe |
| ConsoleDispatch.ProcessLine | src/console.cpp:236-272 | the body of the `try` gives the line's outcome and the new timing flag |
| ConsoleDispatch.FirstExit | src/console.cpp:241-242 | the first `exit` line at or after `i`, or the end of input |
| ConsoleDispatch.SessionCoversLines | src/console.cpp:235-273 | a session from line `i` has one outcome per line up to the first `exit` |
| ConsoleDispatch.InteractiveCoversLines | src/console.cpp:235-273 | an exception does not end the session: every line before the first `exit` gets an outcome, and the session stops there |
| ConsoleDispatch.SessionOutcomeAt | src/console.cpp:235-273 | outcome `k` is that of line `k`, read with the flag then in force |
| ConsoleDispatch.InteractiveRanLines | src/console.cpp:244-262 | a line that completed a command named a table command and gave it exactly its declared number of words |
| ChordalSupergraph.ParentAbove | src/console.cpp:310-322 | a node is a root exactly when it has no upward arc; otherwise its parent is a node above it |
| ChordalSupergraph.FoldInvariant | src/console.cpp:313-323 | for arcs grouped by tail, the running group is the last tail's whole upward degree, and every other tail's degree is at most the folded maximum, which some finished group attains |
| ChordalSupergraph.UpperTreeWidthBoundIsMaxDegree | src/console.cpp:302-324 | with the last group folded too, the bound is the largest upward degree, attained by a reported tail |
| ChordalSupergraph.UpperTreeWidthBoundAsWrittenMissesLastGroup | src/console.cpp:315-319 | the printed bound is 0 for the one-edge graph, whose node 0 has upward degree 1 |
| ChordalSupergraph.ReplayUpwardArcs | src/console.cpp:302-324 | the callback yields each node's upward degree and parent, the arc count and the corrected bound |
| ChordalSupergraph.SearchSpaceSizes | src/console.cpp:359-365 | the descending loop gives each node the arcs of itself and all its ancestors |
| ChordalSupergraph.MaxAndSum | src/console.cpp:367-372 | the maximum, at least 0 and attained unless 0, and the sum of the per-node values |
| ChordalSupergraph.DegreesSum | src/console.cpp:313-320 | the upward degrees add up to the number of upward arcs |
| ChordalSupergraph.SearchSpaceBound | src/console.cpp:359-365 | no search space holds more arcs than the supergraph has |
| ChordalSupergraph.SearchSpaceSuffix | src/console.cpp:359-365 | a node's search space counts no more arcs than the upward degrees of the nodes from it on add up to |
| ChordalSupergraph.CountTriangles | src/console.cpp:374-377 | the loop sums `d(d-1)/2` over the upward degrees |
| ChordalSupergraph.TrianglesCountSameTailPairs | src/console.cpp:374-377 | the printed triangle count is the number of pairs of upward arcs sharing their tail |
| ConsoleGraph.Transposition | src/console.cpp:2850-2853 | a permutation that exchanges `x` and `y` and fixes every other id |
| ConsoleGraph.TranspositionSelfInverse | src/console.cpp:2850-2854 | a transposition is its own inverse |
| ConsoleGraph.InverseInvolution | src/console.cpp:123-125 | inverting a permutation twice gives it back |
| ConsoleGraph.RelabelKeepsArcEnds | src/console.cpp:122-132 | after relabelling, each arc end keeps its attributes, and relabelling by the inverse restores both |
| ConsoleGraph.RecolorInRange | src/console.cpp:1613-1616 | a non-negative replacement keeps every colour below the raised count, and when `c != r` colour `c` is gone |
| ConsoleGraph.ColorGuardAdmitsCount | src/console.cpp:1609-1610 | the guard as written admits the colour equal to the count, which the message calls invalid; recolouring it changes nothing |
| ConsoleGraph.ArcColorCountAsWrittenBreaksConsistency | src/console.cpp:1630-1633 | with the count taken from the node colours, one arc's colour ends up outside the range |
| ConsoleGraph.ResetColorsInRange | src/console.cpp:1645-1649 | after the reset every colour is below `n`, and colours already below are kept |
| ConsoleGraph.ColorCountSplit | src/console.cpp:2371-2377 | with two colours every node is on exactly one side |
| ConsoleGraph.CutArcDifferentColors | src/console.cpp:2362-2370 | with two colours an arc is cut exactly when its ends differ in colour |
| ConsoleGraph.Parents | src/console.cpp:310-322 | every parent is above its child or the root marker |
| ConsoleGraph.GraphState.PermutateNodes | src/console.cpp:122-132 | arc ends go through the inverse permutation, node attributes through `p`, and everything else is unchanged; the graph stays consistent |
| ConsoleGraph.GraphState.KeepArcsIf | src/console.cpp:134-142 | every arc array is filtered by the same flags in order, the new arc count is `count_true`, and node data is unchanged |
| ConsoleGraph.GraphState.PermutateArcs | src/console.cpp:144-151 | every arc array is re-indexed by `p`, and node data is unchanged |
| ConsoleGraph.GraphState.SwapNodes | src/console.cpp:2840-2857 | an out-of-range id is reported (first id checked first) and changes nothing; `x == y` changes nothing; otherwise the transposition is applied |
| ConsoleGraph.GraphState.SetNodeColorCount | src/console.cpp:1639-1651 | `n <= 0` is rejected with no change; otherwise colours from `n` on become 0, the count becomes `n`, and nothing else changes |
| ConsoleGraph.GraphState.ReplaceColor | src/console.cpp:1614-1616 | the loop recolours every `c` to `r` |
| ConsoleGraph.GraphState.ColorNodeReplace | src/console.cpp:1605-1620 | a colour outside `[0, count)` or a negative `r` is rejected with no change; otherwise every `c` becomes `r` and the count becomes `max(count, r + 1)` |
| ConsoleGraph.GraphState.ColorArcReplace | src/console.cpp:1622-1637 | the same for arc colours, with the arc colour count raised from its own value so the graph stays consistent |
| ConsoleGraph.GraphState.ExamineNodeColorCut | src/console.cpp:2352-2391 | fails exactly when there are not two colours. Otherwise the sides count colours 0 and 1 and add up to the nodes; edges and cut are arc counts halved; epsilon prints 0 exactly when the sides differ by at most one |
| ConsoleGraph.GraphState.ExamineChordalSupergraph | src/console.cpp:292-389 | fails for an asymmetric graph or fewer than two nodes. Otherwise it reports the upward arc count, the corrected tree-width bound, search-space maximum and sum, and the triangle count of the reported arcs |
| InertialFlow.Round | src/inertial_flow.h:127-155 | all four instances stay scheduled; a finished choice ends the loop, and otherwise what is left to do strictly decreases |
| InertialFlow.AdvanceScheduled | src/inertial_flow.h:153-154 | `advance()` on an unfinished instance keeps it scheduled and lowers its potential |
| InertialFlow.InitialScheduled | src/inertial_flow.h:120-125 | a freshly built instance, with no flow, is scheduled |

## Left out

- Running programs, files and clocks: the scripts' subprocess calls, file reads and writes, and `time` measurements are parameters (the captured output text, the existing ledger rows); nothing is executed or read.
- pandas and NumPy internals: data frames are sequences of records; `np.median` and CSV formatting are not modelled.
- Floating-point rendering: Python's `str(float)` and `"%.1f"` formatting are abstract functions of the exact value; floats are held as exact `real`s.
- The path arrays of `UnitDinicAlgo` have `node_count` slots in the model instead of `node_count - 1`, so that a graph with no node allocates; the dead write `current_path_arc[0] = source_front[i]` (src/dinic.h:97) is not modelled, since the slot is overwritten before it is read.
- InertialFlow.ComputeInertialFlowCut: the `use_dinic` switch of src/inertial_flow.h:166-170 is not modelled; the four instances are always `FordFulkersonAlgo`s. `UnitDinicAlgo` is modelled on its own in `Dinic`, with the same conservation and exhaustion invariants, but not as an inertial-flow instance. The overload that builds `inv_tail` and the back-arc permutation from `tail` and `head` (src/inertial_flow.h:173-184) is not modelled either: the network is given with both.
- `verify_flow_conservation` and `verify_flow_is_maximum` are debug checks compiled away under `NDEBUG`; they are modelled as the predicates `FlowNetwork.Conserved` and `FordFulkerson.Exhausted`, which the classes keep as invariants.
- Getters (`get_current_flow_intensity`, `get_num_reachable_nodes`, `get_saturated_flags`, `move_*`, `is_reachable_from_source`, `is_finished`) read a field and are not separate members.
- `std::nth_element` and its comparators in inertial flow: a node order is given as a permutation, and `InertialFlow.NodeOrderOk` states what the two `nth_element` calls leave behind.
- The `std::mt19937` seeding of the pierce-node hash: its factor and offset are parameters of `AcceleratedCutter.RandomNumber`.
- The construction of a `BasicCutter`, its `advance` step and bulk piercing (flow augmentation, growing the reachable sets) are not modelled. Only the side rule, the order pointers and the choice of a pierce node are.
- `AcceleratedCutter.BasicCutter.GetNextNodeFromOrder`: the `remaining_bulk_nodes` test behind the order threshold is the parameter `exceeded`. The debug `assert` of `select_pierce_node` is not modelled.
- `AcceleratedCutter.EnumCuts`: the cutter states after each round of advancing are input, so the `handle_cutter` and `shall_continue` effects are abstract. The flows are required to be below `INT_MAX`, which a unit-capacity flow on an `int`-indexed graph is.
- The parallel `enum_cuts` branch and every `tbb` task group run sequentially in the model.
- C++ `int` overflow of node and arc counts, flows and sums is not modelled; integers are unbounded, except the 32-bit unsigned arithmetic of the pierce-node hash.
- In src/min_fill_in.h the orderers that `cch_order` composes are parameters: the tree order, the non-trivial orderer behind the separator step, and the per-component delegate.
- MinFillIn.ComputeUnconnectedGraphOrder: the renumbering into preorder (`inverse_permutation`, then `chain` over `tail`, `head` and `input_node_id`) and the sort of the arcs by tail, then head (src/min_fill_in.h:142-160) are not modelled; the method starts from a graph already numbered in preorder, with its tails sorted (`TailsSorted`). The preorder itself is `Preorder.ComputePreorder`. The `is_symmetric` assertions are not stated.
- The degree-two-chain contraction and its claim that no core node precedes a non-core node (src/min_fill_in.h:861-867) are not modelled; only the core flags are.
- The tree-cut branch of the expanded-graph order (src/min_fill_in.h:330-370) and its recursion into the cut parts are not modelled; `MinFillIn.StartExpandedGraphOrder` covers the empty graph and the placement of the cut arcs.
- `sort_arcs_first_by_tail_second_by_head` is given as a permutation of the arcs that sorts them.
- The console's graph loaders and savers, `select_color`, `stoi` and the `geo_pos` parsing are not modelled. Colour arguments are integers, and positions are carried along unchanged.
- What each console command does is abstract in the dispatcher: the `fails` and `setsTimeFlag` parameters of `ConsoleDispatch`. The `std::sort` of the command table is not modelled; a first-match lookup stands in for the search over the sorted table.
- A nested `interactive` command, `get_command_line` with its history and autocompletion, and the help text are not modelled.
- ConsoleGraph.GraphState.ExamineNodeColorCut: the printed ratios `alpha` and the non-zero `epsilon` (src/console.cpp:2386-2391) are not modelled; the report keeps only whether `epsilon` prints 0, that is whether the sides differ by at most one. The component counts from `UnionFind` and `ancestor_count`, and the elimination-tree heights of `examine_chordal_supergraph`, are not modelled either.
- `compute_chordal_supergraph` and `is_symmetric` are inputs to `ConsoleGraph.GraphState.ExamineChordalSupergraph`: the reported upward arcs and the symmetry flag.
- `check_graph_consitency` is the predicate `ConsoleGraph.GraphState.Consistent`, kept as an invariant of every modelled command.
- The id-function helpers (`count_true`, `keep_if`, `chain`, `inverse_permutation`) come from src/id_func.h, which is not part of this model; module `IdFunc` defines them by what they compute.

## Findings

| source | as written | input that shows it | evidently intended | confidence | as-written member | corrected member |
|---|---|---|---|---|---|---|
| src/console.cpp:315-321 | the running maximum of upward degrees is updated only when a new tail group starts, so the last group is never folded in | a two-node graph with the one edge 0-1: upward arc `(0, 1)`, printed bound 0 | the bound is the largest upward degree, 1 here | not executed | ChordalSupergraph.UpperTreeWidthBoundAsWrittenMissesLastGroup | ChordalSupergraph.UpperTreeWidthBoundIsMaxDegree |
| src/console.cpp:1609 | `color_node_replace` rejects `c > image_count`, so it admits `c == image_count` | `color_node_replace 2 0` with two node colours: no error, no change | reject every colour outside `[0, image_count)`, as the message says | not executed | ConsoleGraph.ColorGuardAdmitsCount | ConsoleGraph.GraphState.ColorNodeReplace |
| src/console.cpp:1632 | `color_arc_replace` sets the arc colour count from `node_color.image_count()` | `color_arc_replace 0 0` with three arc colours, one arc of colour 2, and one node colour: the arc colour count becomes 1, and the arc keeps colour 2 | raise the arc colour count from its own value, so every arc colour stays below it | not executed | ConsoleGraph.ArcColorCountAsWrittenBreaksConsistency | ConsoleGraph.GraphState.ColorArcReplace |
