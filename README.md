# brownie core, modelled in Dafny

This project models the core of brownie, a Python framework for Ethereum smart contracts, and proves properties of that model. It covers six parts.

- **Program-counter map and source-map decoding** (`_generate_pcMap`). The Solidity compiler gives a compressed source map and an opcode listing. Brownie decodes them together into one pc-map entry per instruction. It first strips trailing STOP padding that holds no JUMPDEST.
- **Coverage map** (`_isolate_lines`, `_base`, `_generate_coverageMap`, `_generate_coverageMapTotals`, `get_fn`, `format_link_references`). This reduces the pc map to coverage items in three passes: branches anchored on JUMPI, statements, and a sort-and-merge. It files the items per function, writes their coverage index back into the pc map, and weighs them.
- **Coverage evaluation and merging** (`analyze_coverage`, `merge_coverage`, `_list_to_set`, `_maxindex`). Transaction traces are folded into per-function hit sets, `tx`, `true` and `false`. Each function is then scored, and the evaluations of several runs are merged.
- **Deployed-contract helpers** (`_verify_deployed_code`, `_get_tx`, overloaded-method keys, method binding and `_check_and_set`, `get_method`, library linking in `encode_input`, and `ContractContainer.remove`/`at`).
- **Chain state** (`TxHistory` and its gas profile, the undo/redo buffers of `Chain`, and the contract registry with `_get_current_dependencies`).
- **ABI argument normalisation and test assertion helpers** (`format_input`, `_format_tuple`, `_format_array`, `_format_single`, `_params`, `format_event`; `true`, `false`, `reverts`, `event_fired`).

How the files map onto the source:

| File | Module | Models |
|---|---|---|
| `wrappers.dfy` | `Wrappers` | `Option` and `Result`, and the Python exceptions the source raises |
| `text.dfy` | `Text` | Python's string operations the source uses: `index`/`rindex`, `split`, `join`, `replace`, `int(...)`, `lower()`, and string order |
| `source_map.dfy` | `SourceMap` | source-map decoding (compiler.py:145-165) |
| `pc_map.dfy` | `PcMap` | `_generate_pcMap` |
| `isolate_lines.dfy` | `IsolateLines` | `_isolate_lines` |
| `coverage_items.dfy` | `CoverageItems` | `_base`, and the sort and merge pass of `_isolate_lines` |
| `coverage_map.dfy` | `CoverageMap` | `get_fn`, `_generate_coverageMap`, `_generate_coverageMapTotals` |
| `link_references.dfy` | `LinkReferences` | `format_link_references` |
| `coverage_eval.dfy` | `CoverageEval` | `analyze_coverage` |
| `coverage_merge.dfy` | `CoverageMerge` | `merge_coverage`, `_list_to_set`, `_maxindex` |
| `contract.dfy` | `Contracts` | the deployed-contract helpers |
| `state.dfy` | `ChainState` | `TxHistory`, `Chain`, the contract registry |
| `normalize.dfy` | `Normalize` | ABI normalisation |
| `check.dfy` | `Check` | assertion helpers |

**Modelling choices:**

- Code that changes state in place is modelled as imperative Dafny:
  - a class with `modifies` clauses (`TxHistory`, `Chain`, `Registry`, `DeployedContract`, `ContractContainer`, `Event`);
  - or a method whose loop carries its invariants (the pc-map walk, the three passes of `_isolate_lines`, the coverage walk and merge, and the marker loops).
- Each such method is proved equal to a specification function, or states the new state outright. The properties are proved about those functions.
- The solc AST lookups, the global `sources` and the RPC are parameters:
  - `fnAt` for `child_by_offset`;
  - `inside` for `is_inside_offset`;
  - `slice` for `_get_source`;
  - the code found at an address for `web3.eth.getCode`.
- Python exceptions are `Failure` values that carry the exception's kind.

## Model

| member | source | states |
|---|---|---|
| SourceMap.Padded | brownie/project/compiler.py:161 | a field is read as exactly four components |
| SourceMap.PaddedSplit | brownie/project/compiler.py:161 | the four components are `(field + ":::").split(':')[:4]` |
| SourceMap.IntOrInherit | brownie/project/compiler.py:163 | an empty component takes the previous value; a present one must parse as an integer (ValueError otherwise) and gives that integer, so "0" is not inherited |
| SourceMap.DecodeFields | brownie/project/compiler.py:147-165 | a successful decoding has one entry per `;`-separated field |
| SourceMap.DecodeFieldsExtend | brownie/project/compiler.py:156-165 | one more field extends a decoding by the entry that field resolves to against the last entry |
| SourceMap.DecodeFieldsAt | brownie/project/compiler.py:147-165 | in a successful decoding, entry 0 comes from the first field, each later entry is the previous one updated by its own field, and every prefix decodes to the prefix of the entries |
| SourceMap.EmptyFieldRepeats | brownie/project/compiler.py:160 | an empty field repeats the previous entry unchanged |
| SourceMap.ComponentInheritance | brownie/project/compiler.py:160-165 | in a non-empty field each present component is read (start, length and file as integers, jump as text) and each empty or missing one inherits the previous entry's value |
| PcMap.NoJumpdestAcrossSpace | brownie/project/compiler.py:142 | a JUMPDEST found in neither of two regions that overlap at a space is not in their union, which is what lets the STOP loop test only the region it cuts |
| PcMap.StripStopPadding | brownie/project/compiler.py:137-144 | the loop returns exactly the recursive stripping `StripStop` of the listing, one cut per pass |
| PcMap.StripStopMeaning | brownie/project/compiler.py:137-144 | the stripped listing is a prefix of the original; it ends in " STOP" when anything was cut; the cut region holds no JUMPDEST; and no further STOP can be stripped |
| PcMap.StripStopFrom | brownie/project/compiler.py:137-144 | each cut after a " STOP" whose region holds no JUMPDEST keeps the listing cut over padding only, and the recursion ends with nothing more to strip |
| PcMap.StripStep | brownie/project/compiler.py:139-144 | one cut after the last " STOP" before the final character shortens the listing, keeps it a prefix ending in " STOP", and the whole region cut so far holds no JUMPDEST |
| PcMap.InstructionEntry | brownie/project/compiler.py:166-183 | an entry after the first succeeds exactly when the jump kind is known and the file id is -1 or known. It carries the opcode and operand; `jump` is set unless the kind is "-"; file -1 gives no path; start -1 gives no offset; otherwise offset == (start, start + length) and `fn` is the AST lookup. Errors: IndexError for a missing jump kind, KeyError for an unknown file |
| PcMap.FirstInstruction | brownie/project/compiler.py:145-155 | entry 0 needs the first field to decode (its error otherwise), its file to be known (KeyError) and two tokens, op and value (IndexError); it consumes exactly those two tokens |
| PcMap.NextInstruction | brownie/project/compiler.py:157-183 | the next pc is the previous pc + 1, plus n after PUSHn; the entry's opcode is the next token, and it takes the token after that as its operand exactly when that token starts with "0x" (a listing with no token there raises IndexError); it consumes those tokens and nothing else |
| PcMap.ElemsMembers | brownie/project/compiler.py:150-166 | the pc-map keys, added one at a time, are exactly the pcs walked |
| PcMap.TokensStep | brownie/project/compiler.py:166-171 | each entry consumes the next tokens of the listing, in order |
| PcMap.LayoutStep | brownie/project/compiler.py:157-159 | placing the next instruction after the previous one's operand keeps the pc keys strictly increasing and each entry at its own pc |
| PcMap.DescribedStep | brownie/project/compiler.py:166-183 | appending an entry that describes its source-map entry keeps every entry described |
| PcMap.PathsStep | brownie/project/compiler.py:174-176 | a later entry adds its file's path unless the file is -1 |
| PcMap.GeneratePcMap | brownie/project/compiler.py:130-185 | the method returns `GeneratedPcMap`: empty deployed bytecode gives an empty pc map and the contract's own path; otherwise the walk of the STOP-stripped listing with the source-map fields, its error included |
| PcMap.GeneratedWellBuilt | brownie/project/compiler.py:130-185 | for non-empty bytecode a source map that does not decode fails, and a success holds one entry per field at strictly increasing pcs, each describing its decoded source-map entry, its opcode and "0x" operand read in order from the stripped listing, with `allSourcePaths` the paths named by the entries after the first (entry 0's path is not collected) |
| PcMap.ScanStart | brownie/project/compiler.py:145-155 | entry 0 starts the walk in a consistent state |
| PcMap.ScanStep | brownie/project/compiler.py:156-183 | one pass of the instruction loop keeps the walk consistent |
| PcMap.ScanDone | brownie/project/compiler.py:184-185 | a walk over every field is a well-built pc map of the decoded source map |
| PcMap.DecodeInstructions | brownie/project/compiler.py:145-183 | the loop returns exactly `Decoded`, the field-by-field walk: the first instruction that fails ends it with that error, and a walk over every field succeeds with the pc map and paths built |
| PcMap.DecodedWellBuilt | brownie/project/compiler.py:145-185 | a successful walk decodes every source-map field and is a well-built pc map of those entries over the listing |
| PcMap.WalkWellBuilt | brownie/project/compiler.py:156-185 | a walk resumed from a consistent state is, when it succeeds, well built |
| PcMap.WalkNext | brownie/project/compiler.py:156-176 | one more instruction keeps the walk's state consistent with the entries, pcs and pc-map entries decoded so far |
| PcMap.WalkStep | brownie/project/compiler.py:156-183 | a walk that reads one more instruction goes on from the state that instruction advances to |
| PcMap.WalkDone | brownie/project/compiler.py:184-185 | a consistent walk over every field returns a well-built pc map |
| PcMap.OperandsStep | brownie/project/compiler.py:169-170 | an entry that took its operand by the "0x" rule keeps every entry so far reading its operand by that rule |
| PcMap.OperandKept | brownie/project/compiler.py:169-170 | an entry's operand reading does not change when entries are appended after it |
| IsolateLines.Touch | brownie/project/compiler.py:250-251 | `if path not in line_map: line_map[path] = []`: the path gets an empty list and every other list is unchanged |
| IsolateLines.MinExists | brownie/project/compiler.py:269 | a non-empty set of pcs has a least element, which `sorted` puts first |
| IsolateLines.SortedKeys | brownie/project/compiler.py:269 | `sorted(pcMap)`: strictly increasing, and exactly the pc map's keys |
| IsolateLines.FindAnchor | brownie/project/compiler.py:258-263 | the anchor is the greatest x in [1, i-4] that has a path, is not a JUMPDEST and has an offset other than the JUMPI's. None means there is none; KeyError means a candidate without an offset is reached first |
| IsolateLines.BranchOf | brownie/project/compiler.py:252-266 | a JUMPI followed by INVALID, or whose source holds " public ", or that has no anchor, gives no item. Otherwise the item is `_base` of the anchor with `jump` set to the JUMPI's pc. KeyError, exactly in the listed cases |
| IsolateLines.BranchesFailureSticks | brownie/project/compiler.py:248-266 | a failed JUMPI ends the branch pass |
| IsolateLines.BranchPass | brownie/project/compiler.py:248-266 | the loop over the JUMPIs computes the branch pass |
| IsolateLines.BranchesFailure | brownie/project/compiler.py:248-266 | the branch pass fails exactly when some walked JUMPI's item cannot be built |
| IsolateLines.FirstCovering | brownie/project/compiler.py:277-281 | the first item of the path covering the offset's start, or None when no item does |
| IsolateLines.StatementStep | brownie/project/compiler.py:269-290 | an instruction with a path but no offset raises KeyError; otherwise multi-line sources are skipped, the first covering item takes the pc and grows to the offset's end, except that a branch item whose stop the offset passes is left unchanged and does not take the pc; an uncovered instruction starts a new `_base` item |
| IsolateLines.StatementsFailure | brownie/project/compiler.py:268-290 | the statement pass fails exactly when an instruction with a path has no offset |
| IsolateLines.StatementPass | brownie/project/compiler.py:268-290 | the loop computes the statement pass |
| IsolateLines.StatementsPrefixFailure | brownie/project/compiler.py:268-290 | a failed instruction ends the statement pass |
| IsolateLines.BranchOfKept | brownie/project/compiler.py:265-266 | a branch item is anchored at an instruction of its path and holds that pc |
| IsolateLines.BranchesSound | brownie/project/compiler.py:248-266 | after the branch pass, every list is keyed by its path and holds only anchored items |
| IsolateLines.StatementStepSound | brownie/project/compiler.py:269-290 | one statement step keeps the lists sound |
| IsolateLines.StatementsSound | brownie/project/compiler.py:268-290 | the statement pass keeps the lists sound |
| IsolateLines.LinesFailure | brownie/project/compiler.py:248-290 | the two passes fail exactly when some JUMPI's branch cannot be built or some instruction with a path has no offset |
| IsolateLines.LinesKeyError | brownie/project/compiler.py:248-290 | that failure is KeyError |
| IsolateLines.BranchesKeyError | brownie/project/compiler.py:248-266 | the branch pass fails only with KeyError |
| IsolateLines.StatementsKeyError | brownie/project/compiler.py:268-290 | the statement pass fails only with KeyError |
| IsolateLines.MergedPlaced | brownie/project/compiler.py:293-318 | the merge pass of a list of placed items keeps every item anchored at instructions of the pc map |
| IsolateLines.PlacedAppend | brownie/project/compiler.py:319 | joining two lists of placed items keeps them placed |
| IsolateLines.MergeAll | brownie/project/compiler.py:292-319 | every file's list goes through exactly the merge pass `MergePass`, and the result is the merged lists joined in the order the files were first met, every item placed |
| IsolateLines.Isolate | brownie/project/compiler.py:237-319 | `_isolate_lines` fails exactly when one of its passes fails, and then with KeyError; otherwise its items are each file's list from the branch pass and the statement pass over the pc keys in increasing order, put through exactly the merge pass and joined in the order the files were first met |
| CoverageItems.Base | brownie/project/compiler.py:326-333 | `_base` covers the instruction's own offset and path, holds only its pc, and is not a jump |
| CoverageItems.KeyLeTotal | brownie/project/compiler.py:294-297 | the (path, start, stop) order is total |
| CoverageItems.KeyLeTransitive | brownie/project/compiler.py:294-297 | the (path, start, stop) order is transitive |
| CoverageItems.PathSqueezed | brownie/project/compiler.py:294-297 | in path order, an item between two of the same path shares that path |
| CoverageItems.Insert | brownie/project/compiler.py:294-297 | stable insertion adds exactly the new item |
| CoverageItems.SortItems | brownie/project/compiler.py:294-297 | the sorted list is a permutation of the input |
| CoverageItems.InsertSorted | brownie/project/compiler.py:294-297 | insertion keeps a list sorted |
| CoverageItems.SortItemsSorted | brownie/project/compiler.py:294-297 | `sorted(..., key=(path, start, stop))` is in key order and a permutation |
| CoverageItems.SortedPathStart | brownie/project/compiler.py:294-297 | a sorted list is ordered by path, then start |
| CoverageItems.JumpItems | brownie/project/compiler.py:303-312 | the branch items of a list, in order |
| CoverageItems.JumpItemsAppend | brownie/project/compiler.py:303-312 | the branch items of two lists joined are theirs joined |
| CoverageItems.PcsAppend | brownie/project/compiler.py:314 | the pcs of two lists joined are their union |
| CoverageItems.PcsHas | brownie/project/compiler.py:314 | each item's pcs are among its list's |
| CoverageItems.PcsBound | brownie/project/compiler.py:314 | a bound on each item's pcs bounds the list's |
| CoverageItems.JumpItemsHas | brownie/project/compiler.py:303-312 | each item with a jump is among the branch items |
| CoverageItems.JumpItemsIn | brownie/project/compiler.py:303-312 | the branch items are items of the list with a jump |
| CoverageItems.DeleteKeepsJumps | brownie/project/compiler.py:307-309 | deleting a statement item that overlaps a following branch item keeps every branch item |
| CoverageItems.DeleteKeepsPcs | brownie/project/compiler.py:309 | a deletion invents no pc |
| CoverageItems.FoldKeepsJumps | brownie/project/compiler.py:313-316 | folding two statement items into one keeps every branch item |
| CoverageItems.FoldKeepsPcs | brownie/project/compiler.py:314-316 | the folded item holds the pcs of both, so no pc is lost or invented |
| CoverageItems.MergeOverlaps | brownie/project/compiler.py:293-318 | the loop returns exactly `MergePass`: the sorted list walked by the rules of the while loop (skip a branch item; delete a statement item only when its stop passes the start of the branch item after it, else step; fold the next statement item in when it touches or overlaps, taking both pcs and the larger stop; else step), and the result has the properties `MergePassMerged` states |
| CoverageItems.MergeFromWalked | brownie/project/compiler.py:300-318 | a walk resumed from a state that keeps the walk's invariant ends with neighbours separated, path order kept, the branch items those of the sorted list, and no pc invented |
| CoverageItems.MergePassMerged | brownie/project/compiler.py:293-318 | after the merge pass the list is in path order; no two consecutive statement items touch or overlap; no statement item overlaps a following branch item of its file; branch items are never merged or lost; and no pc is invented |
| CoverageItems.MergeFromAllPcs | brownie/project/compiler.py:313-318 | a walk over statement items only folds, so every pc survives |
| CoverageItems.MergePassAllPcs | brownie/project/compiler.py:293-318 | a file whose list holds statement items only keeps every pc through the merge pass: statement items are dropped only by the branch-overlap deletion of lines 307-309 |
| CoverageItems.Step | brownie/project/compiler.py:303-318 | moving past a separated pair keeps the walk's invariant |
| CoverageItems.DeleteOverlapped | brownie/project/compiler.py:307-309 | the deletion step keeps the walk's invariant |
| CoverageItems.DeleteKeepsOrder | brownie/project/compiler.py:309 | deleting an item keeps path order |
| CoverageItems.FoldNext | brownie/project/compiler.py:313-317 | the folding step keeps the walk's invariant |
| CoverageMap.FirstHost | brownie/project/compiler.py:350-353 | the first contract with that source path whose offset holds the range, or None when no contract does |
| CoverageMap.FirstFn | brownie/project/compiler.py:354-357 | the first function whose offset holds the range, or None |
| CoverageMap.GetFn | brownie/project/compiler.py:348-359 | `get_fn` gives the name of the first function, in order, of the first contract hosting the range; it is false exactly when no contract hosts the range or that contract has no such function |
| CoverageMap.PathsOf | brownie/project/compiler.py:212 | `set(i['path'] for i in line_map)`: exactly the items' paths |
| CoverageMap.ListedPrefix | brownie/project/compiler.py:213-220 | the list of a function grows only at its end as items are filed |
| CoverageMap.ListedHas | brownie/project/compiler.py:217-222 | an item with a function is filed in that function's list at the index its pcs get |
| CoverageMap.CoverageIndexPoints | brownie/project/compiler.py:221-222 | an instruction's coverage index is unchanged when no filed item holds it; otherwise it points at the entry of the item that holds it in that function's list |
| CoverageMap.FiledStart | brownie/project/compiler.py:212 | the filing loop starts with an empty dict per path and the pc map unchanged |
| CoverageMap.SetIndex | brownie/project/compiler.py:221-222 | the item's pcs get the index, and every other pc-map entry is unchanged |
| CoverageMap.FileItems | brownie/project/compiler.py:213-222 | the loop files every item and indexes every pc as the table and index describe |
| CoverageMap.ListedStep | brownie/project/compiler.py:217-220 | one more item appends its entry to its function's list when it has one |
| CoverageMap.CoverageIndexStep | brownie/project/compiler.py:221-222 | one more item sets its pcs' index to its position, the length of the list less one |
| CoverageMap.TabledNamed | brownie/project/compiler.py:214-220 | `setdefault(fn, []).append(...)` keeps the table as described |
| CoverageMap.IndexedNamed | brownie/project/compiler.py:221-222 | writing the index keeps the pc map as described |
| CoverageMap.TabledUnnamed | brownie/project/compiler.py:215-216 | an item outside every function is skipped |
| CoverageMap.IndexedUnnamed | brownie/project/compiler.py:215-216 | such an item indexes nothing |
| CoverageMap.GenerateCoverageMap | brownie/project/compiler.py:206-223 | `_isolate_lines` fails with KeyError exactly in its failure cases; otherwise the map files every isolated item (each file's list through exactly the merge pass) under its path and function, in order, and each pc of a filed item carries that item's index |
| CoverageMap.Branching | brownie/project/compiler.py:231 | the branch entries of a function |
| CoverageMap.WeightCounts | brownie/project/compiler.py:231 | a function weighs one per statement entry and two per branch entry |
| CoverageMap.WeightAppend | brownie/project/compiler.py:231 | weight adds up over lists joined |
| CoverageMap.CoverageTotals | brownie/project/compiler.py:227-234 | the totals apart from the dict: `total` is the sum of every function's weight, and there is one per-function total per function named |
| CoverageMap.PerFnIsLastRow | brownie/project/compiler.py:232 | a function's total is the weight of the last row with its name |
| CoverageMap.TotalsAsWrittenAgrees | brownie/project/compiler.py:227-234 | the code as written agrees with `CoverageTotals` when no function is named "total" |
| CoverageMap.QualifiedTotalsAgree | brownie/project/compiler.py:227-234 | with every function key a "Contract.fn" name, as `fn_offsets` builds them (line 98), the dict the code builds holds the sum of all weights under "total" and each function's weight under its name |
| LinkReferences.Head | brownie/project/compiler.py:341 | `s[:k]` |
| LinkReferences.Tail | brownie/project/compiler.py:343 | `s[k:]` |
| LinkReferences.PadName | brownie/project/compiler.py:342 | `{:_<36}` of `n[:36]`: the name's first 36 characters padded with `_` to exactly 36 |
| LinkReferences.Placeholder | brownie/project/compiler.py:340-344 | a placeholder is 40 characters: `__`, the padded name, `__` |
| LinkReferences.SpliceInPlace | brownie/project/compiler.py:340-344 | a slot inside the bytecode is overwritten in place: the length is kept, the slot holds the placeholder, and every other character is unchanged |
| LinkReferences.SpliceGrows | brownie/project/compiler.py:340-344 | a slot running past the end extends the bytecode to its end |
| LinkReferences.SlotsInside | brownie/project/compiler.py:338-339 | each slot is at twice its reference's byte offset |
| LinkReferences.SpliceAllKeepsLength | brownie/project/compiler.py:339-344 | splicing slots inside the bytecode keeps its length |
| LinkReferences.SpliceAllKeepsRest | brownie/project/compiler.py:339-344 | characters outside every slot are unchanged |
| LinkReferences.LastSlotHolds | brownie/project/compiler.py:339-344 | the last slot spliced holds its placeholder |
| LinkReferences.FormatKeepsLength | brownie/project/compiler.py:336-345 | `format_link_references` keeps the bytecode's length when every reference lies inside it |
| LinkReferences.SpliceApart | brownie/project/compiler.py:340-344 | writing one slot leaves a slot that does not overlap it as it was |
| LinkReferences.LaidInit | brownie/project/compiler.py:339-344 | the slots written before the last are still inside the bytecode and apart, and each is apart from the last |
| LinkReferences.SpliceAllHolds | brownie/project/compiler.py:339-344 | with every slot inside the bytecode and no two overlapping, each slot holds its own placeholder once all are written |
| LinkReferences.SlotsHas | brownie/project/compiler.py:338-339 | each offset of each reference gives a slot at twice that offset under the reference's name |
| LinkReferences.FormatWritesPlaceholders | brownie/project/compiler.py:336-345 | with every reference inside the bytecode and no two slots overlapping, the linked bytecode keeps its length and holds, at each reference's slot `[2 * start, 2 * start + 40)`, the placeholder of its library |
| CoverageEval.FirstJump | brownie/test/coverage.py:54 | the first entry whose jump is the pc, or None (StopIteration) |
| CoverageEval.Opened | brownie/test/coverage.py:41-42 | `setdefault` creates the function's empty hit sets and nothing else |
| CoverageEval.Record | brownie/test/coverage.py:43-52 | a non-JUMPI step with an index (IndexError past the end of the list) adds it to the transaction's set when its entry is a branch, and to `tx` otherwise; without an index nothing changes |
| CoverageEval.Branch | brownie/test/coverage.py:53-63 | a JUMPI step changes only its own function's sets and never the transaction's |
| CoverageEval.OpenedConsistent | brownie/test/coverage.py:41-42 | creating empty sets keeps the evaluation consistent |
| CoverageEval.RecordConsistent | brownie/test/coverage.py:43-52 | a non-JUMPI step keeps `tx`, `true` and `false` pairwise disjoint |
| CoverageEval.BranchConsistent | brownie/test/coverage.py:54-63 | a JUMPI step keeps the sets disjoint and the one-way sets on branch entries |
| CoverageEval.TraceStepConsistent | brownie/test/coverage.py:22-63 | one trace step keeps the evaluation consistent |
| CoverageEval.TraceConsistent | brownie/test/coverage.py:21-63 | a whole trace keeps the evaluation consistent |
| CoverageEval.HistoryConsistent | brownie/test/coverage.py:17-63 | after any history, every function's `tx`, `true` and `false` are pairwise disjoint and the one-way sets hold only branch entries |
| CoverageEval.GrowsTransitive | brownie/test/coverage.py:17-63 | growth of the evaluation is transitive |
| CoverageEval.RecordGrows | brownie/test/coverage.py:43-52 | a non-JUMPI step loses no hit |
| CoverageEval.BranchGrows | brownie/test/coverage.py:54-63 | a JUMPI step loses no hit: an entry moves only from one direction into `tx` |
| CoverageEval.TraceStepGrows | brownie/test/coverage.py:22-63 | one trace step loses no hit |
| CoverageEval.TraceGrows | brownie/test/coverage.py:21-63 | a trace loses no hit |
| CoverageEval.HistoryGrows | brownie/test/coverage.py:17-63 | a later transaction never loses a hit recorded by an earlier one |
| CoverageEval.TraceSticks | brownie/test/coverage.py:21-63 | an exception ends the trace |
| CoverageEval.HistorySticks | brownie/test/coverage.py:17-63 | an exception ends the analysis |
| CoverageEval.Mapped | brownie/test/coverage.py:66 | the scored functions are exactly those of the loaded contracts' coverage maps |
| CoverageEval.CreditBound | brownie/test/coverage.py:74-81 | an entry gives at most its weight, and all of it exactly when it is in `tx` |
| CoverageEval.CountBound | brownie/test/coverage.py:70-81 | the count never exceeds the total, and reaches it exactly when every entry is in `tx` |
| CoverageEval.WeightPositive | brownie/test/coverage.py:70 | the total is at least the number of entries |
| CoverageEval.ScoreMeaning | brownie/test/coverage.py:70-84 | ZeroDivisionError exactly for an empty list of entries; a partial score has count < total; every entry fully hit gives `{'pct': 1}`; and under 20000 as total, `{'pct': 1}` means every entry fully hit |
| CoverageEval.CountHits | brownie/test/coverage.py:73-81 | the counting loop computes the count |
| CoverageEval.ScoredFails | brownie/test/coverage.py:66-84 | a function with an empty list makes the scoring raise ZeroDivisionError |
| CoverageEval.ScoredSucceeds | brownie/test/coverage.py:66-84 | a scoring that covers every function without error is the result |
| CoverageEval.ScoreOne | brownie/test/coverage.py:67-84 | a function never traced gets `{'pct': 0}`; otherwise its count against its total |
| CoverageEval.ScoredStep | brownie/test/coverage.py:66-84 | scoring one more function extends the partial result |
| CoverageEval.ScoredAll | brownie/test/coverage.py:66-84 | the loop's result is the scoring |
| CoverageEval.ScoreAll | brownie/test/coverage.py:66-84 | the scoring loop computes the scores of every mapped function |
| CoverageEval.RecordStep | brownie/test/coverage.py:44-52 | the in-place update computes the non-JUMPI step |
| CoverageEval.BranchStep | brownie/test/coverage.py:54-63 | the in-place update computes the JUMPI step |
| CoverageEval.WalkStep | brownie/test/coverage.py:22-63 | one pass of the loop over a trace computes the trace step: skipped steps, the KeyErrors, the opened hit sets and the recorded hit |
| CoverageEval.WalkTrace | brownie/test/coverage.py:20-63 | the loop over one trace computes the trace fold, with the transaction's own hits starting empty |
| CoverageEval.AnalyzeCoverage | brownie/test/coverage.py:12-85 | `analyze_coverage` walks every transaction, then scores |
| CoverageMerge.MergeSets | brownie/test/coverage.py:107-111 | the merged sets are pairwise disjoint; keep everything fully hit in either run; and hold exactly the indices hit in either run |
| CoverageMerge.MergeFnAsWritten | brownie/test/coverage.py:101-111 | as written: an incoming 0 or an equal side keeps the current one, and otherwise the result is `{'pct': 1}` or the current side with merged sets |
| CoverageMerge.UnreachedThenPartialFails | brownie/test/coverage.py:103-107 | a function never reached in the first run and partly covered in the second raises KeyError as written |
| CoverageMerge.MergeFn | brownie/test/coverage.py:101-111 | the corrected merge: an incoming 0 or an equal side keeps the current one; a current 0 takes the incoming side; either side at 1 gives `{'pct': 1}` |
| CoverageMerge.MergeSetsSelf | brownie/test/coverage.py:103 | merging disjoint sets with themselves changes nothing, so the `f == c` shortcut changes no result |
| CoverageMerge.MergeSetsCommutes | brownie/test/coverage.py:107-111 | the order of two runs does not matter to the sets |
| CoverageMerge.MergeSetsLeft | brownie/test/coverage.py:107-111 | merging three runs in turn promotes everything seen both ways across them |
| CoverageMerge.MergeSetsAssociates | brownie/test/coverage.py:107-111 | merging runs does not depend on how they are grouped |
| CoverageMerge.MergeContract | brownie/test/coverage.py:99-111 | every incoming function must be in the current side (KeyError otherwise); merged functions are merged by the corrected `MergeFn` and the others kept |
| CoverageMerge.MergeRun | brownie/test/coverage.py:96-111 | a contract first seen is taken over as it is; a contract only in the merged side is kept; a shared contract is merged with the corrected `MergeFn`, and the run fails exactly when a shared contract fails |
| CoverageMerge.MergeFilesContracts | brownie/test/coverage.py:90-98 | the merge covers exactly the contracts of the files that exist; missing files are skipped |
| CoverageMerge.MergeFilesSticks | brownie/test/coverage.py:90-111 | an exception ends the merge |
| CoverageMerge.MergeContractInPlace | brownie/test/coverage.py:99-111 | the in-place loop computes the contract merge, with the corrected `MergeFn` |
| CoverageMerge.MergeRunInPlace | brownie/test/coverage.py:96-111 | the in-place loop computes the merge of one run, with the corrected `MergeFn` |
| CoverageMerge.MergeCoverage | brownie/test/coverage.py:88-112 | `merge_coverage` computes the merge of every file in order, with the corrected `MergeFn` |
| CoverageMerge.ListToSet | brownie/test/coverage.py:115-120 | the entry becomes the set of its elements (or the empty set when absent) and is returned; other entries are unchanged |
| CoverageMerge.ListToSetTwice | brownie/test/coverage.py:115-120 | converting twice is converting once |
| CoverageMerge.LastOf | brownie/test/coverage.py:185 | `rindex` of one character is its last occurrence |
| CoverageMerge.MaxOpt | brownie/test/coverage.py:185 | `max` over the characters found |
| CoverageMerge.MaxIndexIsPastLastCloser | brownie/test/coverage.py:183-185 | `_maxindex` is one past the last `;`, `}` or `{`, and ValueError when none occurs |
| Contracts.Last | brownie/network/contract.py:221 | `s[-k:]` |
| Contracts.DropLast | brownie/network/contract.py:778 | `s[:-k]` |
| Contracts.RunEnd | brownie/network/contract.py:215 | the end of a run of underscores |
| Contracts.NextUnderscore | brownie/network/contract.py:215 | the next underscore |
| Contracts.Markers | brownie/network/contract.py:215 | the matches of `_{1,}[^_]*_{1,}` are markers that start and end with `_`, and there are none without an underscore |
| Contracts.MarkersSkip | brownie/network/contract.py:215 | the scan passes over characters other than `_` |
| Contracts.PlaceholderChars | brownie/project/compiler.py:340-344 | the characters of a library's placeholder |
| Contracts.MarkerAt | brownie/network/contract.py:215 | a run of underscores, other characters and another run is one marker |
| Contracts.PlaceholderMarker | brownie/network/contract.py:215 | the placeholder of a library is the one marker found in bytecode that has no other underscore |
| Contracts.Cut | brownie/network/contract.py:772-773 | `s[:idx] + s[idx + 40:]` |
| Contracts.CutMarkers | brownie/network/contract.py:769-773 | the marker loop fails only with ValueError, for a marker that is gone |
| Contracts.CutMarkersSticks | brownie/network/contract.py:770-773 | a missing marker ends the loop with its error |
| Contracts.CutAll | brownie/network/contract.py:769-773 | the loop computes the marker cutting |
| Contracts.VerifyDeployedCode | brownie/network/contract.py:758-782 | computes the answer of `_verify_deployed_code`: the library prefix case, the marker cutting, the metadata dropping for Solidity, then equality |
| Contracts.CutMarkersSame | brownie/network/contract.py:769-773 | cutting the same string from both sides leaves them equal |
| Contracts.VerifySelf | brownie/network/contract.py:758-782 | a build is never rejected against its own code |
| Contracts.LibraryVerifies | brownie/network/contract.py:762-767 | a deployed library carrying its lower-cased address in place of the zero address, with the rest from char 42 equal, verifies |
| Contracts.LinkedVerifies | brownie/network/contract.py:769-782 | code linked against a library verifies against the unlinked build |
| Contracts.MetadataIgnored | brownie/network/contract.py:775-782 | code that differs from the build only in well-formed Solidity metadata verifies |
| Contracts.Sender | brownie/network/contract.py:718-723 | the owner, else the default account, and nobody in test mode when contracts have no default owner |
| Contracts.TxFields | brownie/network/contract.py:726-733 | a trailing dict leaves the arguments; each field of the tx is the alias, else the given key, else the default |
| Contracts.GetTx | brownie/network/contract.py:717-733 | `_get_tx` computes that split; without a trailing dict the arguments pass through and the tx is the defaults |
| Contracts.GetOverload | brownie/network/contract.py:548-552 | the overload stored under the normalised key, KeyError when there is none |
| Contracts.LookupByTypes | brownie/network/contract.py:549-551 | looking an overload up by its ABI types gives the key it is stored under |
| Contracts.PairKey | brownie/network/contract.py:269 | `"uint256", "address"` is stored under `"uint,address"` |
| Contracts.SpelledLookup | brownie/network/contract.py:549-552 | the spelling with a space after the comma finds the stored key |
| Contracts.CountAtLeast | brownie/network/contract.py:252-260 | a name borne by two functions counts at least twice |
| Contracts.SetAttr | brownie/network/contract.py:273-276 | AttributeError exactly on a name already taken, otherwise the attribute is set |
| Contracts.CountPrefix | brownie/network/contract.py:260 | a name counts no more among some functions than among all |
| Contracts.BindStep | brownie/network/contract.py:253-271 | binding one more function fails, with AttributeError, exactly when its name is a class attribute, and otherwise keeps the binding invariant |
| Contracts.BindKeeps | brownie/network/contract.py:252-271 | a binding without error keeps the class's own attributes and binds each name its functions bear |
| Contracts.BindInvariant | brownie/network/contract.py:252-276 | binding fails, with AttributeError, exactly when a function is named like one of the class's own attributes |
| Contracts.BindReach | brownie/network/contract.py:252-271 | a function once bound stays reachable |
| Contracts.BindKeyed | brownie/network/contract.py:269-271 | every overload is stored under its own key and name |
| Contracts.BoundReachable | brownie/network/contract.py:252-271 | after binding, a name borne once holds its method, and the overload of a name borne more often is found by its own input types |
| Contracts.DeployedContract.constructor | brownie/network/contract.py:241-251 | a new contract has only the class's own attributes |
| Contracts.DeployedContract.CheckAndSet | brownie/network/contract.py:273-276 | AttributeError on a collision, with nothing changed; otherwise the attribute is bound |
| Contracts.DeployedContract.BindMethods | brownie/network/contract.py:252-271 | the loop binds as the binding function says and fails with its error |
| Contracts.BindSticks | brownie/network/contract.py:253-271 | an error ends the binding |
| Contracts.FirstWith | brownie/network/contract.py:70 | the first signature with that selector |
| Contracts.GetMethod | brownie/network/contract.py:68-70 | the first name whose selector is the lower-cased first ten characters of the calldata, None exactly when there is none |
| Contracts.LStrip | brownie/network/contract.py:216 | `lstrip("_")` |
| Contracts.RStrip | brownie/network/contract.py:216 | `rstrip("_")` |
| Contracts.StripPlaceholder | brownie/network/contract.py:216 | stripping a library's placeholder gives back its name |
| Contracts.LibraryAddress | brownie/network/contract.py:217-221 | the last 40 characters of the library's latest deployment; KeyError for an unknown library, UndeployedLibrary for one never deployed |
| Contracts.LinkedStep | brownie/network/contract.py:215-222 | one more marker fails with its library's error or replaces every occurrence of the marker with the address |
| Contracts.LinkLibraries | brownie/network/contract.py:213-222 | the loop links the markers found in the bytecode |
| Contracts.LinkedSticks | brownie/network/contract.py:215-222 | an error ends the linking |
| Contracts.LinkedFails | brownie/network/contract.py:215-222 | linking fails exactly when a marker names a library not there or not deployed |
| Contracts.LinkedFailsAt | brownie/network/contract.py:215-222 | one marker whose library is missing or has no deployment makes the whole linking fail |
| Contracts.LinkedSucceeds | brownie/network/contract.py:215-222 | when every marker's library has a deployment, linking succeeds |
| Contracts.LinkedChars | brownie/network/contract.py:215-222 | linking writes only characters of the bytecode and of the addresses |
| Contracts.ReplaceOnce | brownie/network/contract.py:222 | `replace` of a marker that occurs once replaces that occurrence only |
| Contracts.PlaceholderWritten | brownie/project/compiler.py:336-345 | a library's single 40-character slot after an even-length prefix is overwritten by that library's placeholder, and the text around it is kept |
| Contracts.PlaceholderLinked | brownie/network/contract.py:212-222 | bytecode with a single placeholder and no other `_` is linked by putting the library's latest address in the placeholder's place |
| Contracts.LinkRoundTrip | brownie/project/compiler.py:336-345 | compiling then deploying: the slot `format_link_references` fills with a library's placeholder is the one `encode_input` fills with the library's address, and nothing else changes |
| Contracts.IndexOf | brownie/network/contract.py:287-289 | the first held contract equal (same address and code) to the one given |
| Contracts.ContractContainer.constructor | brownie/network/contract.py:84-90 | a new container holds no contract and keeps its name, project, dependencies, the ABI functions and class attributes its contracts are built with, and the build's `deployedBytecode` and `language` |
| Contracts.ContractContainer.Remove | brownie/network/contract.py:124-133 | TypeError, with nothing changed, for a contract not held; otherwise the first equal one leaves the list and the contract leaves the registry (KeyError if it is not there) |
| Contracts.ContractContainer.At | brownie/network/contract.py:135-167 | a project contract registered at the address is returned when it is of this type and project, ContractExists otherwise, with nothing changed; empty code raises ContractNotFound; the new contract's constructor raises AttributeError, before anything is registered, exactly when an ABI function is named like an attribute of the class; `_verify_deployed_code` then raises ValueError, with nothing registered, exactly when `VerifiedCode` fails for the build's `deployedBytecode` and `language` (a marker gone, an unreadable metadata length); otherwise the new contract is registered and appended |
| Contracts.RemoveKeepsValid | brownie/network/contract.py:124-133 | removing a held contract keeps the container consistent with the registry |
| Contracts.AtKeepsValid | brownie/network/contract.py:163-166 | `at` keeps the container consistent with the registry |
| ChainState.TxHistory.constructor | brownie/network/state.py:35-38 | the history starts with no receipts and no gas profile |
| ChainState.Keep | brownie/network/state.py:62-84 | a filter keeps exactly the receipts that meet its condition |
| ChainState.KeepAppend | brownie/network/state.py:62 | filtering distributes over joined lists, so order is kept |
| ChainState.GasStepOrdered | brownie/network/state.py:95-103 | an update keeps low <= avg <= high and never raises the total |
| ChainState.ProfileRange | brownie/network/state.py:86-103 | the profile counts every call and low/high are the least and greatest gas used |
| ChainState.ProfileMean | brownie/network/state.py:86-103 | low <= avg <= high, and avg · count never exceeds the sum |
| ChainState.ProfileSnoc | brownie/network/state.py:86-103 | the profile of one more call is the `_gas` update of the profile so far |
| ChainState.TxHistory.Revert | brownie/network/state.py:61-62 | keeps exactly the receipts mined at or below the height, in order |
| ChainState.TxHistory.AddTx | brownie/network/state.py:64-65 | appends the receipt |
| ChainState.TxHistory.FromSender | brownie/network/state.py:74-76 | the receipts sent by the account |
| ChainState.TxHistory.ToReceiver | brownie/network/state.py:78-80 | the receipts sent to the account |
| ChainState.TxHistory.OfAddress | brownie/network/state.py:82-84 | the receipts sent by or to the account |
| ChainState.TxHistory.RecordGas | brownie/network/state.py:86-103 | the first call sets avg = high = low = gas and count 1; later ones update as `_gas` does |
| ChainState.ProfileOrdered | brownie/network/state.py:86-103 | every recorded profile has low <= avg <= high and a count of at least 1 |
| ChainState.Calls | brownie/network/state.py:221-223 | the (fn, args, kwargs) of the buffer entries |
| ChainState.Reversed | brownie/network/state.py:221-223 | popping one at a time reverses the order |
| ChainState.ReversedTwice | brownie/network/state.py:221-223 | reversing twice gives back the order |
| ChainState.Replayed | brownie/network/state.py:250-252 | replayed calls are re-recorded in order |
| ChainState.UndoRedoRoundTrip | brownie/network/state.py:199-254 | undo(n) then the corrected redo(n) gives back the undo buffer's calls and the redo buffer (the source's `redo` as written does not, see Findings) |
| ChainState.UndoStep | brownie/network/state.py:221-223 | one pop moves the next call onto the redo buffer |
| ChainState.Chain.constructor | brownie/network/state.py:113-121 | both buffers start empty, with no snapshot, reset or current id and no time offset |
| ChainState.Chain.Snap | brownie/network/state.py:176-177 | a new snapshot id is issued and nothing else changes |
| ChainState.Chain.AddToUndoBuffer | brownie/network/state.py:189-197 | appends the call; pops the redo top when it is the same call, else clears the redo buffer |
| ChainState.Chain.Undo | brownie/network/state.py:199-226 | ValueError unless 1 <= num <= the undo buffer's length, with nothing changed; otherwise num entries move, latest first, to the redo buffer |
| ChainState.Chain.RedoAsWritten | brownie/network/state.py:242-254 | as written: ValueError unless 1 <= num <= the redo buffer's length; otherwise the calls made under `_undo_lock` are the top of the redo buffer `num` times |
| ChainState.RecordedReplayPops | brownie/network/state.py:189-197 | recording the top `num` calls latest first through `_add_to_undo_buffer` pops exactly them off the redo buffer |
| ChainState.RedoAsWrittenDiffers | brownie/network/state.py:250-252 | with two different calls on top, the calls `redo` makes as written are not the undone calls in replay order |
| ChainState.RedoAsWrittenLosesBuffer | brownie/network/state.py:189-197 | redo buffer `[a, b, c]`, `redo(2)`: recording the as-written calls `[c, c]` empties the buffer, where the corrected replay `[c, b]` leaves `[a]` |
| ChainState.Chain.Redo | brownie/network/state.py:228-254 | the corrected `redo`: ValueError unless 1 <= num <= the redo buffer's length; otherwise the top num calls are replayed latest first, each popped off the redo buffer and re-recorded in the undo buffer |
| ChainState.Chain.Sleep | brownie/network/state.py:260-275 | a non-zero sleep clears the redo buffer and takes a snapshot |
| ChainState.Chain.Mine | brownie/network/state.py:277-298 | clears the redo buffer and takes a snapshot |
| ChainState.Chain.Snapshot | brownie/network/state.py:300-308 | clears both buffers and records the snapshot |
| ChainState.Chain.Revert | brownie/network/state.py:310-326 | ValueError, with nothing changed, when no snapshot was taken; otherwise both buffers are cleared and a fresh id replaces the snapshot's |
| ChainState.Chain.Reset | brownie/network/state.py:328-347 | drops the snapshot and clears both buffers |
| ChainState.SortedNames | brownie/network/state.py:404 | `sorted(set(...))`: strictly sorted and holding exactly the names |
| ChainState.LeastExists | brownie/network/state.py:404 | a non-empty set of names has a least one in string order |
| ChainState.Registry.constructor | brownie/network/state.py:22 | the registry starts empty |
| ChainState.Registry.AddContract | brownie/network/state.py:407-408 | registers the contract at its address |
| ChainState.Registry.RemoveContract | brownie/network/state.py:411-412 | KeyError for an unregistered address; otherwise removes it |
| ChainState.Registry.CurrentDependencies | brownie/network/state.py:400-404 | the sorted, duplicate-free names of the registered contracts and their dependencies |
| Normalize.UintHasInt | brownie/convert/normalize.py:78-81 | a type with `uint` also has `int`, so the order of the tests matters |
| Normalize.ConverterFor | brownie/convert/normalize.py:76-92 | `uint` first, then `int`, `fixed168x10`, `bool`, `address`, `byte`, `string`; TypeError exactly for a type none accepts |
| Normalize.FormatSingle | brownie/convert/normalize.py:76-92 | the value goes to its converter, TypeError exactly for an unknown type |
| Normalize.SizedTypes | brownie/convert/normalize.py:78-89 | `uintN`, `intN` and `bytesN` reach their converters |
| Normalize.NamedTypes | brownie/convert/normalize.py:82-87 | `bool`, `address` and `fixed168x10` reach their converters |
| Normalize.StringType | brownie/convert/normalize.py:90-91 | `string` reaches `to_string` |
| Normalize.AsList | brownie/convert/normalize.py:45 | `list(values)`: a list as it is, a string as its characters, TypeError otherwise |
| Normalize.FormatTuple | brownie/convert/normalize.py:43-58 | TypeError when the counts differ; otherwise one result per type |
| Normalize.FormatEach | brownie/convert/normalize.py:48-57 | one result per value |
| Normalize.FormatArray | brownie/convert/normalize.py:61-73 | TypeError for a non-list; ValueError for a static array of the wrong length; otherwise one result per item |
| Normalize.FormatAll | brownie/convert/normalize.py:69-73 | one result per item |
| Normalize.FormatEachValues | brownie/convert/normalize.py:48-58 | the tuple loop succeeds exactly when every value formats, and gives each formatted |
| Normalize.FormatEachFirst | brownie/convert/normalize.py:48-57 | a failure is the first failing value's error |
| Normalize.FormatAllValues | brownie/convert/normalize.py:69-73 | the array comprehension succeeds exactly when every item formats, and gives each formatted |
| Normalize.FormatAllFirst | brownie/convert/normalize.py:69-73 | a failure is the first failing item's error |
| Normalize.ItemErrors | brownie/convert/normalize.py:43-92 | formatting raises only TypeError or ValueError |
| Normalize.TupleErrors | brownie/convert/normalize.py:43-58 | so does `_format_tuple` |
| Normalize.EachErrors | brownie/convert/normalize.py:48-57 | so does the tuple loop |
| Normalize.ArrayErrors | brownie/convert/normalize.py:61-73 | so does `_format_array` |
| Normalize.AllErrors | brownie/convert/normalize.py:69-73 | so does the array comprehension |
| Normalize.DynamicItemsUnchecked | brownie/convert/normalize.py:64 | a fixed-size array of a dynamic type is not length-checked: `string[2]` accepts one string |
| Normalize.FormatInput | brownie/convert/normalize.py:11-19 | TypeError when inputs are given to a function without any; otherwise one result per input |
| Normalize.NoInputsSameError | brownie/convert/normalize.py:13-17 | the arity check raises the error the tuple check would |
| Normalize.FormatInputMeaning | brownie/convert/normalize.py:11-19 | succeeds exactly when the counts agree and every input formats, and gives each formatted |
| Normalize.ComponentTypes | brownie/convert/normalize.py:107 | one type string per component |
| Normalize.Params | brownie/convert/normalize.py:95-109 | one (name, type) per parameter, names in order |
| Normalize.SubstitutionPrefix | brownie/convert/normalize.py:102-104 | a substitution applies only to a type starting with its key, which then starts with the replacement |
| Normalize.NoSubstitution | brownie/convert/normalize.py:100-105 | without substitutions a type is kept |
| Normalize.SubstitutedChars | brownie/convert/normalize.py:102-104 | substitution adds no character absent from the type and the replacements |
| Normalize.AbsentChar | brownie/convert/normalize.py:102-104 | a pattern holding a character the string lacks does not occur in it, so its substitution does not apply |
| Normalize.TupleTypeString | brownie/convert/normalize.py:107-108 | a tuple's type is `(`, its components' types joined by commas, `)`: splitting the inside gives them back |
| Normalize.Relabel | brownie/convert/normalize.py:31-33 | an undecoded entry becomes `bytes32` named `" (indexed)"`; a decoded one is unchanged |
| Normalize.Relabelled | brownie/convert/normalize.py:31-33 | every entry relabelled, in place |
| Normalize.RawValues | brownie/convert/normalize.py:36 | the entries' values, in order |
| Normalize.EntryTypes | brownie/convert/normalize.py:34 | the parsed type of each entry |
| Normalize.WithValues | brownie/convert/normalize.py:38-39 | each entry's value replaced by its formatted value |
| Normalize.Event.constructor | brownie/convert/normalize.py:29 | the event holds the decoded entries it is given |
| Normalize.Event.FormatEvent | brownie/convert/normalize.py:29-40 | relabels in place, formats the values as a tuple against the relabelled types and writes them back; on an error the relabelling stays |
| Normalize.FormatEventLabels | brownie/convert/normalize.py:29-40 | entries are neither added nor lost; decoded ones keep name and type; undecoded ones are `bytes32` indexed |
| Check.True | lib/components/check.py:9-16 | AssertionError exactly when the statement is falsy |
| Check.False | lib/components/check.py:19-26 | AssertionError exactly when the statement is truthy |
| Check.TrueFalseExclusive | lib/components/check.py:9-26 | exactly one of the two passes |
| Check.Reverts | lib/components/check.py:29-43 | passes exactly on a revert when no message (or an empty one) is asked for or the revert message is the one asked for; an exception other than a revert propagates; otherwise AssertionError |
| Check.RevertsMonotone | lib/components/check.py:29-43 | asking for a message is stricter than not asking, and a transaction that did not revert never passes |
| Check.Named | lib/components/check.py:74 | exactly the events with the name, each as often as it occurs in the transaction's events |
| Check.NamedAppend | lib/components/check.py:74 | the filter keeps the events' order: the named events of two runs joined are the named events of the first followed by those of the second |
| Check.Lookup | lib/components/check.py:97 | a key's value is the last pair's with that key |
| Check.MatchPairs | lib/components/check.py:92-105 | fails only with KeyError or AssertionError |
| Check.MatchEvents | lib/components/check.py:92-105 | fails only with KeyError or AssertionError |
| Check.EventFired | lib/components/check.py:63-105 | fails only with KeyError or AssertionError |
| Check.Dicts | lib/components/check.py:84-85 | a dict is a list of one |
| Check.MatchPairsPasses | lib/components/check.py:95-105 | the inner loop passes exactly when the event has every expected pair |
| Check.MatchPairsFails | lib/components/check.py:95-105 | a failure is decided by the first pair missing: KeyError for a missing key, AssertionError for a different value |
| Check.MatchEventsMeaning | lib/components/check.py:92-105 | the outer loop passes exactly when each event has its dict's pairs |
| Check.EventFiredMeaning | lib/components/check.py:63-105 | passes exactly when the count is the one asked for (at least one if none is asked), and when values are given there is one dict per event and each event has its dict's pairs |
| Text.Find | brownie/network/contract.py:771 | `index`: the first occurrence, None exactly when there is none |
| Text.FindFrom | brownie/network/contract.py:771 | the first occurrence at or after a position, None exactly when there is none from there |
| Text.RFind | brownie/project/compiler.py:139 | `rindex`: the last occurrence, None exactly when there is none |
| Text.RFindAtMost | brownie/project/compiler.py:139 | the last occurrence at or before a position, None exactly when there is none up to there |
| Text.Split | brownie/project/compiler.py:147-161 | `split(c)`: at least one piece, none holding the separator |
| Text.JoinSplit | brownie/project/compiler.py:156-161 | joining a split gives back the string |
| Text.SplitJoin | brownie/convert/normalize.py:108 | splitting a join of separator-free pieces gives back the pieces |
| Text.JoinChars | brownie/convert/normalize.py:108 | every character of a join comes from the separator or from one of the pieces |
| Text.SplitAppendSeparator | brownie/project/compiler.py:161 | a separator appended adds one empty piece |
| Text.ParseInt | brownie/project/compiler.py:149-163 | `int(s)` on a decimal literal: with a leading `-` the negated value of the digits after it, with a leading `+` or none their value, and None (ValueError) for the empty string or anything but digits after the sign |
| Text.ParseNat | brownie/project/compiler.py:149-163 | reading an unsigned decimal succeeds exactly on a non-empty run of digits |
| Text.FormatNat | brownie/project/compiler.py:163 | a number renders as a non-empty run of decimal digits |
| Text.ParseFormatNat | brownie/project/compiler.py:163 | rendering a number in decimal and reading it back gives the number |
| Text.Lower | brownie/network/contract.py:69 | ASCII `lower()` on the hexadecimal calldata and addresses it is applied to: same length, `A`-`Z` lower-cased, every other character kept |
| Text.ParseHex | brownie/network/contract.py:777 | `int(s, 16)` succeeds exactly on a non-empty run of hexadecimal digits |
| Text.ReplaceAbsent | brownie/network/contract.py:551 | replacing a pattern that does not occur changes nothing |
| Text.ReplaceUnstarted | brownie/network/contract.py:222 | replacing changes nothing from a position past which the pattern does not occur |
| Text.ReplaceDeleteChars | brownie/convert/normalize.py:104 | with an empty replacement every character left was in the string |
| Text.ReplaceAfter | brownie/network/contract.py:222 | the first occurrence is the first replaced |
| Text.ReplaceChars | brownie/convert/normalize.py:104 | a replacement adds no character absent from the string and the replacement |
| Text.ReplaceAllStartsWith | brownie/convert/normalize.py:103-104 | a string starting with the pattern starts with the replacement afterwards |
| Text.StrLeTotal | brownie/network/state.py:404 | Python's string order is total |
| Text.StrLeAntisymmetric | brownie/network/state.py:404 | and antisymmetric |
| Text.StrLeTransitive | brownie/network/state.py:404 | and transitive |

## Left out

- Compiler invocation, solc's AST and the global `sources` are not modelled. Their results are parameters: `fnAt` stands for `child_by_offset`, `inside` for `is_inside_offset`, and `slice` for `_get_source`. The `" public "` and `;` text tests read that slice.
- PcMap.GeneratePcMap: `allSourcePaths` is kept as a set; the order `sorted` gives it is not modelled.
- The RPC and web3 are left out: `getCode`, snapshots, `evm_mine`, `evm_increaseTime`, blocks and time. `Chain` keeps only the buffer bookkeeping. Snapshot ids are counters, and the time offset is a parameter of `Sleep`. `Sleep` and `Mine` take an integer, so the TypeError `sleep` and `mine` raise for a non-integer argument (state.py:269-270, 291-292) is not modelled.
- ChainState.Chain.Redo: models the corrected replay of the Findings table; the source as written calls the top entry `num` times (`RedoAsWritten`), and `UndoRedoRoundTrip` holds only for the corrected replay. Replaying a call may itself fail; the model assumes it succeeds. The transactions' effects, and the thread that records a confirmed call, are not modelled: the as-written recordings are taken to run, in order, once `_undo_lock` is released.
- `eth_abi.grammar.parse` is left out: types are given as `AbiType` values.
- The converters (`to_uint`, `to_int`, `to_decimal`, `to_bool`, `EthAddress`, `HexString`, `to_string`) are left out. `FormatSingle` records which converter a value goes to, but not what it does or the errors it raises.
- `format_output`, `confirms`, `equal` and `not_equal` are not modelled: they need the `wei` conversion and `ReturnValue`, which are not part of this model.
- Error messages are not modelled: `format_input` and `_format_tuple` re-raise with a longer message, and the model keeps only the exception's kind.
- CoverageEval.ScoreMeaning: `round(count / total, 4)` is floating point. The model scores with integer rounding to four places (`Full` = 10000), so "complete" means exactly "every entry fully hit" only for totals under 20000.
- CoverageMerge.MergeCoverage: merges functions with the corrected `MergeFn` of the Findings table, as do `MergeContract`, `MergeRun`, `MergeContractInPlace` and `MergeRunInPlace`. Where a function unreached in an earlier file is partly covered in a later one, the source raises KeyError and the model takes the later evaluation; `MergeFnAsWritten` keeps the behaviour as written.
- Contracts.ContractContainer.At: the address is used as given. `_resolve_address` (ENS names and checksummed addresses, state.py:388 and contract.py:244) is not part of this model, so two spellings of one address are two keys.
- JSON file reading in `merge_coverage` is left out: a file is `None` when it does not exist, otherwise its parsed report.
- `generate_report` and `_evaluate_branch` are not modelled: they read globals and use regexes, and the keys they expect are produced by neither `_generate_coverageMap` nor `analyze_coverage`.
- Natspec printing, deployment files (`_save_deployment`, `_delete_deployment`, `_add_deployment`), Etherscan and ethpm are left out. `ContractContainer.At` keeps no trace data, so a `false` answer of `_verify_deployed_code` (which only deletes `pcMap`) changes nothing in the model; its ValueError is modelled.
- Text.ParseInt: reads an optional `+` or `-` and decimal digits only. Python's `int()` also accepts surrounding whitespace and `_` between digits; the model treats those as ValueError. `SourceMap.IntOrInherit`, which parses with it, inherits the gap, and `PcMap.PushWidth` reads the suffix of `PUSHn` as plain digits (`ParseNat`), without the sign either.
- Text.Lower: lowers ASCII `A`-`Z` only. Python's `str.lower()` also lowers non-ASCII letters and can change the length (`'İ'` becomes two characters); the source applies it to hexadecimal calldata and addresses (contract.py:69, 765), where the two agree.
- Text.ParseHex: reads plain hexadecimal digits only. Python's `int(s, 16)` also accepts a sign, surrounding whitespace, `_` between digits and a `0x` prefix; the model treats those as ValueError.
- Contracts.VerifyDeployedCode: `int(x, 16)` also accepts a sign, spaces and a `0x` prefix. The model reads plain hexadecimal digits only, and treats the rest as ValueError.
- Contracts.Markers: the regex is modelled by a scanner for `_{1,}[^_]*_{1,}`. Its greedy backtracking over a run of underscores without a later underscore is written out rather than derived from a regex engine.
- Contracts.DeployedContract.BindMethods: `build_function_signature`, `_get_method_object` (a call or a transaction) and natspec are not modelled. A bound method is its ABI entry.
- The gas strategies, the caching middleware, the MythX client, the loaders, the CLI and the console are not part of this model.

## Findings

| source | as written | input that shows it | evidently intended | confidence | as-written member | corrected member |
|---|---|---|---|---|---|---|
| brownie/test/coverage.py:101-107 | a function never reached in the first file is stored as `{'pct': 0}`, without sets; a later partial result for it reaches `f['true'] += c['true']` | first file `{'pct': 0}`, second file `{'pct': 0.5, 'tx': [0], 'true': [], 'false': []}`: KeyError on `'true'` | a function unreached so far takes the incoming evaluation | not executed | CoverageMerge.UnreachedThenPartialFails | CoverageMerge.MergeFn |
| brownie/network/state.py:242-254 | `redo(num)` calls `self._redo_buffer[-1]` on every pass while holding `_undo_lock`; `_add_to_undo_buffer`, the only code that pops the redo buffer, needs the same lock, so the same top call is made `num` times | redo buffer `[a, b]` with `a != b`, `redo(2)`: `b` is called twice and `a` never (`RedoAsWrittenDiffers`, `RedoAsWrittenLosesBuffer`) | the top `num` undone calls are replayed, latest first | not executed | ChainState.Chain.RedoAsWritten | ChainState.Chain.Redo |
