# Genome reassembly editor: a Dafny model

This project models the core of percival's browser tool for reassembling a
genome from a Hi-C contact map (`script.js`, class `GenomeReassemblyTool`).
The tool shows a square contact matrix in a current bin order. The user
selects one or two regions of bins with the mouse and applies one of five
edits to the order: move, swap, invert, delete or duplicate. Each edit is
meant to be followed by three steps:

- recompute the contact-decay curve P(s), the mean contact at each distance;
- fit a power-law exponent to that curve with a random two-point search;
- record the new state in an undo history of at most 50 entries.

As written, the program does not always complete them. A deletion makes
the P(s) loop throw before anything is recorded. An edit that leaves two
or fewer fit points keeps the previous analysis, and the score is computed from it. Both are
described under "## Findings". The editor class here follows the
corrected analysis, and the as-written behaviour is modelled beside it.

The tool also reads FASTA text and writes the reassembled FASTA back with
80-column lines.

Modules, one per part of the program:

- `JsArrays` (`js_arrays.dfy`): the JavaScript array operations the edits
  are built from. These are `slice`, `splice` and `reverse`, with their
  clamping of out-of-range and negative indices.
- `BinOrder` (`bin_order.dfy`): the five edits, as the source composes
  them from those operations. Lemmas give each edit's closed form and
  what it does to the multiset of bins.
- `History` (`history.dfy`): `saveToHistory` as a function of the entry
  list and its cursor. It drops the redo branch, appends and keeps the
  newest 50.
- `Decay` (`decay.dfy`): `calculatePsDistribution`. This covers the
  distance buckets (a method with its loops), the curve, the fit
  candidates, and the fit search (a method) proved against a reference
  function.
- `Selections` (`selections.dfy`): tools, the selection record,
  `normalizeSelection`.
- `Fasta` (`fasta.dfy`): `parseFasta` (a method proved against a
  line-by-line function), the 80-column wrapping of `exportFasta` (a
  method), and the round trip of an export through the parser.
- `BinMap` (`bin_map.dfy`): the bin ids `parseMatrixFormat` gives to the
  three synthetic chromosomes.
- `Reassembly` (`reassembly.dfy`): the editor object as a class. Its
  fields are the current order, its analysis and score, the history and
  cursor, the tool, the two selections, the step, the drag flag and
  whether the confirm controls are shown. Its methods are the constructor
  with `processData`, the history, the mouse handlers, tool selection,
  `resetOperation`, `confirmOperation` and the five perform methods.
- `Wrappers` (`wrappers.dfy`): `Option` and `Result`.

Some inputs come from outside the model and are passed in as a `Measure`:

- `Math.log`, as a function assumed strictly increasing;
- the 200 values of `Math.random()` one fit draws, in [0, 1);
- the composite score `calculateScore` returns when there is an analysis.

The class invariant `Valid` says these things:

- the matrix is square;
- the current order and every stored order name bins of the matrix;
- the history entry under the cursor shows the current order;
- the analysis on record is that of the current order, under the corrected analysis of "## Findings";
- the selection steps are consistent with the tool.

## Model

| member | source | states |
|---|---|---|
| JsArrays.Resolve | script.js:1240-1242 | a relative array index resolves to a position between 0 and the length |
| JsArrays.DeleteCount | script.js:1240 | the count `splice` removes never runs past the end of the array |
| JsArrays.Reverse | script.js:1282 | `reverse` puts element `k` at position `len-1-k` |
| JsArrays.SliceClamped | script.js:1257-1258 | `slice` with out-of-range bounds is the sub-sequence between the clamped bounds, or empty |
| JsArrays.SliceContents | script.js:1257-1258 | a slice takes its elements from the array, no more often than they occur there |
| JsArrays.SpliceAt | script.js:1240-1242 | an in-range `splice` leaves prefix + inserted items + suffix, and returns the removed block |
| JsArrays.SpliceClamped | script.js:1240-1242 | any `splice` is that same shape at the clamped positions |
| JsArrays.SpliceContents | script.js:1240-1242 | the kept and removed parts of a splice hold exactly the old elements plus the inserted ones |
| JsArrays.SpliceRemovesSlice | script.js:1240 | the block `splice` removes is the `slice` over the same range |
| JsArrays.SpliceRearranged | script.js:1282-1283 | splicing a region back in with a rearrangement of itself keeps the length and the multiset of the array |
| JsArrays.ReverseContents | script.js:1282 | reversing keeps the multiset of the elements |
| JsArrays.ReverseReverse | script.js:1282 | reversing twice gives the original |
| BinOrder.Move | script.js:1233-1249 | a move always permutes the order: same length, same multiset of bins |
| BinOrder.InsertPos | script.js:1241 | the reinsertion point is the target when moving left (or for an empty block), and otherwise lies between `targetX - width` and `targetX` |
| BinOrder.MoveSplices | script.js:1240-1242 | a move is the block cut out and re-inserted at `targetX - width` when moving right, or at `targetX` otherwise |
| BinOrder.MoveBlock | script.js:1233-1249 | moving right leaves the bins between the block and the target, then the block; moving left puts the block at the target; the block lands whole at the insert position |
| BinOrder.Swap | script.js:1251-1274 | a swap only ever contains bins of the old order |
| BinOrder.SwapRegions | script.js:1251-1274 | for disjoint regions the swap is prefix, second region, middle, first region, suffix, and the two branches agree whichever region is selected first |
| BinOrder.SwapPermutes | script.js:1251-1274 | swapping disjoint regions keeps the length and the multiset of bins |
| BinOrder.Invert | script.js:1276-1290 | with a non-negative start and width an inversion permutes the order; it never adds bins |
| BinOrder.InvertClamped | script.js:1276-1290 | an inversion reverses exactly the region clipped to the order's end |
| BinOrder.InvertRegion | script.js:1276-1290 | inside the region position `k` holds the bin from `2x+width-1-k`; outside it nothing moves |
| BinOrder.InvertTwice | script.js:1276-1290 | inverting the same region twice restores the order |
| BinOrder.Delete | script.js:1292-1305 | a deletion keeps a sub-multiset of the bins and never lengthens the order |
| BinOrder.DeleteRegion | script.js:1292-1305 | an in-range deletion is prefix + suffix, `width` shorter, and the removed region makes up the difference |
| BinOrder.Duplicate | script.js:1307-1321 | a duplication keeps every bin and adds only copies of existing bins |
| BinOrder.DuplicateRegion | script.js:1307-1321 | an in-range duplication inserts a copy of the region right after it: `width` longer, and the multiset grows by the region |
| History.Newest | script.js:615-618 | at most 50 entries remain, and over the cap exactly the last 50 |
| History.Record | script.js:594-619 | after saving, the cursor is on the new last entry and the entry is the saved state; the length is `cursor+2` capped at 50; the entries before it are the newest kept entries up to the old cursor, so the redo branch is gone |
| History.RecordIsNewestOfBranch | script.js:594-619 | saving equals keeping the newest 50 of (history up to the cursor, then the new state) |
| History.RecordFirst | script.js:8-9 | saving into the fresh history (empty, index -1) gives the one-entry history with cursor 0 |
| History.UndoAfterRecord | script.js:594-619 | after saving into a non-empty history, the entry one step back is the one that was under the cursor |
| History.RecordAllKeepsNewest | script.js:594-619 | saving several states in a row keeps the newest 50 of the branch followed by all of them |
| Decay.AddRow | script.js:462-472 | one pass of the outer loop adds row `i`'s contacts to each distance's sum and count |
| Decay.Buckets | script.js:459-473 | the buckets cover exactly the distances `0..n-1`; distance `d` holds the sum of the `n-d` contacts at that distance and the count `n-d` |
| Decay.CurveAscending | script.js:475-485 | the curve is strictly ascending in distance and its distances lie in `1..n-1` |
| Decay.CollectCurve | script.js:475-485 | the curve built from the buckets (distance 0 dropped, sorted) is the mean contact at each distance |
| Decay.PsCurve | script.js:454-485 | the curve over the whole current order is the reference curve |
| Decay.CurveAsWritten | script.js:455-464 | with the loop bound at the matrix size, an order shorter than the matrix fails and any other order gives `size-1` points |
| Decay.Candidates | script.js:488-489 | a point is a fit candidate iff its mean is positive and its distance is over 1 and under 0.8 of the size; the filter keeps ascending order |
| Decay.ShortOrdersNeverFit | script.js:488-495 | an order of four or fewer bins never has more than two fit candidates |
| Decay.LogPoints | script.js:490-493 | each candidate maps to (log s, log P) |
| Decay.LogPointsDistinct | script.js:488-493 | under an increasing logarithm the candidates' x-values are pairwise distinct, so every slope is defined |
| Decay.PickInRange | script.js:502-503 | `Math.floor(u * len)` for `u` in [0, 1) is a valid index |
| Decay.Indices | script.js:500-503 | iteration `k` picks the indices `floor(u * len)` of its two draws, and both are valid positions |
| Decay.CountInliers | script.js:511-517 | the inlier count is at most the number of points |
| Decay.InlierByError | script.js:513-515 | a point is an inlier iff its absolute error from the line is below 0.5 |
| Decay.CountNear | script.js:511-517 | the `forEach` counts exactly the inliers |
| Decay.BestFit | script.js:497-523 | the reference result of the search is the sentinel `(-1, 0)` or a line with at least 2 inliers |
| Decay.SelectAlpha | script.js:497-523 | the 100-iteration search returns the reference best fit |
| Decay.OneInlier | script.js:513-517 | one inlier point makes the count at least 1 |
| Decay.TwoInliers | script.js:513-517 | two distinct inlier points make the count at least 2 |
| Decay.LineThrough | script.js:507-510 | the line with the computed slope and intercept passes through both sampled points |
| Decay.TrialSupport | script.js:502-517 | a trial is skipped iff the two indices coincide; otherwise its line has at least 2 inliers |
| Decay.BestFitDominates | script.js:497-523 | no trial has more inliers than the chosen fit |
| Decay.BestFitIsFirstBest | script.js:519-522 | the chosen fit is the sentinel `(-1, 0)` or the first trial that reached the best count (strict `>`) |
| Decay.SentinelIffNoPair | script.js:497-523 | the exponent stays at the sentinel -1 iff every draw picked the same index twice |
| Decay.Analyze | script.js:489-525 | there is an analysis iff more than two candidates exist, and then it carries the whole curve |
| Decay.AnalyzeAsWritten | script.js:497-525 | as written, with at most two candidates the previous analysis is kept |
| Decay.Distribution | script.js:454-526 | the analysis of the current order is the reference analysis of its curve |
| Selections.Normalize | script.js:1086-1098 | the ends are kept; the rectangle's x-span is exactly the bins between `startX` and `endX`, the y-span likewise; width and height are at least 1 |
| Selections.NormalizeSymmetric | script.js:1086-1098 | swapping the two ends of a drag gives the same rectangle |
| Selections.NormalizeIdempotent | script.js:1086-1098 | normalising a selection a second time changes nothing |
| Selections.ClickSelectsOneBin | script.js:1086-1098 | a click without a drag selects the one bin under the pointer |
| Fasta.TrimStart | script.js:219 | trimming removes exactly the leading white space |
| Fasta.TrimEnd | script.js:219 | trimming removes exactly the trailing white space |
| Fasta.FirstWord | script.js:224 | the header name is the longest leading run without white space |
| Fasta.Lines | script.js:218 | `split('\n')` gives at least one piece, none holds a line feed, and joining them with line feeds gives the text back |
| Fasta.LinesOfJoin | script.js:218 | splitting lines joined with line feeds gives those lines back |
| Fasta.StepNamed | script.js:218-229 | one line keeps the state well named: the current header has no white space and every stored record is under a non-empty word |
| Fasta.RunNamed | script.js:218-229 | reading any sequence of lines keeps the state well named |
| Fasta.Parse | script.js:213-236 | every record is stored under a non-empty header word without white space (`if (currentHeader)`, `split(/\s+/)[0]`) |
| Fasta.ParseFasta | script.js:213-236 | the `forEach` loop computes the line-by-line parse of the text |
| Fasta.PreambleDropped | script.js:218-229 | lines before the first header produce no record |
| Fasta.CommentsDropped | script.js:218-229 | comment lines (starting with `;`) before any header leave the parse empty |
| Fasta.ReadRecord | script.js:218-229 | a header line then the wrapped sequence sets the header and collects exactly the wrapped lines |
| Fasta.Wrap | script.js:1392-1394 | the chunks concatenate to the sequence; each holds 1 to 80 characters and all but the last exactly 80 |
| Fasta.WrapUnique | script.js:1392-1394 | any chunking with those properties is the wrapping |
| Fasta.WrapSequence | script.js:1392-1394 | the `for` loop with step 80 produces the wrapping |
| Fasta.ReadBack | script.js:213-236 | parsing comment lines then exported records gives each sequence under its renamed header |
| Fasta.ExportRoundTrip | script.js:1380-1397 | parsing an exported file gives back every sequence under `<header>_reassembled` |
| BinMap.RunLength | script.js:262 | the chromosome length is `ceil(size / 3)` |
| BinMap.RunOf | script.js:266-273 | row `j` belongs to the chromosome run `i` with `i*len <= j < (i+1)*len` |
| BinMap.AssignBins | script.js:264-275 | there are exactly `size` keys; row `j`'s key maps to `j`; every key maps to a row whose key it is |
| BinMap.AssignRun | script.js:266-273 | one chromosome's loop numbers its rows consecutively from `start` to `end` |
| BinMap.ChromosomeOfRow | script.js:264-275 | row `j` is on chromosome `i` iff it lies in the `i`th run of `ceil(size/3)` rows |
| Reassembly.Identity | script.js:434 | the initial order puts bin `k` at position `k` |
| Reassembly.EditOf | script.js:1202-1224 | the confirmed tool changes the order iff it is move or swap with both regions, or invert, delete or duplicate with a region; a move permutes, a deletion never lengthens and a duplication never shortens the order |
| Reassembly.SecondRegionOnlyForTwoSelectionTools | script.js:995-997 | the tools `requiresTwoSelections` names are exactly those whose edit needs the second region: without it move and swap do nothing, and every other tool ignores it |
| Reassembly.DeletionBreaksCurve | script.js:1292-1305 | after deleting bins from a full order, the order still names bins of the matrix, but the as-written P(s) loop fails on it |
| Reassembly.DuplicationIgnoredByCurve | script.js:1307-1321 | after a duplication, the as-written curve has `size-1` points while the order spans `size+width-1` distances |
| Reassembly.IdentityCandidates | script.js:488-489 | the identity order of the 6-bin witness map has three fit candidates |
| Reassembly.SwappedCandidates | script.js:488-489 | with bins 0 and 5 traded the witness map has two fit candidates |
| Reassembly.StaleAnalysisAfterSwap | script.js:489-525 | on the witness map the identity order is fitted; after swapping bins 0 and 5 the as-written curve is computed, the as-written fitting keeps the old analysis, and the corrected one gives none |
| Reassembly.ReassemblyTool.constructor | script.js:1-14 | a fresh editor on a loaded map is valid, shows the identity order with its analysis and score, holds that state as its only history entry, and has the select tool with no selection |
| Reassembly.ReassemblyTool.ProcessData | script.js:420-447 | the order becomes the identity; it is analysed and scored, then saved to the history |
| Reassembly.ReassemblyTool.Refresh | script.js:439-440 | the analysis and score are those of the current order |
| Reassembly.ReassemblyTool.SaveToHistory | script.js:594-619 | the history becomes `Record(old history, old cursor, current state)`; the cursor shows the current order, and the previous current entry is one undo step back |
| Reassembly.ReassemblyTool.Commit | script.js:1244-1246 | analyse, score and record the current order |
| Reassembly.ReassemblyTool.LoadFromHistory | script.js:651-662 | an out-of-range index changes nothing; otherwise the stored order becomes current and is analysed anew, the cursor moves to the index, and the list is untouched |
| Reassembly.ReassemblyTool.MouseDown | script.js:942-993 | a press starts a drag anchored at the pressed bin: the second region in step 1, the first region otherwise |
| Reassembly.ReassemblyTool.MouseMove | script.js:1041-1050 | while dragging, the end of the region being chosen follows the pointer; otherwise nothing changes |
| Reassembly.ReassemblyTool.MouseUp | script.js:1053-1081 | ending a drag normalises the region it chose; a two-region tool goes to step 1, or shows the controls if already there; a one-region tool shows them; without a drag nothing changes |
| Reassembly.ReassemblyTool.ResetOperation | script.js:1104-1112 | no selection, step 0, controls hidden, and the editor still valid |
| Reassembly.ReassemblyTool.SelectTool | script.js:96-101 | the chosen tool is selected and the operation reset |
| Reassembly.ReassemblyTool.Install | script.js:1233-1321 | the new order becomes current, analysed, scored and recorded, with the old order one undo step back |
| Reassembly.ReassemblyTool.PerformMove | script.js:1233-1249 | without both regions nothing changes; otherwise the moved order is installed |
| Reassembly.ReassemblyTool.PerformSwap | script.js:1251-1274 | without both regions nothing changes; otherwise the swapped order is installed |
| Reassembly.ReassemblyTool.PerformInversion | script.js:1276-1290 | without a region nothing changes; otherwise the inverted order is installed |
| Reassembly.ReassemblyTool.PerformDeletion | script.js:1292-1305 | without a region nothing changes; otherwise the shortened order is installed |
| Reassembly.ReassemblyTool.PerformDuplication | script.js:1307-1321 | without a region nothing changes; otherwise the lengthened order is installed |
| Reassembly.ReassemblyTool.Dispatch | script.js:1202-1224 | the selected tool's edit is applied; split, fuse and select change nothing |
| Reassembly.ReassemblyTool.ConfirmOperation | script.js:1201-1227 | the selected tool's edit is applied and recorded, with the previous order one undo step back, or nothing changes for split, fuse, select or a missing region; then the operation is reset and the editor is still valid |
| Reassembly.RecordKeepsIds | script.js:594-619 | saving an order that names bins of the matrix keeps every stored order naming bins of the matrix |

## Left out

- Rendering, the DOM, events, the hover panel (`handleMouseMove` apart from its drag part), file reading and downloading, and the loading overlay. These are I/O.
- Floating point: contacts, means and the fit are real numbers. `Math.log` is an increasing function parameter. `Math.random()` draws are a parameter sequence of values in [0, 1).
- `Decay.Fittable` states `s < size * 0.8` as `5 * s < 4 * size`. That is exact on reals, and ignores the rounding of `0.8`.
- Reassembly.ScoreOf: the composite of `calculateScore` (exponent score, R², diagonal enrichment) is not computed. It is a parameter used whenever there is an analysis. The model keeps only its zero when there is none.
- History entries keep the order, score and exponent. The description and timestamp are left out (clock and display text).
- Reassembly.ReassemblyTool.ConfirmOperation: requires every present selection to be normalised. The source allows a confirm after a drag whose mouse-up was lost, and the model does not cover that case.
- Reassembly.ReassemblyTool.MouseDown: the conversion from canvas pixels to a bin is not modelled. The bin under the pointer is a parameter, and, as in the source, it is not checked against the matrix.
- `cancelOperation` (script.js:1229-1231) is `resetOperation`. `Reassembly.ReassemblyTool.ResetOperation` models both. Its extra UI work (`updateRegionInfo`) is display.
- `performSplit` and `performFusion` (script.js:1323-1335) only raise an alert. `EditOf` maps them to no change.
- `pendingOperation` is set in the constructor and never read, so it is not a field.
- The guards on a missing contact map or `currentState` are not modelled. The editor exists only after a map is loaded.
- Reassembly.ReassemblyTool.ProcessData: one editor instance sees one matrix (`matrix` is a constant). The program can load a different map and run `processData` again from its button (script.js:91). It keeps the history across that reload (it is reset only at script.js:8-9), so `loadFromHistory` can later restore an order naming bins of the old map. The model does not capture this. `Valid`'s claim that every stored order names bins of the matrix depends on the matrix never changing.
- Reassembly.ReassemblyTool.Refresh, Commit, Install, LoadFromHistory, PerformMove, PerformSwap, PerformInversion, PerformDeletion, PerformDuplication, Dispatch, ConfirmOperation and the invariant `Valid`: these follow the corrected analysis (`Decay.Distribution`, `Decay.Analyze`) of "## Findings". In the program, deleting bins throws inside `calculatePsDistribution` (script.js:464), after the splice (script.js:1298) and before `saveToHistory` (script.js:1302) and `resetOperation` (script.js:1226). An edit that leaves two or fewer fit points keeps the previous analysis, and the score is computed from it. That as-written behaviour is modelled only by `Decay.CurveAsWritten` and `Decay.AnalyzeAsWritten`, and by the lemmas `Reassembly.DeletionBreaksCurve` and `Reassembly.StaleAnalysisAfterSwap`.
- `parseBedFormat`, `isSquareMatrix`, `parseFloat` of matrix cells and `processContactMapData` are not part of this model. The matrix arrives as a square matrix of reals.
- BinMap.AssignBins: a key is kept as the three parts of `chr:start-end` (the chromosome, `j * binSize` and `(j + 1) * binSize`) rather than as the formatted text. Different parts always give different text, so keys are equal exactly when the text would be.
- Fasta.ParseFasta: the result is a map, and JavaScript's key order of the object is not modelled. The program stores records in a plain object, so a record whose header is `__proto__` is silently dropped (the assignment only sets the prototype). `Fasta.Parse` stores it like any other.
- Strings are sequences of characters: UTF-16 surrogate pairs and Unicode white space beyond the listed characters are not modelled.
- Fasta.ExportRoundTrip: is proved for headers without white space and for sequences with neither white space nor `>`. The parser has no comment syntax after a header, so a `;` in a sequence is read back as sequence. What actually breaks the trip is an 80-character chunk that starts with `>` or has white space at either end, because `trim()` removes it. The lemma's condition is stronger than that.
- The exported score is its `toFixed(2)` text, taken as a parameter.

## Findings

| source | as written | input that shows it | evidently intended | confidence | as-written member | corrected member |
|---|---|---|---|---|---|---|
| script.js:457-464 | the P(s) loop runs to `matrix.length`, not to the length of the bin order | deleting any region: `order[i]` is then undefined for the last `i`, and `matrix[undefined][…]` throws a TypeError, so the edit is applied but never analysed or recorded. After duplicating a region, the extra positions are never read | loop over the positions of the current order | high; not executed | Decay.CurveAsWritten, Reassembly.DeletionBreaksCurve, Reassembly.DuplicationIgnoredByCurve | Decay.PsCurve, Decay.Distribution |
| script.js:489-525 | when at most two points pass the filter, `psData` is not assigned, so the previous order's analysis stays in place and the score is computed from it | a symmetric 6-bin map whose only off-diagonal contacts link bin 0 with bins 2, 3 and 4: the identity order has three candidates (distances 2, 3, 4) and is fitted; swapping bins 0 and 5 leaves two candidates (distances 2 and 3), yet the identity order's curve and exponent stay in `psData`, and `calculateScore` scores the new order from them instead of giving 0 | clear the analysis, so the score drops to 0 as `calculateScore` does for a missing analysis | medium; not executed | Decay.AnalyzeAsWritten, Reassembly.StaleAnalysisAfterSwap | Decay.Analyze |
