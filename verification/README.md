# Crossword grid constraint engine, modelled in Dafny

The engine decides, for every cell of a crossword grid, whether the cell is a
letter or a block and where definition arrows start. It has four parts, and
the model has one or more modules for each:

- **Cell** (`Cells`, in `cell.dfy`). A cell has eight candidate flags:
  `isLetter`, `isBlock`, and two three-way arrow groups (bottom:
  down/across/none; right: down/across/none). It also has twelve measured
  quantities. Each is a natural number or JavaScript `Infinity`, modelled
  as `Base.ExtNat`. Setters notify the grid only when a value actually
  changes. The cell also has derived predicates (`typeError`, `typeFixed`,
  the arrow error/fixed tests) and the `entropy` heuristic.
- **Grid** (`Grids`, `Scans`, `Measuring`, `Solving` and `Search`). The grid
  is an immutable value. It holds the settings, the cell columns, the queue
  of updated cells (a duplicate-free sequence, because the source iterates a
  JavaScript `Set` in insertion order), the backtrack counts and the
  `updated` flag. `measure()` recomputes all measured quantities. It is
  modelled as a fold over the exact sequence of writes the source makes, so
  the queue gets the same insertion order. `solve()` is the fixpoint loop
  over the queue. `collapse()` is the depth-first search that commits one
  undecided cell to letter or block. It restores a snapshot and tries the
  other type when the first choice fails.
- **Rules** (`Rules`, in `rules.dfy`). These are the twelve narrowing rules,
  applied in order to one cell. Every rule only ever clears flags. The
  invariant `Rules.Narrows` says that: the measures are untouched, no flag is
  ever raised, and a grid that changed has strictly fewer true flags and
  `updated` set. This invariant is what makes `solve` terminate.
- **Word filler** (`Words`, in `words.dfy`). `collapseWords` narrows the
  character set of each position of a run. Each position keeps only the
  characters that occur there in a dictionary word of the run's length that
  fits every position.

Design choices:

- `Math.random()` becomes the parameter `draws: nat -> real`. `collapse`
  threads a draw counter through the recursion.
- The dictionary becomes the parameter `Words.Dictionary`. It maps each word
  length to the sequence of words that `for..in` enumerates under that
  length.
- `render()` is awaited but has no effect on the grid, so the model leaves it
  out.
- The cell read through a `Cell` reference in the source is read at its
  coordinates in the model.

`measure()` uses a sliding window of width `min(width, maxWordLength)` for
the vertical pass as well as the horizontal one. The model keeps that width
(`Config.WindowWidth`).

Rule 7 reads the neighbour below (or to the right) with a non-null
assertion. When the cell sits on the last row (column) with its bottom
(right) arrow group fixed to no arrow at all but `none` cleared, that
neighbour is `null` and the rule throws a `TypeError`. The model keeps the
throw as `Rules.Step.Threw`. It surfaces as `Solving.Verdict.Thrown` from
`solve` and `Search.Result.Raised` from `collapse`.

## Model

| member | source | states |
|---|---|---|
| Config.WindowWidth | src/Grid.ts:97-100 | the window width is at least 2, is `min(width, maxWordLength)`, and is the width (not the height) for both passes |
| Cells.NewCell | src/Cell.ts:25-36 | a new cell has every flag raised except `arrowBottomAcross` off column 0 and `arrowRightDown` off row 0, and the initial measures |
| Cells.SetFlag | src/Cell.ts:182-236 | a flag setter notifies exactly when the value changes; afterwards the flag has the new value and every other flag, measure and coordinate is unchanged |
| Cells.SetMeasure | src/Cell.ts:238-320 | a measure setter notifies exactly when the value changes; only that measure changes |
| Cells.NumberOfArrows | src/Cell.ts:49-56 | the count is at most 4, and it is 0 exactly when all four direction arrows are cleared |
| Cells.NumberOfDefinitions | src/Cell.ts:58-60 | the sum is 0 exactly when both definition counts are 0, and `Infinity` when either is |
| Cells.Ratio | src/Cell.ts:40-41 | `min(1, x / size)` and its complement stay within [0, 1] |
| Cells.Entropy | src/Cell.ts:38-47 | entropy lies in [0, 1] and is 0 at the top-left cell |
| Cells.TypePredicates | src/Cell.ts:62-64 | a type error implies the type is fixed; the type is fixed exactly when one of `isLetter`/`isBlock` is cleared |
| Cells.ArrowPredicates | src/Cell.ts:66-96 | an arrow group is fixed exactly when no two of its three flags are both set; an arrow error implies the group is fixed |
| Cells.ArrowsIgnoreOtherFlags | src/Cell.ts:49-56 | writing a `none` or type flag leaves the arrow count unchanged |
| Grids.Lookup | src/Grid.ts:47-54 | `cell(x, y)` returns a cell exactly for in-grid coordinates, and then the cell at those coordinates |
| Grids.Notify | src/Grid.ts:20-23 | a cell's update callback raises `updated` and queues the cell exactly once, keeping the queue duplicate-free; cells, settings and backtrack counts are untouched |
| Grids.AddDirty | src/Grid.ts:20-23 | adding to the updated-cells set keeps it duplicate-free, adds exactly the new position, and leaves it unchanged when the position is already queued |
| Grids.SetFlagAt | src/Grid.ts:56-82 | a flag write outside the grid is a no-op; inside, it changes only that cell, and it queues the cell and sets `updated` exactly when the value changes |
| Grids.SetMeasureAt | src/Grid.ts:56-82 | the same for the two measures `setCellProp` can write |
| Grids.SetCellProp | src/Grid.ts:56-82 | the grid stays well formed; the result equals the input exactly when the position is outside the grid or the value is already current; otherwise only the addressed field of the addressed cell changes, and the cell is queued |
| Grids.Clear | src/Cell.ts:182-236 | clearing a flag through its setter narrows the grid and touches no other cell |
| Grids.FlattenMembers | src/Grid.ts:84-94 | a cell is in the flattened column list exactly when it is at some column and row |
| Grids.CellsOfGrid | src/Grid.ts:84-94 | a cell is in `cells` exactly when it is the cell at some in-grid position |
| Grids.FreshCells | src/Grid.ts:15-28 | the constructor's nested loop builds a grid of `width` columns of `height` fresh cells at their own coordinates |
| Grids.ClearFirstRow | src/Grid.ts:31-33 | after the first loop, every row-0 cell has `arrowRightAcross` cleared and nothing else changed |
| Grids.ClearFirstColumn | src/Grid.ts:34-36 | after the second loop, every column-0 cell has `arrowBottomDown` cleared and nothing else changed |
| Grids.NewGrid | src/Grid.ts:11-39 | a new grid is well formed with an empty queue and no backtrack counts; without `allowWordsAlongFirstRowColumn` exactly the row-0 across and column-0 down arrows are cleared beyond the fresh-cell flags |
| Scans.ScanRuns | src/Grid.ts:133-137 | the letters and fixed-letters counters are the lengths of the letter (non-block letter) runs ending just before the position |
| Scans.RunFromCounts | src/Grid.ts:153-165 | the backward counter is the length of the letter run starting at the position |
| Scans.WindowBefore | src/Grid.ts:107-121 | the shifted window holds, at offset k, the definitions starting k+1 cells back, within the current letter run and the window width |
| Scans.WrittenDefs | src/Grid.ts:126-131 | the definition count written is the sum of the definitions that start within the window and the current run |
| Scans.ScanClosestFinite | src/Grid.ts:116-148 | while the window holds a definition, the closest-definition distance is finite, and it is 0 right after a cell whose own arrow starts a word |
| Scans.WrittenClosestInfinite | src/Grid.ts:128-129 | the distance written is `Infinity` exactly when the definition count written is 0 |
| Scans.EnterClosest | src/Grid.ts:116-148 | inside the loop the closest-definition distance is the distance back to the latest definition start (a word entering from the side or the previous cell's arrow) with only letters in between, and `Infinity` when the current letter run holds no start |
| Scans.WrittenClosest | src/Grid.ts:116-148 | the distance written is `n` exactly when definitions are counted there and the latest definition start of the word reaching the position lies `n` back; it is always below the window's width |
| Measuring.ScheduleKeys | src/Grid.ts:102-231 | the sequence of writes `measure()` makes covers exactly the (cell, quantity) pairs the four passes address |
| Measuring.ApplyMeasures | src/Grid.ts:102-231 | after the writes, a covered quantity holds the value its pass computes from the flags, and an uncovered one keeps its value |
| Measuring.ApplyNotifies | src/Grid.ts:102-231 | the writes only add to the queue, keep it free of repeats, and raise `updated` whenever they change anything |
| Measuring.ApplyIdle | src/Grid.ts:102-231 | when every value is already current, the writes change nothing at all |
| Measuring.ApplyQueuesChanged | src/Cell.ts:238-320 | a cell whose measures the writes change ends up in the queue |
| Measuring.ApplyQueuedChanged | src/Cell.ts:238-320 | a cell the writes add to the queue is one whose measures end up different, since a later write of the same field writes the same value again |
| Measuring.SweptQueues | src/Grid.ts:96-232 | the whole pass adds to the queue exactly the cells whose measures it changes |
| Measuring.MeasureGrid | src/Grid.ts:96-232 | `measure()` keeps every flag; it grows the queue by exactly the cells whose measures changed; it raises `updated` when it changes anything and leaves the grid settled |
| Measuring.MeasureWrites | src/Grid.ts:96-232 | each quantity after `measure()` is the pass's value when covered and the old value otherwise, and the result is up to date |
| Measuring.SettledIsUpToDate | src/Grid.ts:96-232 | a grid is a fixpoint of `measure()` exactly when every covered quantity already holds its computed value |
| Measuring.SettledIsFixed | src/Grid.ts:96-232 | `measure()` on a settled grid changes nothing (no write, no notification) |
| Measuring.MeasureIdempotent | src/Grid.ts:96-232 | measuring twice is measuring once |
| Measuring.MeasureKeepsCount | src/Grid.ts:96-232 | `measure()` neither raises nor clears any flag |
| Measuring.UpToDateAt | src/Grid.ts:96-232 | in an up-to-date grid each covered quantity equals its pass's value |
| Measuring.MeasuredAbove | src/Grid.ts:103-149 | after `measure()`, `lettersTop` and `fixedLettersTop` are the letter and non-block-letter run lengths above the cell |
| Measuring.MeasuredDefsAbove | src/Grid.ts:103-149 | `numberDefinitionsFromTop` is the windowed count of definitions above, and `closestDefinitionFromTop` is `Infinity` exactly when that count is 0 |
| Measuring.MeasuredClosestAbove | src/Grid.ts:103-149 | `closestDefinitionFromTop` is `n` exactly when a definition is within reach and the latest definition of the column's word reaching the cell starts `n` cells up, with only letters in between; `n` is below the window's width |
| Measuring.MeasuredBelow | src/Grid.ts:152-165 | `lettersBottom` is the letter run below the cell, and `lettersRightDown` the run starting at the right neighbour |
| Measuring.MeasuredLeftOf | src/Grid.ts:168-216 | `lettersLeft` and `fixedLettersLeft` are the letter and non-block-letter run lengths to the left |
| Measuring.MeasuredDefsLeftOf | src/Grid.ts:168-216 | `numberDefinitionsFromLeft` is the windowed count of definitions to the left, and `closestDefinitionFromLeft` is `Infinity` exactly when that count is 0 |
| Measuring.MeasuredClosestLeftOf | src/Grid.ts:168-216 | `closestDefinitionFromLeft` is `n` exactly when a definition is within reach and the latest definition of the row's word reaching the cell starts `n` cells to the left, with only letters in between; `n` is below the window's width |
| Measuring.MeasuredRightOf | src/Grid.ts:218-231 | `lettersRight` is the letter run to the right, and `lettersBottomAcross` the run starting at the cell below |
| Rules.ClearLine | src/Rule.ts:96-103 | clearing a flag along a line narrows the grid, clears it exactly at the in-grid cells of the line, and leaves every other cell as it was |
| Rules.Rule1 | src/Rule.ts:11-37 | a run shorter than `minWordLength` clears its arrow; a zero run below (right) clears both bottom (right) direction arrows; `none` flags are untouched; nothing else changes |
| Rules.ShortRuns | src/Rule.ts:12-26 | each of the four direction arrows survives only if its run is not below `minWordLength` |
| Rules.EmptyRuns | src/Rule.ts:28-36 | a zero run clears both arrows of its group |
| Rules.Rule2 | src/Rule.ts:41-45 | with `blockMustHaveDefinition`, a cell with no arrow cannot be a block |
| Rules.Rule3 | src/Rule.ts:49-56 | a cell that cannot be a block loses all four direction arrows |
| Rules.Rule4 | src/Rule.ts:60-72 | a non-letter with exactly one arrow keeps that arrow's group by clearing its `none` |
| Rules.Rule5 | src/Rule.ts:76-80 | a cell with no definition reaching it cannot be a letter |
| Rules.Rule6 | src/Rule.ts:84-88 | a cell with both `none` flags cleared cannot be a letter |
| Rules.Rule7 | src/Rule.ts:92-118 | the rule throws exactly when a settled, non-`none` arrow group points off the grid; otherwise it clears `isBlock` on the `minWordLength` cells the arrow's word covers, and on nothing else |
| Rules.BottomWord | src/Rule.ts:93-104 | the bottom arrow clears `isBlock` along its word and only there |
| Rules.RightWord | src/Rule.ts:106-117 | the right arrow clears `isBlock` along its word and only there |
| Rules.TwoWords | src/Rule.ts:92-118 | the two loops together clear exactly the union of both words |
| Rules.Rule8 | src/Rule.ts:122-129 | a committed block, when blocks cannot touch, clears `isBlock` on exactly its four in-grid neighbours |
| Rules.KeepOnly | src/Rule.ts:147-155 | settling a definition cell clears exactly the two named arrows there and touches no other cell |
| Rules.KeepFirstOf | src/Rule.ts:146-159 | when the first candidate cell holds its expected arrow, only that cell changes, losing the other two flags of the arrow's group; otherwise the second candidate is tried in the same way; when neither holds its arrow, only the cell itself changes, and it stops being a letter |
| Rules.FromTop | src/Rule.ts:146-159 | with the closest definition from the top at distance n, the candidates are the cell n+1 above (keeping bottom-down) and then the cell n above in the column to the left (keeping right-down); at distance `Infinity` there is no candidate and the cell stops being a letter |
| Rules.FromLeft | src/Rule.ts:167-182 | the symmetric statement: the cell n+1 to the left (keeping right-across), then the cell n to the left in the row above (keeping bottom-across) |
| Rules.Rule9 | src/Rule.ts:132-185 | the rule changes nothing unless it fires; it then runs the top case when its condition holds and afterwards the left case, on the grid the top case left, when its condition holds |
| Rules.Rule10 | src/Rule.ts:188-209 | a letter within `maxWordLength` of its closest definition clears `isBlock` on exactly the cells between them |
| Rules.Rule11 | src/Rule.ts:212-226 | a run that already reaches `minWordLength` with its closest definition beyond `maxWordLength` makes the cell not a letter |
| Rules.Rule12 | src/Rule.ts:230-274 | a letter whose run cannot reach `minWordLength` on an axis clears `isBlock` on exactly the cells its extension loops address, on both sides |
| Rules.AlongColumn | src/Rule.ts:236-250 | the vertical loops clear `isBlock` exactly on the addressed cells of the column, not on the cell itself |
| Rules.AlongRow | src/Rule.ts:258-272 | the horizontal loops clear `isBlock` exactly on the addressed cells of the row |
| Rules.ApplyRule | src/Rule.ts:8-276 | every rule narrows the grid, and only rule 7 can throw |
| Solving.RunRules | src/Grid.ts:241-249 | running the rules in order narrows the grid; a full pass with no `break` leaves the grid unchanged with `updated` lowered; a `break` leaves `updated` raised; only a pass that reaches rule 7 can throw |
| Solving.ErrorPersists | src/Grid.ts:251-253 | once a cell has an error, narrowing keeps the error |
| Solving.Remeasure | src/Grid.ts:244-247 | after a `break`, re-measuring and requeueing the cell keeps the flags, leaves the grid settled, and puts the cell in the queue |
| Solving.Pop | src/Grid.ts:238-239 | taking the first queued cell removes exactly that cell from the queue |
| Solving.Visit | src/Grid.ts:238-253 | one turn either continues with a settled grid and a smaller loop measure, or stops with a verdict other than success, naming a cell that has an error |
| Solving.Prepare | src/Grid.ts:235-236 | the initial `measure()` and reset leave a settled grid with `updated` lowered and the flags unchanged |
| Solving.Solve | src/Grid.ts:234-257 | `solve()` terminates; it only clears flags; on `true` the queue is empty, `updated` is lowered and the measures are up to date; on `false` the cell it names has an error. On a settled grid with an empty queue it returns `true` at once, and only `updated` is lowered, so a second call right after a `true` changes nothing |
| Search.LeastEntropyNonFixedCell | src/Grid.ts:259-286 | the result is `null` exactly when every cell is type-fixed; otherwise it is the unique best cell: the first with the most backtracks if any undecided cell has one, else the first with the least entropy |
| Search.PickedCell | src/Grid.ts:318-329 | the chosen cell is at its own coordinates with both type flags still raised |
| Search.RestoreState | src/Grid.ts:295-308 | restoring writes back every cell and the queue and keeps the backtrack counts and `updated` |
| Search.RestoreSaved | src/Grid.ts:288-308 | restoring a saved state gives back the saved grid, except for the backtrack counts and `updated`, which are kept from the current grid |
| Search.SaveState | src/Grid.ts:288-308 | restoring a state just saved changes nothing |
| Search.RecordConflict | src/Grid.ts:345-348 | the cell's backtrack count goes up by one (from 0 when absent), and no other count or cell changes |
| Search.Branch | src/Grid.ts:323-329 | committing the chosen cell clears the chosen type flag there and strictly lowers the number of true flags |
| Search.Retry | src/Grid.ts:333-340 | after restoring, the opposite type flag is cleared and the number of true flags is strictly below the snapshot's |
| Search.Collapse | src/Grid.ts:310-355 | `collapse()` terminates, only clears flags and only raises backtrack counts, and never changes the count of a cell whose type was already decided; on success every cell is type-fixed, the queue is empty and the measures are up to date |
| Search.Explore | src/Grid.ts:318-352 | the branch step keeps those guarantees, and a failure of both choices raises the chosen cell's backtrack count by exactly one |
| Search.Fallback | src/Grid.ts:333-350 | the second choice keeps those guarantees, and a double failure records exactly one more backtrack for the cell, since the nested search never picks a cell whose type is decided |
| Words.NarrowedMembers | src/words.ts:10-13 | a character is in a position's result exactly when some fitting word has it there |
| Words.Gather | src/words.ts:5-14 | the first loop collects, at each position, exactly the characters fitting words have there |
| Words.WriteBack | src/words.ts:16-27 | the second loop writes every set when none is empty; it throws at the first empty set after writing the earlier ones; `updated` is true exactly when some size changed |
| Words.CollapseWords | src/words.ts:4-30 | each position's new set is the reference narrowing (a subset of the old one); the function throws exactly when the run is non-empty and no word fits, and then at position 0 with nothing written; it returns true exactly when some set changed. A length the dictionary lacks has no words, so such a run throws unless it is empty |
| Words.NarrowedIsGathered | src/words.ts:10-13 | what the loop collects is the reference narrowing |
| Words.AllOrNothing | src/words.ts:11-12 | the narrowed sets are all non-empty when a word fits and all empty when none does |
| Words.ChangedIffResized | src/words.ts:17-21 | for a narrowing, a size change at some position is the same as the sets differing |
| Words.FitsNarrowed | src/words.ts:11 | a word fits the narrowed sets exactly when it fits the original ones |
| Words.NarrowIdempotent | src/words.ts:4-30 | narrowing again gives the same sets, so a second call returns false and changes nothing |

## Left out

- Solving.Solve: states that the result is settled (`Measuring.Settled`, a fixpoint of `measure()`), not the per-quantity formula. `Measuring.SettledIsUpToDate` shows the two are equivalent.
- Search.Collapse: does not state that a failure means no solution exists. The source's search is incomplete: it only branches on cell type and never on arrows.
- Search.LeastEntropyNonFixedCell: entropy is computed on exact reals, not IEEE doubles. Two cells with equal exact entropy could compare differently in floating point.
- Search.RestoreState: models the snapshot as a value copy. The source goes through `JSON.stringify`/`JSON.parse`, which turns every `Infinity` measure into `null`. The following `measure()` rewrites most of those fields and queues the affected cells, so the source's queue after a restore can be longer than the model's. Two fields are never rewritten, because no pass writes them: `lettersRightDown` on the last column and `lettersBottomAcross` on the last row. They stay `null` for the rest of the search, and rule 1 (src/Rule.ts:20,24) then reads `null < minWordLength` as true, where the model reads `Infinity` as false. The flags still come out the same. On the last column `lettersRight` is 0, so src/Rule.ts:33-36 clears the same right arrows in the same call. On the last row `lettersBottom` is 0, so src/Rule.ts:28-31 clears the same bottom arrows.
- Rendering: `render()` and the `await`s in `collapse()` have no effect on the grid.
- Randomness: `Math.random()` is the `draws` parameter.
- Settings: `allLettersMustBeConnected`, `maxBlockIslandSize` and `animation` are read by no rule. They appear only in `Config.Settings` and its schema bounds.
- UI: the React components, the settings form, the modals and `wasUpdated()` as seen from the UI are not modelled. `wasUpdated()` is folded into `Solving.RunRules`.
- Word dictionary: `nytcrosswords.json` is not part of this model. Its shape is assumed to map each length to the words `for..in` enumerates.
- Word filler cells: the model works on character sets per position. The `letters` field it reads is not declared on `Cell`.
- Text: words are sequences of Dafny `char` (Unicode scalar values), while `word[i]` in JavaScript indexes UTF-16 code units. The two agree on an ASCII dictionary.
- Error objects: the `TypeError` of rule 7 and the `Error` of `collapseWords` are modelled as result variants, without their message or stack.
