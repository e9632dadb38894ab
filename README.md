# A verified model of the solve_arc synthesis engine

solve_arc searches for a program that maps the input grid of every example
pair (a *constraint*) of an ARC task to its output grid. A program is a graph
of nodes over one *source* node. Every node carries one value per constraint,
and two nodes are the same node when their values are equal. The searches
grow a pool of such nodes by applying grid operations to existing ones. They
stop when a node's value is the tuple of target grids, and the found program
is then replayed on a new input. A second, recursive solver in
`state_tree_solver` tries parameterized operations depth first. The Kaggle
modules write the found grids into the submission format.

The Dafny modules follow the repository's files:

- Grid values and operations:
  - `Arguments`: grids `seq<seq<int>>`, selections `seq<seq<bool>>`, their text form, `used_colors`, `from_indices`, `Grids`/`Selections`.
  - `Logic`, `Color`, `Symmetry`, `Selection`, `Segmentation`, `Compositions`: the operations of `language/`.
  - `Text`: words, joins and decimal numbers for the text forms.
  - `Wrappers`: `Option` and `Result`.
- The recursive solver:
  - `Argument`: the unwrapping of `state_tree_solver/argument.py` and its decorators.
  - `Parameterize`: the operations the solver tries on an argument.
  - `TreeSearch`: programs, `chain` and the depth-first search.
- The function graph:
  - `Vectorize`: tuples, `repeat` and `repeat_once` as one `Iter` datatype, and the `zip` of `vectorize`.
  - `Nodes`: the `Function`/`Constant` node class with its value and depth caches. A ghost counter records how often each callable has run.
  - `Values`: the value of one position, value tuples and the shape helpers of `full_search.py`.
  - `Terms`: a node's program as a term, and its value over a source tuple.
  - `Programs`: building node objects for a term, and their uncached value.
  - `Collections`: the typed index of `node_collection.py`.
- The searches:
  - `FullSearch`: the breadth-first search of `full_search.py` with its generators and their heuristics.
  - `FunctionGeneration`: the graph and generators of `function_generation.py`.
  - `SamplingSearch`: the round-based search of `sampling_search.py`.
  - `FunctionSampling`: the random expansion graph of `function_sampling.py`.
  - `Solver`: the entry point `solve`, `Solution` and `branching_factor` of `solver.py`.
- The Kaggle output:
  - `KaggleFormat`: the shared `format_grid` and a reader for it.
  - `Submission`: `format_results` of `kaggle/submission.py`.
  - `KaggleDataset`: `format_results` of `dataset/kaggle.py`, which pads every result to three attempts.

Node equality is by value, so a pool of nodes is modelled as a map from a
value tuple to the term of the node that holds it. What each operation
computes is the parameter `sem`. Many of the operations the generators name
live in files outside this model. The node class of `nodes.py` is modelled
as a class with mutable caches. `Programs.Build` connects it to terms: it
builds node objects for a term and proves that their uncached value is the
term's value. Random draws are nondeterministic choices. The likelihood
weights, logging, file I/O and timeouts are not modelled.

Where the code and its tests or docstrings disagree, the model follows the
code:

- `kaggle/submission.py` does not pad results to three attempts, although
  its test expects padding.


## Model

| member | source | states |
|---|---|---|
| Arguments.FromRows | solve_arc/language/arguments.py:20-23 | a list of lists becomes a grid or selection exactly when it is a non-empty rectangle of non-empty rows, and then holds those rows |
| Arguments.Filled | solve_arc/language/arguments.py:86-88 | `Grid.filled(shape, color)` is rectangular with the given height and width and every cell is the colour |
| Arguments.EmptyMask | solve_arc/language/arguments.py:108-110 | `Selection.empty(shape)` has the given shape and no cell set |
| Arguments.GridEquality | solve_arc/language/arguments.py:58-63 | two grids are equal exactly when their shapes and all their cells agree |
| Arguments.ClassesDiffer | solve_arc/language/arguments.py:62-63 | a grid never equals a selection, since their equality compares the class; a one-item `Grids` never equals a one-item `Selections`, because their tuple equality (line 139) compares the items |
| Arguments.NonBlank | solve_arc/language/arguments.py:135-136 | `filtered_elements` drops the blank lines: every row of tokens it yields is non-empty |
| Arguments.RenderRoundTrip | solve_arc/language/arguments.py:65-68 | rows joined by newlines and cells by spaces read back to the same state for any cell format that survives text |
| Arguments.GridRoundTrip | solve_arc/language/arguments.py:90-93 | `Grid.from_string(str(g)) == g` for every proper grid |
| Arguments.MaskRoundTrip | solve_arc/language/arguments.py:122-132 | `Selection.from_string(str(m)) == m`, with `#` for set and `.` for unset cells |
| Arguments.BlankTextIsNoGrid | solve_arc/language/arguments.py:90-93 | text made only of whitespace gives no grid (the constructor's 2-D assertion fails) |
| Arguments.UsedColors | solve_arc/language/arguments.py:95-97 | `used_colors` is strictly increasing and holds exactly the colours occurring in the grid |
| Arguments.IncreasingUnique | solve_arc/language/arguments.py:95-97 | two increasing sequences with the same elements are equal, so the used colours are determined by the grid's colour set |
| Arguments.FromIndices | solve_arc/language/arguments.py:112-120 | `from_indices` gives a rows x cols selection whose cell (i, j) is set exactly when (i, j) is listed; an empty index list fails |
| Arguments.FlatIndexInjective | solve_arc/language/arguments.py:117 | the flat index `i * cols + j` of an in-range cell determines the cell |
| Arguments.Append | solve_arc/language/arguments.py:142-143 | `append` returns a sequence one longer that starts with the original and ends with the element |
| Arguments.SeqShape | solve_arc/language/arguments.py:148-155 | `_Sequence.shape` is present exactly when the sequence is non-empty and all shapes agree, and then is that shape |
| Arguments.SeqHeight | solve_arc/language/arguments.py:157-164 | `_Sequence.height` is present exactly when the sequence is non-empty and all heights agree, and then is that height |
| Arguments.SeqWidth | solve_arc/language/arguments.py:166-173 | `_Sequence.width` is present exactly when the sequence is non-empty and all widths agree, and then is that width |
| Arguments.AppendShape | solve_arc/language/arguments.py:142-155 | after `append`, a common shape remains exactly when the new element has the sequence's shape |
| Logic.CellWise | solve_arc/language/logic.py:26-29 | `np.vectorize` inside `try`: a result exactly when the operands are non-empty and the cell rule is defined everywhere, and then each result cell is the rule applied to the two cells |
| Logic.Combine | solve_arc/language/logic.py:22-24 | operands of different shapes give None; a result has the operands' shape |
| Logic.EqualAnd | solve_arc/language/logic.py:54-66 | None on a shape mismatch or exactly when two non-zero cells differ; otherwise 0 where either cell is 0 and the shared colour elsewhere |
| Logic.EqualOr | solve_arc/language/logic.py:69-81 | None on a shape mismatch or exactly when two non-zero cells differ; otherwise the non-zero cell, or the shared colour |
| Logic.Xor | solve_arc/language/logic.py:84-91 | a result exactly for same-shaped non-empty grids; each cell is the colour of the only non-zero operand cell, else 0 |
| Logic.Symmetric | solve_arc/language/logic.py:54-91 | `equal_and`, `equal_or` and `xor` are each symmetric in their operands |
| Logic.XorFromAndOr | solve_arc/language/logic.py:54-91 | where `equal_and` and `equal_or` both succeed, `xor` is defined and equals `equal_or` on the cells `equal_and` clears and 0 elsewhere |
| Color.Copy | solve_arc/language/color.py:25 | `grid.copy()` is a fresh buffer of the grid's shape holding its cells, so the input is never written |
| Color.AssignWhere | solve_arc/language/color.py:26 | a masked assignment sets exactly the cells whose colour in the mask's grid is the selected one and leaves every other cell as it was |
| Color.SwitchColor | solve_arc/language/color.py:24-28 | both masks come from the original grid, so the result is the grid with `a` and `b` exchanged and every other cell kept (`Switched`) |
| Color.MapColor | solve_arc/language/color.py:32-35 | the result is the grid with every `from_` cell set to `to` and every other cell kept (`Mapped`) |
| Color.SwitchInvolution | solve_arc/language/color.py:24-28 | switching twice with the same pair restores the grid |
| Color.SwitchSymmetric | solve_arc/language/color.py:24-28 | switching (a, b) and (b, a) give the same grid |
| Color.SwitchColors | solve_arc/language/color.py:24-28 | a colour occurs after the switch exactly when its switched partner occurred before |
| Color.MapIdempotent | solve_arc/language/color.py:32-35 | mapping twice with the same pair is mapping once |
| Color.MapColors | solve_arc/language/color.py:32-35 | after mapping to a different colour `from_` no longer occurs, and no colour other than `to` is new |
| Symmetry.FlipUpDown | solve_arc/language/symmetry.py:6-7 | same shape; row i of the result is row `h - 1 - i` of the grid |
| Symmetry.FlipLeftRight | solve_arc/language/symmetry.py:10-11 | same shape; cell (i, j) of the result is cell (i, `w - 1 - j`) of the grid |
| Symmetry.Rotate90 | solve_arc/language/symmetry.py:14-15 | one counter-clockwise quarter turn (`np.rot90`): a w x h grid whose cell (i, j) is cell (j, `w - 1 - i`) of the grid |
| Symmetry.FlipUpDownInvolution | solve_arc/language/symmetry.py:6-7 | flipping up-down twice restores the grid |
| Symmetry.FlipLeftRightInvolution | solve_arc/language/symmetry.py:10-11 | flipping left-right twice restores the grid |
| Symmetry.HalfTurn | solve_arc/language/symmetry.py:6-15 | two quarter turns equal flipping left-right and then up-down |
| Symmetry.Rotate90Proper | solve_arc/language/symmetry.py:14-15 | a quarter turn of a proper grid is proper and swaps height and width |
| Symmetry.FourTurns | solve_arc/language/symmetry.py:14-15 | four quarter turns are the identity |
| Symmetry.TurnsMod | solve_arc/language/symmetry.py:14-15 | only the number of turns modulo 4 matters |
| Symmetry.RotateCompose | solve_arc/language/symmetry.py:14-15 | rotating by `a` and then by `b` is rotating by `a + b`, for any integers including negative ones |
| Symmetry.RotateFour | solve_arc/language/symmetry.py:14-15 | `rotate(g, 1)` applied four times gives `g` back |
| Symmetry.TurnsShape | solve_arc/language/symmetry.py:14-15 | an odd number of quarter turns swaps height and width, an even number keeps the shape |
| Symmetry.RotateShape | solve_arc/language/symmetry.py:14-15 | `rotate(g, k)` with odd `k` swaps height and width; with even `k` the shape is kept |
| Selection.SelectColor | solve_arc/language/selection.py:9-11 | the mask has the grid's shape and is set exactly where the cell is the colour |
| Selection.SelectAllColors | solve_arc/language/selection.py:14-16 | the mask has the grid's shape and is set exactly where the cell is not the ignored colour |
| Selection.SelectComplement | solve_arc/language/selection.py:9-16 | selecting one colour and selecting all but that colour give complementary masks |
| Selection.SelectColorAny | solve_arc/language/selection.py:9-11 | a colour's mask has a set cell exactly when the colour is among the grid's used colours |
| Selection.NeighborsSymmetric | solve_arc/language/selection.py:58-79 | both neighbour relations (8 cells and 4 cells) are symmetric |
| Selection.SelectedCells | solve_arc/language/selection.py:28 | `np.argwhere` as a set: exactly the set cells of the mask |
| Selection.ConnectedIndices | solve_arc/language/selection.py:43-55 | the search returns the start plus exactly the candidates it took and leaves the rest as candidates; no remaining candidate neighbours the area, and every cell of the area is reached from the start by neighbour steps inside it, so the area is exactly the start's connected component |
| Selection.FrontierStep | solve_arc/language/selection.py:48-52 | one round of the queue loop keeps the search state: found plus queued is the start and the candidates taken, the found cells touch no remaining candidate, and everything taken is reachable from the start |
| Selection.FrontierDone | solve_arc/language/selection.py:47-55 | once the queue is empty, the area found is the start and the candidates taken, and it is connected from the start |
| Selection.ReachedRooted | solve_arc/language/selection.py:43-55 | an area reachable from the start that touches no remaining candidate is reachable from the start without leaving it |
| Selection.WalkStays | solve_arc/language/selection.py:50-52 | a walk that starts in an area no neighbour of which is outside it never leaves that area |
| Selection.RootedUnion | solve_arc/language/selection.py:50-52 | two areas reachable from their roots, with the second root adjacent to the first, form one area reachable from the first root |
| Selection.SplitAreas | solve_arc/language/selection.py:27-40 | None only when the selection is empty or connected; a result holds at least two masks of the selection's shape that are non-empty, pairwise disjoint, together exactly the selection, each connected, and no cell of an area neighbours a later area |
| Selection.SplitDone | solve_arc/language/selection.py:36-40 | after the loop, at most one area means the selection is empty or that one connected area, and more areas partition the selection into connected, closed parts |
| Selection.Unreachable | solve_arc/language/selection.py:27-55 | no walk inside a set leads from a part closed under the neighbour relation to a cell outside that part |
| Selection.SplitDisconnected | solve_arc/language/selection.py:37-40 | a selection split into two or more closed areas is non-empty and not connected, so a returned split never replaces a connected selection |
| Selection.SymmetricClosed | solve_arc/language/selection.py:43-79 | with a symmetric neighbour relation, every set neighbour of a cell of an area lies in the same area |
| Selection.SplitConnectedAreas | solve_arc/language/selection.py:19-20 | None exactly when the selection is empty or 8-connected; otherwise at least two areas that partition the selection, each 8-connected and closed under 8-adjacency, i.e. its 8-connected components |
| Selection.SplitConnectedAreasNoDiagonals | solve_arc/language/selection.py:23-24 | None exactly when the selection is empty or 4-connected; otherwise at least two areas that partition the selection, each 4-connected and closed under 4-adjacency, i.e. its 4-connected components |
| Selection.Keep | solve_arc/language/selection.py:83-85 | the kept masks come from the input and all have the requested border test result |
| Selection.FilterTouchingEdge | solve_arc/language/selection.py:82-90 | the masks touching the border, in order; None exactly when there are none |
| Selection.FilterNotTouchingEdge | solve_arc/language/selection.py:93-101 | the masks not touching the border, in order; None exactly when there are none |
| Selection.FiltersPartition | solve_arc/language/selection.py:82-106 | the two filters together hold every input mask exactly once (as multisets) |
| Selection.Or | solve_arc/language/selection.py:111 | `np.logical_or` of two same-shaped masks is set exactly where either is set |
| Selection.MergeSelections | solve_arc/language/selection.py:110-111 | the merged mask has the common shape and is set exactly where some mask is set |
| Selection.MergeUndoesSplit | solve_arc/language/selection.py:27-111 | merging the areas of a split gives back the split selection |
| Selection.SplitStep | solve_arc/language/selection.py:31-34 | one round of the split loop keeps its invariant (areas disjoint, connected, closed, in order, each mask marking exactly its area) and leaves strictly fewer cells unassigned |
| Selection.AreaMask | solve_arc/language/selection.py:33 | the mask built from an area's cells has the selection's shape and marks exactly those cells |
| Segmentation.BoxUnique | solve_arc/language/segmentation.py:30-31 | a set of cells has at most one tightest bounding box |
| Segmentation.JoinBox | solve_arc/language/segmentation.py:56-59 | taking min/max of two tight boxes gives the tight box of the union |
| Segmentation.Crop | solve_arc/language/segmentation.py:43 | `grid[top:bottom, left:right]` for a box inside the grid has the box's size and holds the grid's cells offset by the box corner |
| Segmentation.NeighborList | solve_arc/language/segmentation.py:64-75 | `_neighbors` lists exactly the eight surrounding cells |
| Segmentation.NeighborBounds | solve_arc/language/segmentation.py:48-61 | the visited cells are the start and exactly the candidates removed, all reachable from the start by 8-neighbour steps among them; the box returned is their tightest box; no remaining candidate neighbours a visited cell, so the visited cells are exactly the start's 8-connected island |
| Segmentation.RootedStep | solve_arc/language/segmentation.py:57-59 | joining the island grown from a neighbour to the cells visited so far keeps everything reachable from the start |
| Segmentation.Foreground | solve_arc/language/segmentation.py:38 | the cells of the grid whose colour is not the ignored one |
| Segmentation.ExtractIslands | solve_arc/language/segmentation.py:36-45 | the islands partition the non-ignored cells, each is 8-connected and closed under 8-adjacency (so each is one 8-connected group), and crop k is the grid inside the tightest box of island k |
| Segmentation.PatchColors | solve_arc/language/segmentation.py:27-28 | the used colours other than the ignored one |
| Segmentation.Bounds | solve_arc/language/segmentation.py:30-31 | `np.min`/`np.max` over the indices (plus one) give the tightest box of the cells |
| Segmentation.ColorCells | solve_arc/language/segmentation.py:29 | one cell set per colour, the set cells of that colour's mask |
| Segmentation.ExtractColorPatches | solve_arc/language/segmentation.py:24-33 | one crop per used colour other than the ignored one, in ascending colour order, each the grid inside the tightest box around that colour's cells |
| Segmentation.Explore | solve_arc/language/segmentation.py:52-59 | one neighbour's turn keeps the search's invariant (the visited cells are tightly boxed and no candidate left touches a removed one) and leaves none of the neighbours so far among the candidates |
| Segmentation.Patch | solve_arc/language/segmentation.py:29-32 | the crop around a non-empty set of cells of the grid is cut along their tightest box, which lies inside the grid |
| Compositions.Pack | solve_arc/language/compositions.py:14-20 | None for no grids, the grid itself for one, `Grids` for two or more |
| Compositions.PackRoundTrip | solve_arc/language/compositions.py:14-20 | packing loses nothing: the grids read back in order |
| Compositions.Somes | solve_arc/language/compositions.py:11-12 | the defined crops, in order; a grid is kept exactly when it was a defined crop |
| Compositions.ExtractColorPatch | solve_arc/language/compositions.py:23-25 | the patch of a colour is the crop of the grid to `select_color(grid, color)` |
| Compositions.ColorCrops | solve_arc/language/compositions.py:8-10 | one `extract_color_patch` per listed colour, in order |
| Compositions.ExtractColorPatches | solve_arc/language/compositions.py:6-20 | the defined patches of the used colours other than `ignore`, in ascending colour order, packed as None, one grid or `Grids` |
| Compositions.PatchesOfColors | solve_arc/language/compositions.py:6-25 | a grid is a patch exactly when it is the defined crop of some used colour other than `ignore` |
| Compositions.AreaCrops | solve_arc/language/compositions.py:40-41 | one crop per area, in order |
| Compositions.ExtractIslands | solve_arc/language/compositions.py:28-51 | None when no cell escapes the ignored colour; the whole selection is cropped exactly when it is 8-connected, and otherwise its 8-connected components (at least two, partitioning it) are; the defined crops are packed |
| Compositions.CropAreas | solve_arc/language/compositions.py:39-43 | the crops of the areas that are not None, in the areas' order |
| Argument.ExtractScalar | solve_arc/state_tree_solver/argument.py:28-36 | a result is of the expected type, and an argument of the expected type is returned unchanged |
| Argument.ExtractWrapped | solve_arc/state_tree_solver/argument.py:33-34 | any number of single-element lists around a value of the expected type is removed |
| Argument.ExtractedIsWrapped | solve_arc/state_tree_solver/argument.py:28-36 | what is extracted is the argument itself or its content under single-element lists |
| Argument.ExtractScalarSpec | solve_arc/state_tree_solver/argument.py:28-36 | `extract_scalar` gives `x` exactly when `x` has the expected type and the argument is `x` under zero or more single-element lists |
| Argument.ExtractScalarErrors | solve_arc/state_tree_solver/argument.py:36 | None, an empty list and a list of two or more values raise `ArgumentError` |
| Argument.ExtractAll | solve_arc/state_tree_solver/argument.py:60 | the element-wise extraction succeeds exactly when every element does, and keeps length and order |
| Argument.ExtractTuple | solve_arc/state_tree_solver/argument.py:58-66 | a result has exactly `length` values, each of the expected type |
| Argument.ExtractTupleWrapped | solve_arc/state_tree_solver/argument.py:58-64 | a list of `length` values of the expected type, under any number of single-element lists, is extracted as it is |
| Argument.ExtractTupleErrors | solve_arc/state_tree_solver/argument.py:66 | None, and a list whose length is neither `length` nor 1, raise `ArgumentError` |
| Argument.ExpectedTypeDropped | solve_arc/state_tree_solver/argument.py:34 | as written, the recursion looks for a grid whatever type was asked: a wrapped selection is refused and a wrapped grid accepted where a selection is expected |
| Argument.AsWrittenAgreesOnGrids | solve_arc/state_tree_solver/argument.py:28-66 | with grids expected (every caller's case) the as-written and corrected extractions agree |
| Argument.ExpectScalar | solve_arc/state_tree_solver/argument.py:9-25 | `on_error_return` when extraction fails, otherwise the function applied to the extracted scalar |
| Argument.ExpectTuple | solve_arc/state_tree_solver/argument.py:39-55 | `on_error_return` when the first `length` arguments do not extract, otherwise the function applied to the extracted tuple followed by the remaining arguments |
| Argument.ShapeOf | solve_arc/language/arguments.py:139-155 | a grid or selection has its own shape, a `Grids`-like list has the common shape of its elements (an error when an element has none), and None has no `.shape` |
| Argument.SequenceShape | solve_arc/language/arguments.py:148-155 | a non-empty list of grids of one shape has that shape, and a list whose shapes differ has none |
| Argument.ExpectSameShape | solve_arc/state_tree_solver/argument.py:69-85 | `IndexError` without arguments; `AttributeError` when argument 0, or an argument compared before a mismatch, has no `.shape`; otherwise the call goes through exactly when arguments 1 .. length-1 have argument 0's shape, else `on_error_return` |
| Argument.ExpectSameShapeOnShaped | solve_arc/state_tree_solver/argument.py:69-85 | with every argument shaped, no error is raised and the call goes through exactly when the shapes agree |
| Parameterize.ScalarGrid | solve_arc/state_tree_solver/parameterize.py:6-8 | the grid `expect_scalar` hands on is present exactly when extraction succeeds, and is the extracted grid |
| Parameterize.SegmentationOps | solve_arc/state_tree_solver/parameterize.py:11-23 | no operations for an argument that is not a grid; otherwise `extract_islands` and then `extract_color_patches` once per used colour, 2 per colour; `solve_arc/language/segmentation.py` (lines 9-21) builds the same two lists |
| Parameterize.LogicOpsCases | solve_arc/state_tree_solver/parameterize.py:31-40 | three operations exactly when the argument unwraps to two grids of one shape, otherwise none; `solve_arc/language/logic.py` (lines 9-18) gives the same three |
| Parameterize.SwitchesBelow | solve_arc/state_tree_solver/parameterize.py:54-57 | the switches from one colour to every other colour below `n`, `n - 1` of them when the colour is below `n` |
| Parameterize.SwitchOps | solve_arc/state_tree_solver/parameterize.py:53-57 | a switch is offered exactly when its source is a used colour and its target another colour of 0..9 |
| Parameterize.SwitchOpsCount | solve_arc/state_tree_solver/parameterize.py:46-59 | with colours in 0..9 there are 9 switches per used colour; `solve_arc/language/color.py` (lines 7-20) builds the same switches |
| Parameterize.ParameterizeColor | solve_arc/state_tree_solver/parameterize.py:46-59 | the nested loops produce exactly the switches of `ColorOps`: none for a non-grid, else all switches from each used colour |
| Parameterize.ValidOps | solve_arc/state_tree_solver/parameterize.py:62 | an operation is valid exactly when one of the three parameterizers offers it |
| Parameterize.ValidOpsOfGrid | solve_arc/state_tree_solver/parameterize.py:11-62 | on a single grid: island and patch extraction per used colour and the switches from used colours; no logic operation |
| Parameterize.Grids | solve_arc/language/arguments.py:184-185 | a `Grids` of the crops, one grid argument per crop in order |
| Parameterize.Apply | solve_arc/state_tree_solver/parameterize.py:6-43 | a wrapped operation gives None exactly when its argument does not unwrap; otherwise the logic result, the switched grid, or the islands or colour patches of the grid as `Grids` |
| TreeSearch.Step | solve_arc/state_tree_solver/tree_search.py:35 | the operation applied to each argument, in order |
| TreeSearch.CommonValid | solve_arc/state_tree_solver/tree_search.py:31-33 | an operation is common exactly when it is valid for every argument |
| TreeSearch.ExecAppend | solve_arc/state_tree_solver/tree_search.py:63-67 | running two programs one after the other is running their concatenation |
| TreeSearch.Run | solve_arc/state_tree_solver/tree_search.py:64-67 | `Program.__call__` applies the operations left to right (`Exec`) |
| TreeSearch.ChainRuns | solve_arc/state_tree_solver/tree_search.py:69-71 | a chained program is one longer and runs the operation first, then the sub-program on its result |
| TreeSearch.AdmissibleSolves | solve_arc/state_tree_solver/tree_search.py:45-52 | a program the search may accept turns every argument into a grid equal to its target |
| TreeSearch.HopelessStep | solve_arc/state_tree_solver/tree_search.py:31-43 | if unsolved arguments have no common valid operation leading to a program, none exists |
| TreeSearch.SolveRecursive | solve_arc/state_tree_solver/tree_search.py:20-43 | a falsy argument gives None; solved arguments give the empty program; a program found is admissible and no longer than the depth left; None means no admissible program within the depth left |
| TreeSearch.Sources | solve_arc/state_tree_solver/tree_search.py:18 | position i holds the source of constraint i |
| TreeSearch.Targets | solve_arc/state_tree_solver/tree_search.py:18 | position i holds the target of constraint i |
| TreeSearch.Solve | solve_arc/state_tree_solver/tree_search.py:17-54 | `ValueError` exactly when there are no constraints (`zip(*[])` cannot be unpacked); otherwise the empty program when every source already is its target, a found program has at most `max_depth` operations and maps each source to its target, and a program is found exactly when an admissible one exists |
| TreeSearch.SolveConstraints | solve_arc/state_tree_solver/tree_search.py:19-54 | for a non-empty list of constraints: the empty program when every source already is its target; a found program is short enough and maps each source to its target; a program is found exactly when an admissible one exists |
| TreeSearch.TryOps | solve_arc/state_tree_solver/tree_search.py:31-43 | for truthy, unsolved arguments with depth left: a program found is admissible and no longer than the depth left; None means no admissible program of that length exists |
| Vectorize.Elements | solve_arc/function_graph_solver/vectorize.py:61-73 | iterating over a finite argument yields `Length` elements, element i at position i |
| Vectorize.RepeatEverywhere | solve_arc/function_graph_solver/vectorize.py:51-62 | `repeat(v)` never ends and supplies `v` at every position |
| Vectorize.RepeatOnceSingle | solve_arc/function_graph_solver/vectorize.py:65-73 | `repeat_once(v)` yields exactly one element, `v` |
| Vectorize.MinLength | solve_arc/function_graph_solver/vectorize.py:32 | the length of the shortest finite argument: no longer than any finite argument and equal to one; None exactly when none is finite |
| Vectorize.ZipLength | solve_arc/function_graph_solver/vectorize.py:32 | `zip` yields nothing for no arguments, the shortest finite length otherwise, and never ends when every argument repeats forever |
| Vectorize.Column | solve_arc/function_graph_solver/vectorize.py:32 | the i-th tuple `zip` yields holds the i-th element of every argument |
| Vectorize.Call | solve_arc/function_graph_solver/vectorize.py:28-32 | `vectorize(f)(*args)` is as long as `zip` and position i is `f` of the i-th tuple; no result exactly when the call would never return |
| Vectorize.CallWithConstants | solve_arc/function_graph_solver/vectorize.py:28-62 | a node's tuple followed by repeated constants gives one element per constraint, `f` of that element and the constants |
| Vectorize.CallOnce | solve_arc/function_graph_solver/vectorize.py:28-73 | over `repeat_once(v)` and repeated constants the call yields exactly one element |
| Nodes.Node.Constant | solve_arc/function_graph_solver/nodes.py:59-61 | a constant holds its value, which is also its recomputed value |
| Nodes.Node.Function | solve_arc/function_graph_solver/nodes.py:26-28 | a new function node keeps its callable and arguments, and nothing is evaluated yet: no cached value, no stored depth, the callable never run |
| Nodes.Node.Load | solve_arc/function_graph_solver/solver.py:35-38 | `Source.load` replaces the constant's value, which becomes its recomputed value |
| Nodes.Node.Call | solve_arc/function_graph_solver/nodes.py:30-36 | a constant returns its value either way (lines 63-64); a cached function returns the cache without running anything; otherwise the callable runs exactly once more and its result is cached; on coherent caches, and always with `use_cache=False`, the result is the value recomputed from the constants, and `use_cache=False` has rerun every function below |
| Nodes.Node.Store | solve_arc/function_graph_solver/nodes.py:34 | storing the computed value caches it and counts one run, and keeps the caches coherent |
| Nodes.Node.MaxArgDepth | solve_arc/function_graph_solver/nodes.py:40 | the maximum of the arguments' depths: no argument is deeper, and one argument has it |
| Nodes.Node.ComputeDepth | solve_arc/function_graph_solver/nodes.py:38-42 | `depth()` is defined exactly when every function below has an argument, is then 0 for a constant (lines 66-67) and one more than the deepest argument for a function, and is stored in `_depth` |
| Nodes.Node.Equals | solve_arc/function_graph_solver/nodes.py:14-16 | two nodes are equal exactly when their values are, whatever functions built them (hash of the value, lines 53-56) |
| Nodes.Node.CallArg | solve_arc/function_graph_solver/nodes.py:33 | calling argument i with the caller's flag gives its recomputed value and keeps the caller's own cache and count |
| Nodes.Node.CallArgs | solve_arc/function_graph_solver/nodes.py:33 | the arguments are called in order and the root's own cache and count stay as they were; on coherent caches, and always with `use_cache=False`, the values are the arguments' recomputed values; with `use_cache=False` every function below has rerun and caches its current value |
| Nodes.Node.MaxDepthOfArgs | solve_arc/function_graph_solver/nodes.py:40 | a value exactly when every argument has a depth, and then the largest argument depth; the root's own cache is untouched and every stored depth stays correct |
| Values.CommonType | solve_arc/function_graph_solver/node_collection.py:82-87 | `common_type` is a type exactly when the tuple is non-empty and every position has the type of the first, and is then that type |
| Values.ShapeVector | solve_arc/function_graph_solver/full_search.py:480-482 | `shape(vector)` holds each position's shape, in order |
| Values.HeightVector | solve_arc/function_graph_solver/full_search.py:485-487 | `height(vector)` holds each position's height, in order |
| Values.WidthVector | solve_arc/function_graph_solver/full_search.py:490-492 | `width(vector)` holds each position's width, in order |
| Values.HeightSum | solve_arc/function_graph_solver/full_search.py:495-497 | the total height of a tuple of grids at each position; nothing where a position is not a tuple of grids |
| Values.WidthSum | solve_arc/function_graph_solver/full_search.py:500-502 | the total width of a tuple of grids at each position; nothing where a position is not a tuple of grids |
| Values.Multiply | solve_arc/function_graph_solver/full_search.py:505-506 | every defined position times the factor, length kept |
| Values.MultiplyInjective | solve_arc/function_graph_solver/full_search.py:505-506 | with a positive factor, two vectors multiply to the same vector exactly when they are equal |
| Values.Heights | solve_arc/function_graph_solver/full_search.py:466-467 | the heights of a list of shapes, in order |
| Values.Widths | solve_arc/function_graph_solver/full_search.py:476-477 | the widths of a list of shapes, in order |
| Values.ItemShapesVector | solve_arc/function_graph_solver/full_search.py:451-457 | the item shapes of each position's tuple, in order |
| Values.AppendShapes | solve_arc/function_graph_solver/full_search.py:509-511 | `append(sequences, scalars)` adds each scalar's shape at the end of the tuple at its position, as long as the shorter argument |
| Values.MatchingShapeIsCommonShape | solve_arc/function_graph_solver/full_search.py:450-457 | `is_matching_shape` holds exactly when every tuple has at least two items with a common shape |
| Values.ColorSet | solve_arc/language/arguments.py:95-97 | `set(grid.used_colors())` holds exactly the used colours |
| Values.UsedColorsOf | solve_arc/function_graph_solver/full_search.py:438-441 | `used_colors(vector)` is the intersection of the colour sets of all positions |
| Values.UsedColorsSingle | solve_arc/function_graph_solver/full_search.py:438-441 | a one-grid tuple uses exactly its grid's colours |
| Values.UsedColorsOccur | solve_arc/function_graph_solver/full_search.py:438-441 | a colour is used by the tuple exactly when it occurs in every grid |
| Values.SelectionsAmongGridSequences | solve_arc/function_graph_solver/function_generation.py:224-228 | as written, a tuple of selections passes `is_sequence(node, Grid)`, while the intended test rejects it |
| Values.SequenceTests | solve_arc/function_graph_solver/function_generation.py:224-228 | the intended test implies the written one, and for tuples of grids the two agree |
| Collections.LengthSet | solve_arc/function_graph_solver/node_collection.py:36 | the set of the item counts of the tuples |
| Collections.SingleLength | solve_arc/function_graph_solver/node_collection.py:36-38 | the set of item counts is `{n}` exactly when every tuple has `n` items |
| Collections.PrefixSet | solve_arc/function_graph_solver/node_collection.py:17-18 | the nodes of a list prefix grow one node at a time |
| Collections.ByProperty.constructor | solve_arc/function_graph_solver/node_collection.py:51-54 | a new property index is empty and files by the given property |
| Collections.ByProperty.Process | solve_arc/function_graph_solver/node_collection.py:56-66 | a node of a grid or selection kind (or tuples of them) is added to the bucket of its property vector, and a tuple node to `matching_sequences` exactly when its property is defined everywhere; other kinds change nothing; the index stays exact |
| Collections.ByProperty.Get | solve_arc/function_graph_solver/node_collection.py:68-69 | the nodes with that property vector, the bucket being created when missing |
| Collections.ByProperty.ValuesCover | solve_arc/function_graph_solver/node_collection.py:71-73 | every filed node's property vector is among `values` |
| Collections.NodeCollection.constructor | solve_arc/function_graph_solver/node_collection.py:10-18 | the collection holds exactly the given nodes, each filed under its type, length, shape, height and width |
| Collections.NodeCollection.Add | solve_arc/function_graph_solver/node_collection.py:20-22 | the node joins the set and only its own type bucket changes; every index stays exact |
| Collections.NodeCollection.Process | solve_arc/function_graph_solver/node_collection.py:24-38 | filing one node keeps every bucket exact for the set with the node added |
| Collections.NodeCollection.FileType | solve_arc/function_graph_solver/node_collection.py:26-28 | the node goes into the bucket of its common type and nowhere else |
| Collections.NodeCollection.FileLength | solve_arc/function_graph_solver/node_collection.py:34-38 | a tuple node goes into the bucket of its common length, when it has one |
| Collections.NodeCollection.WithType | solve_arc/function_graph_solver/node_collection.py:40-41 | `with_type(T)` is exactly the nodes whose common type is T |
| Collections.NodeCollection.WithLength | solve_arc/function_graph_solver/node_collection.py:43-44 | `with_length(n)` is exactly the tuple nodes every tuple of which has `n` items |
| Terms.Eval | solve_arc/function_graph_solver/nodes.py:30-36 | the value of the source node is the source tuple, and an operation node's value is a tuple computed by its vectorized operation over its arguments' values |
| Terms.Depth | solve_arc/function_graph_solver/nodes.py:38-42 | an operation node is deeper than its first (node) argument |
| Terms.MaxArgDepth | solve_arc/function_graph_solver/nodes.py:40 | no node argument is deeper than the maximum |
| Terms.EvalLength | solve_arc/function_graph_solver/vectorize.py:31-32 | over a finite source every node's value is exactly as long as the source |
| Terms.Pointwise | solve_arc/function_graph_solver/vectorize.py:31-32 | position i of a node's value is the program run on position i of the source |
| Terms.ValuePointwise | solve_arc/function_graph_solver/vectorize.py:31-32 | the value tuple holds, at every position, the program's result on that position's source element |
| Terms.EvalOnce | solve_arc/function_graph_solver/vectorize.py:65-73 | over `repeat_once(x)` a program yields exactly one element, its result on `x` |
| Programs.FreshIsEval | solve_arc/function_graph_solver/nodes.py:30-36 | a node graph with a term's shape computes, uncached, the term's value over the source's value |
| Programs.Build | solve_arc/function_graph_solver/nodes.py:26-28 | building `Function` and `Constant(repeat(c))` nodes for a term over a source gives fresh nodes with the term's shape, whose value is the term's value |
| Programs.BuildArgs | solve_arc/function_graph_solver/nodes.py:26-28 | one fresh valid node per argument of a function term, in order, each the built sub-term or a constant repeating the literal |
| FullSearch.MapColorHeuristic | solve_arc/function_graph_solver/full_search.py:162-172 | every `map_color` candidate maps a colour used by every grid of a sampled node to a different colour used by every target grid |
| FullSearch.SwitchHeuristic | solve_arc/function_graph_solver/full_search.py:192-198 | every `switch_color` candidate swaps two distinct colours of a node that is not itself a swap |
| FullSearch.SplitHeuristic | solve_arc/function_graph_solver/full_search.py:362-367 | `split_top_bottom` is proposed only for a node exactly twice as high as the target at every position |
| FullSearch.HalfHeight | solve_arc/function_graph_solver/full_search.py:325-328 | the kept nodes are sampled nodes whose doubled heights are the target's |
| FullSearch.HalfWidth | solve_arc/function_graph_solver/full_search.py:335-338 | the kept nodes are sampled nodes whose doubled widths are the target's |
| FullSearch.HalfPositions | solve_arc/function_graph_solver/full_search.py:366 | a height tuple equal to the target's doubled means, position by position, twice the target grid's height |
| FullSearch.ConcatenateHeuristic | solve_arc/function_graph_solver/full_search.py:320-333 | every `concatenate_top_bottom` candidate stacks two sampled nodes whose heights add up to the target's and whose widths agree |
| FullSearch.HalvesFill | solve_arc/function_graph_solver/full_search.py:325-331 | two half-height nodes of equal widths fill the target's heights between them |
| FullSearch.ColorFunctionsWellFormed | solve_arc/function_graph_solver/full_search.py:162-189 | the colour-mapping generators build only well-formed nodes over well-formed nodes |
| FullSearch.SwitchFunctionsWellFormed | solve_arc/function_graph_solver/full_search.py:192-209 | the switch and paint generators build only well-formed nodes |
| FullSearch.SelectFunctionsWellFormed | solve_arc/function_graph_solver/full_search.py:212-227 | the colour-selection generators build only well-formed nodes |
| FullSearch.SelectionFunctionsWellFormed | solve_arc/function_graph_solver/full_search.py:230-287 | the selection generators build only well-formed nodes |
| FullSearch.CropFunctionsWellFormed | solve_arc/function_graph_solver/full_search.py:290-317 | the three crop generators build only well-formed nodes |
| FullSearch.ShapeFunctionsWellFormed | solve_arc/function_graph_solver/full_search.py:320-374 | the concatenation and split generators build only well-formed nodes |
| FullSearch.OtherFunctionsWellFormed | solve_arc/function_graph_solver/full_search.py:377-435 | the logic, symmetry, take and sort generators build only well-formed nodes |
| FullSearch.GeneratedWellFormed | solve_arc/function_graph_solver/full_search.py:131-159 | every candidate of `generate_functions` is a well-formed node over the pool |
| FullSearch.FirstType | solve_arc/function_graph_solver/full_search.py:119-123 | the type of the first element, kept only when every element shares it, is the tuple's common type |
| FullSearch.NodeCollection.constructor | solve_arc/function_graph_solver/full_search.py:111-125 | the collection is the set of the given nodes, each filed under its common type |
| FullSearch.NodeCollection.OfType | solve_arc/function_graph_solver/full_search.py:127-128 | `of_type` returns exactly the members of that common type and adds the key when missing |
| FullSearch.Enumerate | solve_arc/function_graph_solver/full_search.py:118 | iterating a set visits each member exactly once |
| FullSearch.Dedupe | solve_arc/function_graph_solver/full_search.py:131-159 | the set of candidates keeps one node per value, and every candidate's value is kept |
| FullSearch.ListedFrom | solve_arc/function_graph_solver/full_search.py:50-52 | the filed nodes are all pool members among the candidates |
| FullSearch.FiledGrids | solve_arc/function_graph_solver/full_search.py:119-123 | the nodes filed under `Grid` hold a grid at each of their positions, and have at least one |
| FullSearch.PooledLength | solve_arc/function_graph_solver/vectorize.py:31-32 | every pooled node has one position per constraint |
| FullSearch.Graph.constructor | solve_arc/function_graph_solver/full_search.py:16-32 | the graph holds the initial nodes and files the expandable ones |
| FullSearch.Graph.Process | solve_arc/function_graph_solver/full_search.py:85-99 | the new nodes join the graph, the valid shallow ones become expandable, and a node is returned exactly when one of them has the target's value |
| FullSearch.Graph.Draw | solve_arc/function_graph_solver/full_search.py:49-51 | `min(len(candidates), expand_batch_size)` draws, each a candidate |
| FullSearch.Graph.Sample | solve_arc/function_graph_solver/full_search.py:47-52 | the sampled batch files only candidates, each under its type |
| FullSearch.Graph.Expand | solve_arc/function_graph_solver/full_search.py:47-83 | `NoExpandableNodes` exactly when no candidate is left, and then nothing changes; otherwise the batch is sampled from the candidates, the generated functions are kept one per value, exactly the ones with a new value join the nodes, the ones worth expanding join the expandable nodes, and a node is returned exactly when the target is among the new values |
| FullSearch.Graph.Solve | solve_arc/function_graph_solver/full_search.py:34-45 | a returned node computes the target from the source |
| FullSearch.DepthGuardRaises | solve_arc/function_graph_solver/full_search.py:88 | as written, filing any node with a valid value raises, and no other node is filed |
| FullSearch.UsagesRaises | solve_arc/function_graph_solver/full_search.py:71 | as written, listing candidates raises unless nothing is expandable |
| FullSearch.SwitchGuardRaises | solve_arc/function_graph_solver/full_search.py:196 | as written, the switch test raises for every computed node |
| FunctionGeneration.Admitted | solve_arc/function_graph_solver/function_generation.py:37 | exactly the added nodes with a value at every position are admitted, unchanged |
| FunctionGeneration.Graph.constructor | solve_arc/function_graph_solver/function_generation.py:27-33 | a new graph has no nodes and empty buckets |
| FunctionGeneration.Graph.Add | solve_arc/function_graph_solver/function_generation.py:35-44 | the valid added nodes join the graph and the grid and mask buckets become exactly the graph's scalars and sequences of those kinds |
| FunctionGeneration.Graph.FileScalars | solve_arc/function_graph_solver/function_generation.py:41-42 | the scalar buckets of grids and masks hold exactly the graph's nodes of that kind |
| FunctionGeneration.Graph.FileSequences | solve_arc/function_graph_solver/function_generation.py:43-44 | the sequence buckets of grids and masks hold exactly the graph's tuple nodes of that kind |
| FunctionGeneration.Graph.Scalars | solve_arc/function_graph_solver/function_generation.py:46-47 | `scalars(k)` gives the admitted nodes whose every position has type `k`, and adds the key when missing |
| FunctionGeneration.Graph.Sequences | solve_arc/function_graph_solver/function_generation.py:49-50 | `sequences(k)` gives the admitted nodes whose every position is a tuple of `k`s, and adds the key when missing |
| FunctionGeneration.Graph.Generate | solve_arc/function_graph_solver/function_generation.py:9-23 | the candidates are the generators' over the graph's buckets, with the logic candidates of every pair node, each a well-formed node, and the nodes do not change |
| FunctionGeneration.BucketsGrow | solve_arc/function_graph_solver/function_generation.py:41-44 | adding nodes grows each bucket by exactly the added nodes that belong in it |
| FunctionGeneration.BucketsOK | solve_arc/function_graph_solver/function_generation.py:46-50 | the buckets hold graph nodes only, grid nodes hold grids, and tuple nodes have positions |
| FunctionGeneration.MapColorHeuristic | solve_arc/function_graph_solver/function_generation.py:53-62 | every `map_color` candidate maps a colour every position of a grid node uses to one every target grid uses |
| FunctionGeneration.SwitchHeuristic | solve_arc/function_graph_solver/function_generation.py:65-71 | every `switch_color` candidate swaps two distinct colours of a node that is not itself a swap |
| FunctionGeneration.MaskForAllColorsHeuristic | solve_arc/function_graph_solver/function_generation.py:82-89 | `mask_for_all_colors` is proposed only with a common colour of a node that has more than two |
| FunctionGeneration.PairTests | solve_arc/function_graph_solver/function_generation.py:189-196 | the typed pair test on grids holds exactly when the kind-blind pair test of the search does and the node is a tuple of grids |
| FunctionGeneration.PairCandidates | solve_arc/function_graph_solver/function_generation.py:158-163 | a pair node gives exactly three logic candidates |
| FunctionGeneration.LogicFunctionsCover | solve_arc/function_graph_solver/function_generation.py:158-163 | every same-shape pair of grids contributes all three of its logic candidates |
| FunctionGeneration.LogicFunctionsOnlyPairs | solve_arc/function_graph_solver/function_generation.py:158-163 | every logic candidate is one of a same-shape pair node's three |
| FunctionGeneration.LogicFunctionsAsWritten | solve_arc/function_graph_solver/function_generation.py:199-203 | as written, the logic candidates `logic_functions` unpacks at line 160 are the three of one pair node, the last the set comprehension visited, and none when there is no pair node |
| FunctionGeneration.LateBinding | solve_arc/function_graph_solver/function_generation.py:199-203 | with two pair nodes, the code as written gives three candidates and misses all three of the other node, while the intended generator gives at least six |
| FunctionGeneration.SwitchWellFormed | solve_arc/function_graph_solver/function_generation.py:65-71 | `switch_color_functions` builds only well-formed nodes |
| FunctionGeneration.MapColorWellFormed | solve_arc/function_graph_solver/function_generation.py:53-62 | `map_color_functions` builds only well-formed nodes |
| FunctionGeneration.MaskForColorWellFormed | solve_arc/function_graph_solver/function_generation.py:74-79 | `mask_for_color_functions` builds only well-formed nodes |
| FunctionGeneration.MaskForAllColorsWellFormed | solve_arc/function_graph_solver/function_generation.py:82-89 | `mask_for_all_colors_functions` builds only well-formed nodes |
| FunctionGeneration.ExtractMaskedAreaWellFormed | solve_arc/function_graph_solver/function_generation.py:107-125 | the masked-area generators build only well-formed nodes |
| FunctionGeneration.SplitMaskIslandsWellFormed | solve_arc/function_graph_solver/function_generation.py:92-93 | `split_mask_islands_functions` builds only well-formed nodes |
| FunctionGeneration.CropWellFormed | solve_arc/function_graph_solver/function_generation.py:128-155 | the three crop generators build only well-formed nodes |
| FunctionGeneration.PairFunctionsWellFormed | solve_arc/function_graph_solver/function_generation.py:158-175 | the logic and symmetry generators build only well-formed nodes |
| FunctionGeneration.GeneratedWellFormed | solve_arc/function_graph_solver/function_generation.py:9-23 | every candidate of `generate_functions` is a well-formed node over the graph |
| SamplingSearch.Admitted | solve_arc/function_graph_solver/sampling_search.py:41-50 | exactly the added nodes not yet in the graph and with a value at every position are kept, unchanged |
| SamplingSearch.Invalid | solve_arc/function_graph_solver/sampling_search.py:44-48 | the loop collects exactly the checked nodes with a missing position |
| SamplingSearch.Graph.constructor | solve_arc/function_graph_solver/sampling_search.py:37-39 | a new graph holds the source node alone |
| SamplingSearch.Graph.Add | solve_arc/function_graph_solver/sampling_search.py:41-50 | the graph gains exactly the new valid nodes, and the nodes already there stay as they were |
| SamplingSearch.Graph.Solution | solve_arc/function_graph_solver/sampling_search.py:60-65 | a node is returned exactly when the graph has one whose value is the target, and it is that node |
| SamplingSearch.Solve | solve_arc/function_graph_solver/sampling_search.py:21-33 | `ValueError` exactly when there are no constraints (`zip(*constraints)` has nothing to unpack); otherwise at most `max_depth` rounds run, a returned node computes the targets from the sources, nothing is returned only after all rounds, and a source that is already the target is returned at once |
| SamplingSearch.Search | solve_arc/function_graph_solver/sampling_search.py:23-33 | the search from a source tuple: at most `max_depth` rounds; a returned node has the target's value; nothing is returned only after all rounds; a source equal to the target is returned at once |
| SamplingSearch.Solution.constructor | solve_arc/function_graph_solver/sampling_search.py:69-71 | the solution holds the found node, the source node and the program they compute |
| SamplingSearch.Solution.Run | solve_arc/function_graph_solver/sampling_search.py:73-76 | loading `(value,)` and taking position 0 of an uncached evaluation gives the program's result on `value` |
| Solver.Sources | solve_arc/function_graph_solver/solver.py:19 | the source tuple holds each constraint's source, in order |
| Solver.Targets | solve_arc/function_graph_solver/solver.py:18 | the target tuple holds each constraint's target, in order |
| Solver.SolvesByValue | solve_arc/function_graph_solver/solver.py:21-30 | a node whose value over the sources is the target tuple maps every constraint's source to its target |
| Solver.Solution.constructor | solve_arc/function_graph_solver/solver.py:46-49 | the solution holds the node, the source node and the program they compute |
| Solver.Solution.Run | solve_arc/function_graph_solver/solver.py:51-54 | loading `repeat_once(value)` and taking the first element of an uncached evaluation gives the program's result on `value` |
| Solver.Solve | solve_arc/function_graph_solver/solver.py:17-32 | the source node is returned when it already is the target; any returned solution maps every constraint's source to its target |
| Solver.FormatFields | solve_arc/function_graph_solver/solver.py:73-74 | formatting succeeds exactly when every field is a number, and gives those numbers in order; otherwise `TypeError` |
| Solver.StatisticsFormat | solve_arc/function_graph_solver/solver.py:64-74 | statistics with the depth `node.depth()` format to their three numbers; the ones as written, which store the method `node.depth`, raise `TypeError` |
| Solver.SolveAsWritten | solve_arc/function_graph_solver/solver.py:17-32 | as written, `solve` gives a solution only when the source already is the target; a node found by the search raises `TypeError` while its statistics are logged |
| Solver.ChildrenFilled | solve_arc/function_graph_solver/solver.py:78-83 | every parent in the dictionary has at least one child, and every child is a node of the graph |
| Solver.SharedConstant | solve_arc/function_graph_solver/solver.py:80-83 | two nodes that take the same constant, at any positions, are children of the one dictionary key of that constant, since a `repeat` constant hashes as its element |
| Solver.ParentsStep | solve_arc/function_graph_solver/solver.py:80-83 | seeing one node more adds exactly that node's argument parents: a function or source argument by its value, a constant by its element |
| Solver.ChildrenInStep | solve_arc/function_graph_solver/solver.py:82-83 | seeing one node more makes it a child of exactly its own parents |
| Solver.ChildrenStep | solve_arc/function_graph_solver/solver.py:80-83 | seeing one node more files it under each of its parents and changes nothing else |
| Solver.Gather | solve_arc/function_graph_solver/solver.py:78-83 | the loop builds the dictionary from each parent (a node value or a constant's element) to exactly its children among the graph's nodes |
| Solver.ExtendNone | solve_arc/function_graph_solver/solver.py:81 | a node with no parents leaves the dictionary as it was |
| Solver.ExtendOne | solve_arc/function_graph_solver/solver.py:83 | one `children[parent].add(node)` extends the dictionary by that parent |
| Solver.AddChild | solve_arc/function_graph_solver/solver.py:81-83 | the inner loop files the node under every parent of its arguments |
| Solver.BranchingFactor | solve_arc/function_graph_solver/solver.py:77-88 | 0 exactly when no node has a parent, otherwise the sum of the child-set sizes over the number of parents (parents keyed by value), which lies between 1 and the number of nodes |
| Solver.MeanBounds | solve_arc/function_graph_solver/solver.py:88 | a mean of sizes each between 1 and `n` lies between 1 and `n` |
| Solver.SumSizes | solve_arc/function_graph_solver/solver.py:88 | the loop gives the number of parents and exactly the sum of the sizes of their child sets |
| Solver.SizeSumRemove | solve_arc/function_graph_solver/solver.py:88 | the sum of the child-set sizes does not depend on the order in which the dictionary is walked |
| Solver.SizeSumBounds | solve_arc/function_graph_solver/solver.py:88 | a sum of child-set sizes, each between 1 and `n`, lies between the number of parents and that number times `n` |
| Solver.ChildrenSizes | solve_arc/function_graph_solver/solver.py:78-83 | every child set of the dictionary holds between 1 and all the nodes |
| FunctionSampling.MapColorNode | solve_arc/function_graph_solver/function_sampling.py:22-24 | the expansion applies `map_color` to the drawn node and two colours, and is well formed exactly when that node is |
| FunctionSampling.MapColorNodeDepth | solve_arc/function_graph_solver/function_sampling.py:24 | an expansion is one level deeper than the node it expands |
| FunctionSampling.PoolGrows | solve_arc/function_graph_solver/function_sampling.py:26 | adding a node keeps every node filed under its value, and an equal node already present stays |
| FunctionSampling.Graph.constructor | solve_arc/function_graph_solver/function_sampling.py:11-15 | the graph holds the initial nodes, the target and the full budget |
| FunctionSampling.Graph.Expand | solve_arc/function_graph_solver/function_sampling.py:17-37 | `NoRemainingExpansions` with nothing changed once the budget is spent; otherwise one unit of budget is spent, an empty pool then raises `IndexError` at the draw, and a non-empty pool gets a `map_color` node over a drawn node and two distinct colours, reported when it is the target |
| KaggleFormat.AttemptsOf | solve_arc/kaggle/submission.py:51-52 | a single grid is one attempt, and a list of attempts is kept as it is |
| KaggleFormat.RowText | solve_arc/kaggle/submission.py:68 | a row is written as one digit per cell, in order |
| KaggleFormat.RowTexts | solve_arc/kaggle/submission.py:68 | each row of the grid is written as its digits, in order |
| KaggleFormat.FormatGrid | solve_arc/kaggle/submission.py:62-69 | `AssertionError` exactly when a cell is not a colour `0..9`; otherwise a text between two bars |
| KaggleFormat.FormatGridRoundTrip | solve_arc/kaggle/submission.py:62-69 | a formatted grid whose rows are not empty reads back as the grid |
| KaggleFormat.FormatGridExample | solve_arc/kaggle/test_submission.py:7-10 | `[[1, 2], [3, 4]]` is written `\|12\|34\|` |
| KaggleFormat.GridTexts | solve_arc/kaggle/submission.py:56 | each attempt is written by `format_grid`, in order |
| KaggleFormat.Row | solve_arc/kaggle/submission.py:56-57 | a row is written exactly when every attempt is a grid of colours, and otherwise raises `AssertionError` |
| KaggleFormat.GridTextChars | solve_arc/kaggle/submission.py:68-69 | a formatted grid holds only digits and bars |
| KaggleFormat.KeyRoundTrip | solve_arc/kaggle/submission.py:57 | the key `<task id>_<index>` reads back as its task id and index |
| KaggleFormat.AttemptsRoundTrip | solve_arc/kaggle/submission.py:56 | the space-joined attempts read back as the grids |
| KaggleFormat.RowRoundTrip | solve_arc/kaggle/submission.py:56-57 | a row reads back as its task id, its index and its attempts |
| Submission.FormatAttempts | solve_arc/kaggle/submission.py:56 | the attempts are formatted exactly when every one is a grid of colours, in order, and otherwise `AssertionError` |
| Submission.FormatResult | solve_arc/kaggle/submission.py:49-57 | the row of one result exactly when it has at most three attempts of colours, the attempts unpadded; otherwise `AssertionError` |
| Submission.FormatResults | solve_arc/kaggle/submission.py:47-59 | one row per result, in order, exactly when every result has at most three attempts of colours; otherwise `AssertionError` |
| Submission.ResultsRoundTrip | solve_arc/kaggle/submission.py:47-59 | each row of an accepted result reads back as its task id, the result's index and its attempts |
| KaggleDataset.Padded | solve_arc/dataset/kaggle.py:30-32 | the attempts are kept and followed by zero grids of the first attempt's shape up to three |
| KaggleDataset.PaddedDigits | solve_arc/dataset/kaggle.py:30-32 | the padding is a grid of colours, so it never makes a result fail |
| KaggleDataset.FormatResults | solve_arc/dataset/kaggle.py:21-37 | one row per result with its attempts padded to three, exactly when every result is a single grid or a list of one to three attempts of colours; otherwise the error of the first result that is not (`AssertionError` for too many attempts or a bad colour, `IndexError` for none, `TypeError` for a tuple of grids, which `+=` cannot extend) |
| KaggleDataset.PaddedExample | solve_arc/dataset/test_kaggle.py:14-20 | a single 2x3 grid is followed by two 2x3 zero grids |
| KaggleDataset.ResultsRoundTrip | solve_arc/dataset/kaggle.py:21-37 | each row reads back as its task id, the result's index, its attempts and the zero grids after them |
| Text.IntRoundTrip | solve_arc/language/arguments.py:92 | the decimal text of an integer reads back as the integer |
| KaggleDataset.FormatResult | solve_arc/dataset/kaggle.py:25-35 | a row exactly when the result is a single grid or a list of one to three attempts of colours, and then the row of the attempts padded to three; otherwise `AssertionError` for more than three, `IndexError` for none, `TypeError` for a `Grids` tuple and `AssertionError` for a bad colour |

## Left out

- The loss and the likelihood weights that bias sampling in `full_search.py` use floating point. A draw is any candidate.
- The random generators and their seeds are not modelled. Every draw is a nondeterministic choice over the values the draw can produce.
- In `function_sampling.py` the colour weights are not modelled. Every colour has a positive weight, and the draw of two colours is without replacement, so any two distinct colours may be drawn. `operation_probs` only holds `map_color`, so only that operation is modelled.
- Logging, `print`, file and dataset I/O are not modelled. This covers `generate_submission`, `write_submission` and the test-data path. Timeouts are left out too.
- `Statistics` of `solver.py` is modelled only as its three fields and their formatting (`Solver.FormatFields`). A `Solver.Solution` carries no statistics, because they only feed the debug log.
- `solver.py` imports a `Vector` that the shown `vectorize.py` does not define. Source and target tuples are modelled as plain value tuples.
- `sampling_search.py:30` passes two arguments to the one-argument generator it imports. The generator of a round is the parameter `generate`, which must propose well-formed terms.
- `reduce_all` is not in the shown `vectorize.py`. Its uses are read as "the predicate holds at every position".
- The implementations of the operations that the generators name but the shown files do not define are left out. Examples are `extract_selected_area`, `concatenate_*`, `split_*`, `get_item` and `sort_by_area`. Their effect is the parameter `sem`.
- `Compositions`: `extract_selected_area` is the `crop` parameter.
- The wrappers of `vectorize.py` compare by the hash of what they wrap. Equality of two wrappers is modelled as datatype equality of `Iter` values and operation names. No lemma states it separately.
- Set iteration order is not modelled. Where a loop over a set matters, a method enumerates the set in an order it does not fix (`FullSearch.Enumerate`).
- Grids of zero rows with a width cannot be written as `seq<seq<int>>`. The shape of an empty grid is `(0, 0)`.
- `format_grid` first asserts that every cell is a whole number. Cells are integers here, so only the `0..9` assertion is modelled.
- `KaggleDataset.FormatResult`: in `dataset/kaggle.py`, `result += [...]` extends the caller's list in place. Only the padded copy is returned, and the caller's list is not modelled. A single grid has no `__len__`, is wrapped, and so is never extended in place.
- `Values.Multiply`: keeps `None` where `None * 2` would raise `TypeError`. Its callers multiply the heights of grid nodes and of the target, which are never `None` (full_search.py:327, 337, 366-372).
- `Solver.Parents`: a constant is keyed by its element, as `Constant.__hash__` and `repeat.__hash__` hash the wrapped value. A constant whose element hashes equal to a node's value tuple would share that node's key in the code. Such hash collisions are not modelled.
- `Selection.SplitAreas`: the order of the areas is not stated. `unassigned.pop()` takes an arbitrary cell of a set, so the order is arbitrary in the code too. The contract states only that each area is closed under the neighbour relation with respect to the areas found after it.
- `Selection.Connected`: connectedness is reachability from one root cell along neighbour steps inside the set. For the symmetric neighbour relations of `selection.py` this is ordinary connectedness.
- `Solver.BranchingFactor`: the mean is an exact real number. `statistics.mean` returns the float nearest to it, and that rounding is not modelled.
- `Terms.Lift`: when every argument is an endless `repeat`, `zip` would never stop. The model gives an empty tuple there, and no node of a search is built that way.
- `FullSearch.Graph.Solve`: the `for _ in count()` loop runs at most `fuel` times. A search that has not ended after `fuel` expansions returns `None`.
- `Solver.Solve`: the search's rounds are bounded by `fuel`, as in `FullSearch.Graph.Solve`.
- `Solver.Solve`: models `solve` with `graph_factory` set to the graph of `full_search.py`. The default factory is the graph of `function_generation.py` (imported as `full_search_graph`, solver.py:8 and 17). Its `__init__` takes only `target` (function_generation.py:27), so the call `graph_factory({source_node}, target)` at solver.py:24 raises `TypeError`, and that graph has no `solve` either. Only the early return when the source already equals the target works with the default. The `full_search.py` graph also fails as written, at full_search.py:88 and :71 (see "## Findings"). `Solver.Solve` runs the corrected graph: `Graph.Process` compares `node.depth()`, and `usages` is a parameter of `Graph.Expand`. A found node also fails as written, while its statistics are logged at solver.py:28-29 (see "## Findings" and `Solver.SolveAsWritten`). `Solver.Solve` returns it, as the statistics with `node.depth()` would let it.
- `FullSearch.Graph.Expand`: `usages` is a parameter, because no node class of the shown files defines it.
- `FunctionGeneration.ExtractMaskedAreasFunctions`: models the code as written. It compares the grid's shapes with the first position's masks only and names the single-mask operation. No lemma claims more.
- Masks of `function_generation.py` are the selections of `arguments.py`. `Mask` is not defined in the shown files.
- `used_colors` of the generators is the intersection over positions. The several copies of it in the code are modelled once, as `Values.UsedColorsOf`.
- `Arguments.ClassesDiffer`: the model keeps `GridsV([])` and `SelectionsV([])` apart. In the code, `Grids(())` equals `Selections(())`, because both are tuples and tuple equality ignores the subclass. Empty sequences are not given a class-blind equality here.
- `FunctionGeneration.Graph.Generate`: proposes the logic candidates of every pair node (`FunctionGeneration.LogicFunctions`), not the late-bound ones of the code as written (see "## Findings").

## Findings

| source | as written | input that shows it | evidently intended | confidence | as-written member | corrected member |
|---|---|---|---|---|---|---|
| solve_arc/state_tree_solver/argument.py:34 | the recursive call leaves out `expected_type`, so below one list level a grid is always expected | a selection inside a one-element list, with a selection expected, raises `ArgumentError`; a grid inside a one-element list is accepted where a selection is expected | pass `expected_type` down, so that any number of one-element lists around a value of the expected type is removed | not executed | Argument.ExpectedTypeDropped | Argument.ExtractScalarSpec |
| solve_arc/state_tree_solver/argument.py:64 | the recursive call leaves out `expected_type` | two selections inside a one-element list, with a pair of selections expected, raise `ArgumentError` | pass `expected_type` down | not executed | Argument.ExpectedTypeDropped | Argument.ExtractTupleWrapped |
| solve_arc/function_graph_solver/function_generation.py:224-228 | the item test is a generator expression, which is always true, so only `__len__` is checked | a node whose one position is a tuple of selections is filed among the grid sequences | every item of every position has the requested type | not executed | Values.SelectionsAmongGridSequences | FunctionGeneration.Graph.Sequences |
| solve_arc/function_graph_solver/full_search.py:88 | `node.depth < self.max_depth` compares the bound method `depth` with an integer, which raises `TypeError` | any node whose value is valid at every position, such as the source node of `solve` | compare `node.depth()` with `max_depth` | not executed | FullSearch.DepthGuardRaises | FullSearch.Graph.Process |
| solve_arc/function_graph_solver/full_search.py:71 | `node.usages` is read, but no node class defines `usages`, so it raises `AttributeError` | any graph with an expandable node | keep the nodes used at most `max_usages` times | not executed | FullSearch.UsagesRaises | FullSearch.Graph.Expand |
| solve_arc/function_graph_solver/full_search.py:196 | `node.operation` is read, but `Function` stores its callable as `callable_`, so it raises `AttributeError` | any computed grid node in the batch, such as `flip_up_down` of the source | skip only nodes whose callable is the vectorized `switch_color` | not executed | FullSearch.SwitchGuardRaises | FullSearch.SwitchHeuristic |
| solve_arc/function_graph_solver/function_generation.py:69 | `arg.operation` is read, but `Function` stores its callable as `callable_`, so it raises `AttributeError` | any computed grid node of the graph | skip only nodes whose callable is the vectorized `switch_color` | not executed | FullSearch.SwitchGuardRaises | FunctionGeneration.SwitchHeuristic |
| solve_arc/function_graph_solver/function_generation.py:199-203 | `unpack` builds a set of generator expressions that read the comprehension variable `arg` only when consumed, so every pair `logic_functions` unpacks at line 160 holds the items of the last pair node the comprehension visited | two same-shape pairs of grids among the graph's tuple nodes: three logic candidates instead of six | each pair node contributes the three operations on its own two items | not executed | FunctionGeneration.LogicFunctionsAsWritten | FunctionGeneration.LogicFunctions |
| solve_arc/function_graph_solver/solver.py:67-74 | `from_graph` stores the bound method `node.depth`, and `__str__` formats it with `{:.2f}`, which raises `TypeError` when `solve` logs the statistics | any constraints whose source differs from the target and for which the search finds a node | store `node.depth()`, so that the found node is returned as a solution | not executed | Solver.SolveAsWritten | Solver.Solve |
