# Hexomino in Dafny

A model of the deterministic core of the hexomino game, with proofs about it.
The game has two players. First they take turns picking hexominoes from a common pool. Then they take turns placing their pieces on a grid. The player who cannot place any piece they still hold loses.

The model covers the following parts, one Dafny module per source file:

- **The piece generator** (`hexomino-core/gen_hexos/gen.py`), which builds the piece table.
  - `GenPoint`: points.
  - `PolySort`: sorting and the order on shapes.
  - `Canon`: canonical forms.
  - `Generate`: growing shapes cell by cell.
  - `Borders`: outlines and the six-cell assertion.
- **Lattice geometry and pieces.**
  - Current code: `Positions` (`pos.rs`), `Hexos` and `HexoSets` (`hexo.rs`).
  - Older copy: `OldPoints` (`src/game/point.rs`), `OldHexos` (`src/game/hexo.rs`).
  - `RustInt`: Rust's truncating `%` and `/` on `i32`, where the sign matters.
- **The game state machine.**
  - `Players`: players.
  - `Outcomes`: `Ok`/`Err` results.
  - `CoreState`: `hexomino-core/src/state.rs`.
  - `Boards`: `src/game/board.rs`.
  - `OldState`: `src/game/state.rs`.
    - The struct `State` is modelled as the class `Game`.
    - The `_State` enum is modelled as the class `Machine` over the datatype `Stage`.
  - `OldGame`: `src/game/mod.rs`, including its own `Board`.
  - Unit tests: `CoreStateTests`, `BoardTests`, `OldStateTests` and `OldGameTests`.
- **Server and client bookkeeping.**
  - `MatchHistories`: `hexomino-server/src/kernel/match_history.rs`.
  - `Rooms`: `hexomino-server/src/kernel/room.rs`.
  - `RoomsView`: the lobby's filter and sort in `hexomino-web/src/view/rooms.rs`.

The model follows these conventions:

- **Constants.** The game uses the test build's constants: `ROWS = 4`, `COLS = 6` and `N_HEXOS = 2`. The two pieces are an L shape (id 0) and the straight piece (id 1). These constants pin down the unit tests, which are restated as methods whose `ensures` are the tests' assertions.
- **Objects and state.** Objects the code updates in place are classes:
  - boards (a 2-D `array2<bool>`);
  - the game states;
  - the inventory's three `HexoSet` bit sets;
  - rooms, the room manager, users and the match history.

  Values are datatypes. A state-changing method states its new state in terms of the old. Its partner properties are class invariants (`Valid`), a decreasing `Measure`, and the scenarios of the unit tests.
- **The inventory.**
  - Its per-player array of sets is two fields, `firstHand` and `secondHand`, picked by `HexosOf`.
  - The `HexoSet` of `src/game/hexo.rs` is the same code as the core's, so both are modelled once, by `HexoSets`.
  - The `Inventory` of `src/game/state.rs` is the core's, so it too is modelled once, by `CoreState.Inventory`.
- **The core's board.** `hexomino-core/src/board.rs` is not part of this model.
  - The core state uses the `Boards.Board` of `src/game/board.rs`.
  - The core's grid has `COLS` cells along `x` and `ROWS` along `y`. That is the only reading under which the core's own placement tests (`hexomino-core/src/state.rs:308-349`) hold.
  - The older code uses `ROWS` along `x`.
- **Behaviour that differs from the specification.** In these cases the model follows the code.
  - `hexo_borders` does not check the cell count. The six-cell assertion is in `hexo_to_repr` (`gen.py:87`), and `Borders.HexoToRepr` models it there.
  - The core tests `hexo_transform_flip` and `hexo_transform_flip_rotate` (`hexomino-core/src/state.rs:251-268`, `289-306`) expect the older flip (negate `y`). The core's `Pos::flip` negates `x`, so with the core's code the mirrored L leaves the board and the placement is refused. See ## Findings. The copies of these tests in `src/game/state.rs` fail in the same way only if that file's missing pieces are the core's, as `OldState` assumes (see ## Left out). With the older y-negating flip they pass, as `OldGameTests.FlipShowsOnBoard` shows for the copy in `src/game/mod.rs`.
  - In `src/game/mod.rs`, `board` and `current_player` are plain field reads.
- **Python's `sorted`** is an insertion sort (`PolySort.Sort`). `PolySort.SortedUnique` shows that any sort giving a sorted permutation gives the same list.

## Model

| member | source | states |
|---|---|---|
| GenPoint.Add | hexomino-core/gen_hexos/gen.py:13-14 | `__add__`: the coordinatewise sum |
| GenPoint.Sub | hexomino-core/gen_hexos/gen.py:16-17 | `__sub__`: the coordinatewise difference |
| GenPoint.Reflect | hexomino-core/gen_hexos/gen.py:19-20 | `reflect`: the mirror image (x, y) ↦ (−x, y) |
| GenPoint.Rotate | hexomino-core/gen_hexos/gen.py:22-23 | `rotate`: the quarter turn (x, y) ↦ (−y, x) |
| GenPoint.Lt | hexomino-core/gen_hexos/gen.py:25-26 | `__lt__`: the order of the tuples (x, y), x first, then y |
| GenPoint.AddSubRoundTrip | hexomino-core/gen_hexos/gen.py:13-17 | subtracting what was added gives the point back, and the reverse; the origin is the identity of `+` |
| GenPoint.ReflectInvolution | hexomino-core/gen_hexos/gen.py:19-20 | reflecting twice is the identity |
| GenPoint.RotateFourTimes | hexomino-core/gen_hexos/gen.py:22-23 | four quarter turns are the identity; fewer turns move every point except the origin |
| GenPoint.RotateUnfold | hexomino-core/gen_hexos/gen.py:22-23 | one, two and three turns are (-y, x), (-x, -y) and (y, -x) |
| GenPoint.RotateAfterReflect | hexomino-core/gen_hexos/gen.py:19-23 | rotating a reflection equals reflecting three turns; the dihedral relations |
| GenPoint.TransformsAreLinear | hexomino-core/gen_hexos/gen.py:13-23 | rotation and reflection distribute over `+` |
| GenPoint.AdjacentKept | hexomino-core/gen_hexos/gen.py:13-23 | mirroring, turning and shifting two cells keeps them adjacent, and keeps them apart |
| GenPoint.LtIsStrictTotalOrder | hexomino-core/gen_hexos/gen.py:25-26 | `__lt__` is irreflexive, asymmetric, transitive and total, and is invariant under translation |
| PolySort.Insert | hexomino-core/gen_hexos/gen.py:36-38 | inserting adds exactly one element |
| PolySort.InsertSpec | hexomino-core/gen_hexos/gen.py:36-38 | insertion adds the point to the multiset and keeps a sorted list sorted |
| PolySort.InsertMultiset | hexomino-core/gen_hexos/gen.py:36-38 | insertion adds exactly the point to the multiset |
| PolySort.InsertSorted | hexomino-core/gen_hexos/gen.py:36-38 | insertion keeps a sorted list sorted |
| PolySort.Sort | hexomino-core/gen_hexos/gen.py:36-38 | `sorted` keeps the length |
| PolySort.SortSpec | hexomino-core/gen_hexos/gen.py:36-38 | `sorted` returns a sorted permutation of its input |
| PolySort.SortedUnique | hexomino-core/gen_hexos/gen.py:36-38 | two sorted lists with the same multiset are equal, so every correct sort gives the same list |
| PolySort.SortedHeads | hexomino-core/gen_hexos/gen.py:36-38 | two sorted permutations start with the same point |
| PolySort.TailMultiset | hexomino-core/gen_hexos/gen.py:36-38 | permutations with the same head have permuted tails |
| PolySort.SortPermutation | hexomino-core/gen_hexos/gen.py:36-38 | permuted inputs sort to the same list |
| PolySort.SortSorted | hexomino-core/gen_hexos/gen.py:36-38 | sorting a sorted list leaves it unchanged |
| PolySort.Map | hexomino-core/gen_hexos/gen.py:30-34 | mapping a point function over a shape keeps its length |
| PolySort.RemoveAt | hexomino-core/gen_hexos/gen.py:36-38 | removing the matched head from both sides keeps two multisets equal |
| PolySort.Translate | hexomino-core/gen_hexos/gen.py:36-38 | translating keeps the length |
| PolySort.MapMultiset | hexomino-core/gen_hexos/gen.py:30-34 | mapping preserves multiset equality |
| PolySort.TranslateIsMap | hexomino-core/gen_hexos/gen.py:36-38 | a translation is the map of `p + d` |
| PolySort.TranslatePreserves | hexomino-core/gen_hexos/gen.py:36-38 | translation preserves permutation, sortedness and distinctness |
| PolySort.SortTranslate | hexomino-core/gen_hexos/gen.py:36-38 | sorting commutes with translation |
| PolySort.DistinctMultiset | hexomino-core/gen_hexos/gen.py:36-38 | a shape has distinct points iff no point occurs twice in its multiset |
| PolySort.DistinctPermutation | hexomino-core/gen_hexos/gen.py:36-38 | distinctness survives permutation |
| PolySort.PolyLtStrictTotal | hexomino-core/gen_hexos/gen.py:40-47 | the tuple order `min` uses is irreflexive, asymmetric and total |
| PolySort.PolyLtTransitive | hexomino-core/gen_hexos/gen.py:40-47 | the tuple order is transitive |
| Canon.ReflectPoly | hexomino-core/gen_hexos/gen.py:30-31 | reflecting a shape keeps its size |
| Canon.RotatePoly | hexomino-core/gen_hexos/gen.py:33-34 | rotating a shape keeps its size |
| Canon.PolyMaps | hexomino-core/gen_hexos/gen.py:30-34 | `reflect` and `rotate` map the point operation over every cell |
| Canon.RotatePolyN | hexomino-core/gen_hexos/gen.py:33-34 | k rotations keep the size |
| Canon.MinimalRepr | hexomino-core/gen_hexos/gen.py:36-38 | `minimal_repr` keeps the number of points |
| Canon.MinimalReprIsTranslatedSort | hexomino-core/gen_hexos/gen.py:36-38 | `minimal_repr` is the sorted shape translated so that its least point is the origin |
| Canon.MinimalReprShape | hexomino-core/gen_hexos/gen.py:36-38 | the result is sorted and starts at the origin |
| Canon.MinimalReprIsTranslatedPermutation | hexomino-core/gen_hexos/gen.py:36-38 | the result is a permutation of the translated input |
| Canon.MinimalReprTranslate | hexomino-core/gen_hexos/gen.py:36-38 | translating the input does not change `minimal_repr` |
| Canon.Image | hexomino-core/gen_hexos/gen.py:40-47 | every dihedral image keeps the size |
| Canon.Candidates | hexomino-core/gen_hexos/gen.py:40-47 | `all_repr` yields eight candidates |
| Canon.CandidateImage | hexomino-core/gen_hexos/gen.py:40-47 | candidate 2t (+1 if reflected) is `minimal_repr` of t turns (then a reflection) |
| Canon.CandidateAt | hexomino-core/gen_hexos/gen.py:40-47 | the candidates alternate between the plain and the reflected image of each turn |
| Canon.CandidatesListed | hexomino-core/gen_hexos/gen.py:40-47 | the eight candidates in loop order |
| Canon.MinOf | hexomino-core/gen_hexos/gen.py:46 | Python's `min` over a non-empty list: the running minimum, replaced only by a strictly smaller item, so the first least item wins |
| Canon.Normalize | hexomino-core/gen_hexos/gen.py:40-47 | `normalize`: the first least `minimal_repr` among the eight images, in `all_repr` order |
| Canon.MinOfSpec | hexomino-core/gen_hexos/gen.py:40-47 | `min` returns a member that no member is below |
| Canon.NormalizeIsLeast | hexomino-core/gen_hexos/gen.py:40-47 | `normalize` is a candidate and no candidate is smaller |
| Canon.NormalizeShape | hexomino-core/gen_hexos/gen.py:40-47 | `normalize` keeps the size, is sorted and starts at the origin |
| Canon.NormalizeLoop | hexomino-core/gen_hexos/gen.py:40-47 | the loop over the eight images returns the least candidate |
| Canon.Offer | hexomino-core/gen_hexos/gen.py:40-47 | offering the next candidate keeps the running minimum |
| Canon.MinOfSnoc | hexomino-core/gen_hexos/gen.py:40-47 | the minimum of a longer prefix is the smaller of the old minimum and the new element |
| Canon.MinUnique | hexomino-core/gen_hexos/gen.py:40-47 | a least element is unique |
| Canon.SameMembersSameMin | hexomino-core/gen_hexos/gen.py:40-47 | lists with the same members have the same minimum |
| Canon.RotatePolyNAt | hexomino-core/gen_hexos/gen.py:33-34 | k rotations of a shape rotate each cell k times |
| Canon.RotateNShift | hexomino-core/gen_hexos/gen.py:22-23 | k turns of a turned point are k + 1 turns |
| Canon.RotatePolyNShift | hexomino-core/gen_hexos/gen.py:33-34 | k rotations of a rotated shape are k + 1 rotations |
| Canon.RotatePolyFour | hexomino-core/gen_hexos/gen.py:33-34 | four rotations give the shape back |
| Canon.RotateReflected | hexomino-core/gen_hexos/gen.py:30-34 | rotating a reflection is reflecting the opposite rotation |
| Canon.ReflectTwice | hexomino-core/gen_hexos/gen.py:30-31 | reflecting a shape twice gives it back |
| Canon.ImagesOfRotated | hexomino-core/gen_hexos/gen.py:40-47 | the images of a rotated shape are the images of the shape, shifted by one turn |
| Canon.ImagesOfReflected | hexomino-core/gen_hexos/gen.py:40-47 | the images of a reflected shape are the images of the shape with the mirror toggled |
| Canon.NormalizeRotate | hexomino-core/gen_hexos/gen.py:40-47 | `normalize` is invariant under rotation |
| Canon.NormalizeReflect | hexomino-core/gen_hexos/gen.py:40-47 | `normalize` is invariant under reflection |
| Canon.NormalizeRotateN | hexomino-core/gen_hexos/gen.py:40-47 | `normalize` is invariant under any number of rotations |
| Canon.NormalizeImage | hexomino-core/gen_hexos/gen.py:40-47 | `normalize` is invariant under every dihedral image |
| Canon.RotatePolyNTranslate | hexomino-core/gen_hexos/gen.py:33-34 | rotating a translated shape is translating the rotated shape by the rotated offset |
| Canon.ReflectPolyTranslate | hexomino-core/gen_hexos/gen.py:30-31 | the same for reflection |
| Canon.CandidateTranslate | hexomino-core/gen_hexos/gen.py:36-47 | translating the input does not change any candidate |
| Canon.NormalizeTranslate | hexomino-core/gen_hexos/gen.py:40-47 | `normalize` is invariant under translation |
| Canon.RotatePolyNPermutation | hexomino-core/gen_hexos/gen.py:33-34 | rotation preserves permutation |
| Canon.CandidatePermutation | hexomino-core/gen_hexos/gen.py:36-47 | permuting the input does not change any candidate |
| Canon.NormalizePermutation | hexomino-core/gen_hexos/gen.py:40-47 | permuting the cells does not change `normalize` |
| Canon.NormalizeCandidate | hexomino-core/gen_hexos/gen.py:40-47 | every candidate normalizes to the same form as the shape |
| Canon.NormalizeIsCandidate | hexomino-core/gen_hexos/gen.py:40-47 | `normalize` is the `minimal_repr` of some rotation and mirror of the shape |
| Canon.NormalizeIdempotent | hexomino-core/gen_hexos/gen.py:40-47 | `normalize` is idempotent |
| Canon.NormalizeInvariant | hexomino-core/gen_hexos/gen.py:19-47 | any rotation, reflection and translation of a shape normalizes to the same form |
| Canon.RotateNInjective | hexomino-core/gen_hexos/gen.py:22-23 | turning never sends two points to one |
| Canon.CandidateDistinct | hexomino-core/gen_hexos/gen.py:36-47 | candidates of a shape with distinct cells have distinct cells |
| Canon.NormalizeDistinct | hexomino-core/gen_hexos/gen.py:40-47 | `normalize` keeps the cells distinct |
| Generate.GenerateFromPoly | hexomino-core/gen_hexos/gen.py:49-57 | yields exactly the normalized shapes got by adding a free neighbour of some cell |
| Generate.SetToList | hexomino-core/gen_hexos/gen.py:69 | `list(results)` holds each member of the set once |
| Generate.Generate | hexomino-core/gen_hexos/gen.py:59-69 | `generate(n)` holds exactly the shapes grown n − 1 times from one cell, with no duplicates; `generate(1)` is `[[(0,0)]]`. Every shape it holds has n distinct, edge-connected cells in canonical form |
| Generate.CollectedGrowths | hexomino-core/gen_hexos/gen.py:64-69 | the set collected from `generate(n-1)` is exactly the shapes of size n |
| Generate.CollectedComplete | hexomino-core/gen_hexos/gen.py:64-69 | every shape of size n grows from some shape of `generate(n-1)` |
| Generate.InGenStep | hexomino-core/gen_hexos/gen.py:59-69 | a growth of a generated shape is generated at the next size |
| Generate.GrowthCell | hexomino-core/gen_hexos/gen.py:49-57 | a growth adds one cell that was not occupied, then normalizes |
| Generate.GrowthShape | hexomino-core/gen_hexos/gen.py:49-57 | a growth has one more cell, keeps the cells distinct and is in canonical form |
| Generate.Predecessor | hexomino-core/gen_hexos/gen.py:59-69 | every generated shape of size n ≥ 2 grows from one of size n − 1 |
| Generate.GrownFrom | hexomino-core/gen_hexos/gen.py:59-69 | a generated shape is one cell larger than its predecessor, with distinct cells if it has them |
| Generate.SingletonRepr | hexomino-core/gen_hexos/gen.py:36-38 | the `minimal_repr` of one cell is the origin |
| Generate.SingleCellCanonical | hexomino-core/gen_hexos/gen.py:40-47 | one cell normalizes to `[(0,0)]` |
| Generate.GeneratedShape | hexomino-core/gen_hexos/gen.py:59-69 | every member of `generate(n)` has n distinct, edge-connected cells and is in canonical form |
| Generate.NextGeneration | hexomino-core/gen_hexos/gen.py:63-69 | from a list holding exactly the shapes of size n − 1, the step of `generate` builds a list holding exactly the shapes of size n, without duplicates |
| Generate.GrowAll | hexomino-core/gen_hexos/gen.py:64-67 | the set filled by the loop over `prev_results` holds exactly the growths of the listed shapes |
| Generate.ListedShapes | hexomino-core/gen_hexos/gen.py:59-69 | a list holding exactly the shapes of `generate(n)` holds only shapes of n distinct, edge-connected cells in canonical form |

| Generate.GeneratedSize | hexomino-core/gen_hexos/gen.py:59-69 | every member of `generate(n)` has n cells |
| Generate.GeneratedDistinct | hexomino-core/gen_hexos/gen.py:59-69 | every member of `generate(n)` has distinct cells |
| Generate.OneCellShape | hexomino-core/gen_hexos/gen.py:59-62 | the base case: one distinct cell, in canonical form |
| Generate.GeneratedUpToSymmetry | hexomino-core/gen_hexos/gen.py:64-69 | two generated shapes that are rotations, reflections or translations of each other are equal: no duplicates up to symmetry |
| Generate.MapChain | hexomino-core/gen_hexos/gen.py:19-23 | a map that keeps adjacent cells adjacent keeps every cell of a chain touching an earlier one |
| Generate.MapConnected | hexomino-core/gen_hexos/gen.py:19-23 | such a map keeps a shape edge-connected |
| Generate.RotateNConnected | hexomino-core/gen_hexos/gen.py:33-34 | turning a shape any number of times keeps it edge-connected |
| Generate.CandidateConnected | hexomino-core/gen_hexos/gen.py:36-47 | each of the eight images of an edge-connected shape, and its `minimal_repr`, is edge-connected |
| Generate.NormalizeConnected | hexomino-core/gen_hexos/gen.py:40-47 | `normalize` keeps a shape edge-connected |
| Generate.GrowthConnected | hexomino-core/gen_hexos/gen.py:49-57 | adding a free neighbour of a cell to an edge-connected shape and normalising gives an edge-connected shape |
| Generate.GeneratedConnected | hexomino-core/gen_hexos/gen.py:59-69 | every member of `generate(n)` is edge-connected |
| Generate.Column | hexomino-core/gen_hexos/gen.py:110 | the straight column of n cells (0, 0) … (0, n − 1). `I` is the column of six |
| Generate.ColumnIsLeast | hexomino-core/gen_hexos/gen.py:40-47 | a sorted shape of distinct cells whose cell k − 1 is the column's is not below the column from cell k on |
| Generate.ColumnCanonical | hexomino-core/gen_hexos/gen.py:40-47 | a column is its own `normalize` form |
| Generate.ColumnGenerated | hexomino-core/gen_hexos/gen.py:59-69 | every column of n ≥ 1 cells is among the shapes `generate(n)` yields |
| Generate.ColumnWhenCandidate | hexomino-core/gen_hexos/gen.py:40-47 | a shape of distinct cells that has the column of as many cells among its eight candidates normalises to that column |
| Generate.PairSort | hexomino-core/gen_hexos/gen.py:37 | two cells sort into the same list in either order |
| Generate.PairRepr | hexomino-core/gen_hexos/gen.py:36-38 | the `minimal_repr` of two cells, in either order, is the origin and the step from the lesser cell to the greater |
| Generate.VerticalRepr | hexomino-core/gen_hexos/gen.py:36-38 | a vertical domino from the origin, up or down, has the upright domino as `minimal_repr` |
| Generate.VerticalCandidate | hexomino-core/gen_hexos/gen.py:40-47 | the upright domino is candidate 0 of a vertical domino from the origin |
| Generate.HorizontalCandidate | hexomino-core/gen_hexos/gen.py:40-47 | the upright domino is candidate 2 (one turn) of a horizontal domino from the origin |
| Generate.DominoCanonical | hexomino-core/gen_hexos/gen.py:40-47 | every domino from the origin normalises to the upright domino |
| Generate.DominoOnly | hexomino-core/gen_hexos/gen.py:59-69 | `generate(2)` is exactly `[(0,0), (0,1)]`, both directions: the count 1 at n = 2 |
| Borders.Side | hexomino-core/gen_hexos/gen.py:71-84 | each side lists its order-larger corner first |
| Borders.CellSides | hexomino-core/gen_hexos/gen.py:74-78 | a cell has four sides |
| Borders.AllSides | hexomino-core/gen_hexos/gen.py:71-84 | a shape has four sides per cell |
| Borders.TallyStep | hexomino-core/gen_hexos/gen.py:77-79 | `counter[e] += 1` keeps the counter equal to the tally of the sides seen |
| Borders.CountSides | hexomino-core/gen_hexos/gen.py:72-79 | the counting loop leaves every side's tally and the keys in first-seen order |
| Borders.CountCell | hexomino-core/gen_hexos/gen.py:74-79 | counting one cell adds its four sides to the tally |
| Borders.CountSide | hexomino-core/gen_hexos/gen.py:77-79 | counting one side adds it to the tally |
| Borders.CellSidesPrefix | hexomino-core/gen_hexos/gen.py:74-78 | the sides of a cell are walked in order |
| Borders.HexoBorders | hexomino-core/gen_hexos/gen.py:71-84 | `hexo_borders` returns the sides counted once, in counter order |
| Borders.SelectTallied | hexomino-core/gen_hexos/gen.py:80-84 | the selection loop keeps exactly the keys counted once |
| Borders.DedupMembers | hexomino-core/gen_hexos/gen.py:72-79 | the counter's keys are the sides seen, each once |
| Borders.SelectOnceMembers | hexomino-core/gen_hexos/gen.py:80-84 | the selection holds a key iff it was counted once, with no repeats |
| Borders.OuterBordersSpec | hexomino-core/gen_hexos/gen.py:71-84 | an edge is in the outline iff it occurs once among all cell sides; the outline has no repeats; larger corner first |
| Borders.AllSidesOrdered | hexomino-core/gen_hexos/gen.py:71-84 | every side lists its larger corner first |
| Borders.SharedSideLeftOut | hexomino-core/gen_hexos/gen.py:71-84 | a side shared by two cells is never in the outline |
| Borders.TallyAtLeastOne | hexomino-core/gen_hexos/gen.py:72-79 | a side of a cell is counted at least once |
| Borders.TallyAtLeastTwo | hexomino-core/gen_hexos/gen.py:72-79 | a side of two cells is counted at least twice |
| Borders.SelectOnceAll | hexomino-core/gen_hexos/gen.py:80-84 | when every key is counted once, all are kept |
| Borders.SingleCellBorders | hexomino-core/gen_hexos/gen.py:71-84 | a single cell has its four sides as outline |
| Borders.DominoBorders | hexomino-core/gen_hexos/gen.py:71-84 | a domino has six outline sides; the shared side is dropped |
| Borders.DominoOutline | hexomino-core/gen_hexos/gen.py:71-84 | two cells sharing exactly one side have the other six sides as outline, in counter order |
| Borders.DominoDistinct | hexomino-core/gen_hexos/gen.py:74-78 | each cell's sides differ and the two cells share only one side |
| Borders.DominoSelect | hexomino-core/gen_hexos/gen.py:80-84 | of the seven keys, selection keeps all but the shared side |
| Borders.DominoSides | hexomino-core/gen_hexos/gen.py:74-78 | the eight sides of the domino's cells, in loop order |
| Borders.DominoKeys | hexomino-core/gen_hexos/gen.py:72-79 | the counter meets the shared side twice and keeps seven keys |
| Borders.DominoCounts | hexomino-core/gen_hexos/gen.py:72-79 | the shared side is counted twice and every other side once |
| Borders.SelectAllButThird | hexomino-core/gen_hexos/gen.py:80-84 | selection drops exactly the key counted twice |
| Borders.CellSidesDistinct | hexomino-core/gen_hexos/gen.py:74-78 | a cell's four sides differ |
| Borders.OutlineSize | hexomino-core/gen_hexos/gen.py:71-84 | for distinct cells, the outline has four sides per cell less two per pair of adjacent cells |
| Borders.OutlineIsOnce | hexomino-core/gen_hexos/gen.py:71-84 | the outline has one entry per side tallied exactly once |
| Borders.OnceListed | hexomino-core/gen_hexos/gen.py:80-84 | a repeat-free list of exactly the sides tallied once is as long as there are such sides |
| Borders.DistinctCard | hexomino-core/gen_hexos/gen.py:80-84 | a list without repeats has as many members as entries |
| Borders.OnceSize | hexomino-core/gen_hexos/gen.py:72-79 | after counting distinct cells, the sides tallied once number four per cell less two per adjacent pair |
| Borders.CellStep | hexomino-core/gen_hexos/gen.py:74-79 | counting a new cell adds four sides tallied once and takes back two for each of its neighbours already counted |
| Borders.OnceAppendFour | hexomino-core/gen_hexos/gen.py:74-79 | counting four different sides, each tallied at most once before, changes the sides tallied once by four less two per side already tallied |
| Borders.OnceAppend | hexomino-core/gen_hexos/gen.py:77-79 | `counter[e] += 1` adds `e` to the sides tallied once if it was new, drops it if it was there once, and changes nothing otherwise |
| Borders.SideTally | hexomino-core/gen_hexos/gen.py:72-79 | among distinct cells other than `c`, a side of `c` is tallied once if the cell across it is present and not at all otherwise |
| Borders.LastCellTally | hexomino-core/gen_hexos/gen.py:74-78 | the last cell holds a side of another cell `c` iff it is the cell across that side |
| Borders.LastSplit | hexomino-core/gen_hexos/gen.py:72-79 | an edge's tally is its tally over the earlier cells plus the last cell's |
| Borders.LastMember | hexomino-core/gen_hexos/gen.py:72-74 | a cell is in the shape iff it is one of the earlier cells or the last |
| Borders.DistinctSplit | hexomino-core/gen_hexos/gen.py:72-74 | dropping the last of distinct cells leaves distinct cells that do not contain it |
| Borders.CellTally | hexomino-core/gen_hexos/gen.py:74-78 | a cell tallies each of its own sides once and no other edge |
| Borders.SharedSide | hexomino-core/gen_hexos/gen.py:74-78 | a side of `c` is a side of another cell iff that cell is across it |
| Borders.SidesDiffer | hexomino-core/gen_hexos/gen.py:74-78 | a cell's four sides differ |
| Borders.SideForm | hexomino-core/gen_hexos/gen.py:74-78 | the four sides of a cell as pairs of corners: left, top, right, bottom |
| Borders.NeighboursAreAdjacent | hexomino-core/gen_hexos/gen.py:71-84 | among distinct cells, those across a side of `c` are exactly those adjacent to `c` |
| Borders.HexoToRepr | hexomino-core/gen_hexos/gen.py:86-89 | the assertion passes iff the shape has six cells, and then the entry holds the cells and the outline |
| Borders.EmittedShapes | hexomino-core/gen_hexos/gen.py:110-111 | the table holds the generated shapes except the straight I |
| Borders.EmittedReprsSucceed | hexomino-core/gen_hexos/gen.py:110-112 | every emitted shape of `generate(6)` passes the six-cell assertion |
| Borders.StraightIGenerated | hexomino-core/gen_hexos/gen.py:110-111 | `I` is the column of six, in canonical form, and it is generated. So the filter drops a generated shape, and `I` is not emitted |
| Positions.Add | hexomino-core/src/pos.rs:34-51 | the `Add` impls: the coordinatewise sum |
| Positions.Flip | hexomino-core/src/pos.rs:18-23 | `flip`: negates x and keeps y |
| Positions.Rotate | hexomino-core/src/pos.rs:25-31 | `rotate`: the clockwise quarter turn (x, y) ↦ (y, −x) |
| Positions.Lt | hexomino-core/src/pos.rs:5-9 | the derived `Ord` of `Pos`: x first, then y |
| Positions.AddMonoid | hexomino-core/src/pos.rs:12 | `ZERO` is the identity of `+`, which is commutative and associative |
| Positions.FlipInvolution | hexomino-core/src/pos.rs:18-23 | `flip` twice is the identity |
| Positions.RotateStep | hexomino-core/src/pos.rs:25-31 | one more turn adds one clockwise rotation; four are the identity |
| Positions.RotateTimesReduces | hexomino-core/src/pos.rs:25-31 | n rotations one by one equal n mod 4 rotations |
| Positions.KeepOrigin | hexomino-core/src/pos.rs:12-31 | flips and rotations fix `ZERO` |
| Positions.Linear | hexomino-core/src/pos.rs:18-51 | flip and rotate distribute over `+` |
| Positions.FlipRotate | hexomino-core/src/pos.rs:18-31 | flip ∘ rotate = rotate³ ∘ flip |
| Positions.LtIsStrictTotalOrder | hexomino-core/src/pos.rs:5-9 | the derived order is a strict total order, lexicographic on (x, y) |
| RustInt.RemFour | hexomino-core/src/hexo.rs:59-64 | `% 4` on `i32` lies in [0, 4) for non-negative and (-4, 0] for negative operands |
| RustInt.DivRem | hexomino-core/src/hexo.rs:126-135 | truncating quotient and remainder rebuild the dividend; halving keeps the sign |
| RustInt.RemFourIdempotent | hexomino-core/src/hexo.rs:59-64 | reducing twice is reducing once, and agrees with `%` on non-negative numbers |
| RustInt.NegativeOperand | hexomino-core/src/hexo.rs:59-64 | Rust's `-1 % 4` is -1, while the floor remainder is 3 |
| Hexos.NewHexo | hexomino-core/src/hexo.rs:15-18 | `Hexo::new` requires an id below `N_HEXOS` |
| Hexos.Tiles | hexomino-core/src/hexo.rs:24-26 | a piece has six cells |
| Hexos.AllHexos | hexomino-core/src/hexo.rs:38-40 | every piece once, by increasing id |
| Hexos.NewTransform | hexomino-core/src/hexo.rs:59-64 | `Transform::new`: keeps the mirror flag and `rotate % 4`, with Rust's remainder, which keeps the sign |
| Hexos.FlipTransform | hexomino-core/src/hexo.rs:66-72 | `Transform::flip`: toggles the mirror flag and keeps the turns |
| Hexos.RotateTransform | hexomino-core/src/hexo.rs:74-80 | `Transform::rotate`: adds 3 turns when mirrored and 1 otherwise, then takes `% 4` |
| Hexos.Apply | hexomino-core/src/hexo.rs:82-90 | what `apply_on` returns: `rotate` clockwise quarter turns, then the mirror when flipped |
| Hexos.ApplyOn | hexomino-core/src/hexo.rs:82-90 | the loop of `apply_on` computes the transform's image |
| Hexos.NewTransformReduces | hexomino-core/src/hexo.rs:59-90 | `new` from a non-negative count turns that many times, then mirrors |
| Hexos.FlipTransformInvolution | hexomino-core/src/hexo.rs:66-72 | `flip` toggles the mirror only; twice is the identity |
| Hexos.FlipTransformActs | hexomino-core/src/hexo.rs:66-72 | a flipped transform flips the image |
| Hexos.RotateTransformActs | hexomino-core/src/hexo.rs:74-80 | a rotated transform rotates the image, mirrored or not |
| Hexos.RotateTransformFour | hexomino-core/src/hexo.rs:74-80 | four `rotate` calls give the transform back |
| Hexos.ApplyLinear | hexomino-core/src/hexo.rs:82-90 | `apply_on` distributes over `+` |
| Hexos.AllOrbit | hexomino-core/src/hexo.rs:32-36 | the orbit has eight members |
| Hexos.AllOrbitSpec | hexomino-core/src/hexo.rs:32-36 | the orbit holds every reduced orientation of the piece exactly once |
| Hexos.RTiles | hexomino-core/src/hexo.rs:120-124 | an oriented piece has six cells |
| Hexos.Offset | hexomino-core/src/hexo.rs:126-128 | the shift in `RHexo::borders`: the image of (−1, −1) plus (1, 1), each coordinate halved with Rust's `/ 2`, which truncates toward zero |
| Hexos.RBorders | hexomino-core/src/hexo.rs:126-135 | `RHexo::borders`: both ends of each outline edge oriented by `apply_on` and shifted by the offset |
| Hexos.OrientBorders | hexomino-core/src/hexo.rs:126-135 | orienting keeps the number of outline sides |
| Hexos.OffsetTable | hexomino-core/src/hexo.rs:126-135 | the offset of each orientation is a corner of the unit square |
| Hexos.Inverse | hexomino-core/src/hexo.rs:59-90 | the inverse of a reduced transform is reduced |
| Hexos.InverseActs | hexomino-core/src/hexo.rs:82-90 | the inverse undoes the transform |
| Hexos.ApplyInjective | hexomino-core/src/hexo.rs:82-90 | `apply_on` never sends two cells to one |
| Hexos.RotateInjective | hexomino-core/src/pos.rs:25-31 | turning never sends two points to one |
| Hexos.UnitCornerImage | hexomino-core/src/hexo.rs:126-135 | a shifted corner of the unit cell stays a corner |
| Hexos.UnitCornerPreimage | hexomino-core/src/hexo.rs:126-135 | every corner has a corner as preimage |
| Hexos.UnitCornerOnto | hexomino-core/src/hexo.rs:126-135 | the shifted image covers every corner of the unit cell |
| Hexos.OffsetKeepsCells | hexomino-core/src/hexo.rs:126-135 | a point is a corner of a cell iff its shifted image is a corner of the image cell |
| Hexos.OffsetCoversCells | hexomino-core/src/hexo.rs:126-135 | every corner of an image cell is the shifted image of a corner of the cell |
| Hexos.FirstTileAtDisplacement | hexomino-core/src/hexo.rs:165-167 | the first cell of a moved piece is its displacement |
| Hexos.MoveTo | hexomino-core/src/hexo.rs:106-108 | `RHexo::move_to`: the oriented piece paired with the displacement |
| Hexos.MoveAgain | hexomino-core/src/hexo.rs:154-159 | `move_to` keeps the oriented piece and replaces the displacement |
| Hexos.MTiles | hexomino-core/src/hexo.rs:165-167 | a moved piece has six cells |
| Hexos.MBorders | hexomino-core/src/hexo.rs:173-177 | a moved piece has as many outline sides as the piece |
| Hexos.MoveSpec | hexomino-core/src/hexo.rs:154-167 | `move_to` is idempotent and recovers the piece; the cells are the oriented cells plus the displacement |
| HexoSets.AllIds | hexomino-core/src/hexo.rs:204-208 | exactly the ids below `N_HEXOS` |
| HexoSets.Members | hexomino-core/src/hexo.rs:194-231 | a bit set's members are ids below `N_HEXOS` |
| HexoSets.HexoSet.Empty | hexomino-core/src/hexo.rs:200-202 | the empty set |
| HexoSets.HexoSet.All | hexomino-core/src/hexo.rs:204-208 | every id below `N_HEXOS` |
| HexoSets.HexoSet.IsEmpty | hexomino-core/src/hexo.rs:210-212 | true iff no member |
| HexoSets.HexoSet.Has | hexomino-core/src/hexo.rs:223-225 | true iff the id is a member |
| HexoSets.HexoSet.Add | hexomino-core/src/hexo.rs:214-216 | adds exactly the id; other ids are unaffected |
| HexoSets.HexoSet.Remove | hexomino-core/src/hexo.rs:218-220 | removes exactly the id; other ids are unaffected |
| HexoSets.HexoSet.Iter | hexomino-core/src/hexo.rs:227-231 | yields exactly the members, in ascending id order |
| HexoSets.SetBit | hexomino-core/src/hexo.rs:214-216 | setting bit k adds k to the members |
| HexoSets.ClearBit | hexomino-core/src/hexo.rs:218-220 | clearing bit k removes k from the members |
| Players.Other | hexomino-core/src/state.rs:19-24 | the other player differs |
| Players.OtherInvolution | hexomino-core/src/state.rs:16-24 | `other` twice is the identity, and swaps the ids 0 and 1 |
| Boards.MTilesDistinct | src/game/board.rs:32-36 | the cells of a moved piece are distinct, so `mark_placed` never meets a cell twice |
| Boards.Board.constructor | src/game/board.rs:16-21 | an empty grid with no placed pieces |
| Boards.Board.FromCells | src/game/board.rs:83-115 | a grid holding exactly the given cells, as the test writes them |
| Boards.Board.MarkPlaced | src/game/board.rs:32-36 | requires an in-bound, free cell; covers it and nothing else |
| Boards.Board.InBound | src/game/board.rs:23-25 | `in_bound`: both coordinates inside the grid |
| Boards.Board.IsPlaced | src/game/board.rs:27-30 | `is_placed`: the grid's flag at the cell. The assertion that the cell is on the board is the precondition |
| Boards.Board.CanPlace | src/game/board.rs:49-52 | `can_place`: every tile of the moved piece is on the board and free |
| Boards.Board.CanPlaceSomewhere | src/game/board.rs:54-60 | `can_place_somewhere`: one of the eight orbit orientations, moved to one of the free cells, can be placed |
| Boards.Board.CanPlaceSomewhereSpec | src/game/board.rs:54-60 | true iff some reduced orientation at some position fits |
| Boards.Board.AnchorIsFree | src/game/board.rs:54-60 | any fitting placement makes `can_place_somewhere` true, though it only tries empty anchors |
| Boards.Board.Place | src/game/board.rs:62-71 | succeeds iff `can_place`; a failure changes nothing; a success covers exactly the piece's cells; `placed_hexos` is unchanged |
| Boards.Board.PlacedHexos | src/game/board.rs:73-75 | the placed pieces as constructed |
| BoardTests.FirstCellsFit | src/game/board.rs:83-93 | the first test grid takes the L piece |
| BoardTests.SecondCellsFit | src/game/board.rs:94-103 | the second test grid takes the L piece |
| BoardTests.ThirdCellsBlocked | src/game/board.rs:104-114 | the third test grid takes the L piece nowhere |
| BoardTests.CanPlaceInAny | src/game/board.rs:83-115 | `board_can_place_in_any`: true, true, false |
| BoardTests.ThirdBoardNoRun | src/game/board.rs:104-114 | the third grid has no four free cells in a row along `y` |
| BoardTests.ThirdBoardColumns | src/game/board.rs:104-114 | the only runs of four free cells along `x` are the columns 1, 3 and 5, with no free pair beside them |
| BoardTests.ThirdBoardNoFitAlongY | src/game/board.rs:104-114 | no orientation along `y` fits the third grid |
| BoardTests.ThirdBoardNoFitAlongX | src/game/board.rs:104-114 | no orientation along `x` fits the third grid |
| BoardTests.ThirdBoardNoFit | src/game/board.rs:104-114 | no orbit member fits the third grid anywhere |
| CoreState.Inventory.HexosOf | hexomino-core/src/state.rs:62-64 | one of the two hands |
| CoreState.Inventory.constructor | hexomino-core/src/state.rs:36-41 | every piece remaining, both hands empty |
| CoreState.Inventory.Add | hexomino-core/src/state.rs:42-51 | succeeds iff the piece remains; moves it from the pool to the player's hand; a failure changes nothing; the other hand is unchanged |
| CoreState.Inventory.Remove | hexomino-core/src/state.rs:52-61 | succeeds iff the player owns the piece; it leaves the hand; pool and other hand unchanged |
| CoreState.Inventory.OwnerOf | hexomino-core/src/state.rs:65-72 | the unique owner, or none iff neither hand holds the piece |
| CoreState.State.constructor | hexomino-core/src/state.rs:121-128 | Pick, First to move, all pieces in the pool, empty hands and an empty `COLS` × `ROWS` board |
| CoreState.State.CurrentPlayer | hexomino-core/src/state.rs:94-99 | none iff the game ended, else the player to move |
| CoreState.State.Winner | hexomino-core/src/state.rs:101-106 | some iff the game ended, and then not the player to move |
| CoreState.State.Play | hexomino-core/src/state.rs:130-140 | succeeds iff the action suits the phase and is legal; a failure changes nothing; a success picks or places and advances, decreases the measure, and an ending makes the mover the winner |
| CoreState.State.PickTurn | hexomino-core/src/state.rs:142-144 | a pick succeeds iff the piece remains, then moves it and advances the turn |
| CoreState.State.PlaceTurn | hexomino-core/src/state.rs:146-150 | a place succeeds iff the piece fits and the mover owns it, then places, removes and advances |
| CoreState.State.PickHexo | hexomino-core/src/state.rs:142-144 | the pick's effect on the inventory |
| CoreState.State.PlaceHexo | hexomino-core/src/state.rs:146-150 | the place's effect: exactly the piece's cells covered and the piece out of the hand |
| CoreState.State.CurrentPlayerCanPlace | hexomino-core/src/state.rs:152-163 | true iff the mover holds a piece that fits somewhere |
| CoreState.State.Next | hexomino-core/src/state.rs:165-185 | Pick alternates until the pool is empty, then Place with Second; Place passes the turn and ends iff the next player cannot move |
| CoreState.MoveCounts | hexomino-core/src/state.rs:42-61 | moving one id between sets changes the sizes by one |
| CoreState.PickKeepsBalance | hexomino-core/src/state.rs:165-177 | a pick keeps the hands balanced for the player to move |
| CoreStateTests.FirstPicks | hexomino-core/src/state.rs:202-208 | after First picks the straight piece, Second is to pick the L |
| CoreStateTests.StartPlacing | hexomino-core/src/state.rs:321-337 | after both picks, Second places on an empty board |
| CoreStateTests.SecondPlaces | hexomino-core/src/state.rs:235-249 | Second's placement covers exactly the piece and the game goes on iff the straight piece still fits |
| CoreStateTests.AfterPickAddsToPlayerSet | hexomino-core/src/state.rs:202-208 | `after_pick_adds_to_player_set` |
| CoreStateTests.AfterPickNextTurn | hexomino-core/src/state.rs:210-217 | `after_pick_next_turn` |
| CoreStateTests.AfterPicksProceedToPlace | hexomino-core/src/state.rs:219-226 | `after_pick_ends_proceeds_to_place` |
| CoreStateTests.PickTwiceRefused | hexomino-core/src/state.rs:228-233 | `pick_twice_returns_error` |
| CoreStateTests.PlaceShowsOnBoard | hexomino-core/src/state.rs:235-249 | `player_place_show_on_board` |
| CoreStateTests.RotatedPlacement | hexomino-core/src/state.rs:270-287 | `hexo_transform_rotate` |
| CoreStateTests.MirroredPlacementRefused | hexomino-core/src/state.rs:251-268 | as written: `hexo_transform_flip` sends a cell of the L to (-1, 3), so the placement is refused (see ## Findings) |
| CoreStateTests.MirroredTurnedPlacementRefused | hexomino-core/src/state.rs:289-306 | as written: `hexo_transform_flip_rotate` sends a cell to (1, -1), so the placement is refused (see ## Findings) |
| CoreStateTests.MirroredPlacementShowsOnBoard | hexomino-core/src/state.rs:251-268 | corrected: with the older flip written in core terms (mirror after two turns), the placement succeeds and covers the six cells the test checks |
| CoreStateTests.MirroredTurnedPlacementShowsOnBoard | hexomino-core/src/state.rs:289-306 | corrected: with the older flip after two turns written in core terms (mirror, no turn), the placement succeeds and covers the six cells the test checks |
| CoreStateTests.MirroredTiles | hexomino-core/src/state.rs:251-268 | the L mirrored after two turns, at (0, 3), covers column 0 and two cells of column 1 |
| CoreStateTests.MirroredTurnedTiles | hexomino-core/src/state.rs:289-306 | the L mirrored without a turn, at (1, 0), covers column 1 and two cells of column 0 |
| CoreStateTests.CannotPlaceEnds | hexomino-core/src/state.rs:308-319 | `when_can_not_place_goes_to_end_phase`: Second wins |
| CoreStateTests.RunOutEnds | hexomino-core/src/state.rs:321-337 | `when_run_out_of_tiles_goes_to_end_phase`: First wins |
| CoreStateTests.FirstPlacesStraight | hexomino-core/src/state.rs:321-337 | First's last piece ends the game with First the winner |
| CoreStateTests.CanPlaceContinues | hexomino-core/src/state.rs:339-349 | `when_can_place_continues` |
| CoreStateTests.UprightTiles | hexomino-core/src/state.rs:235-249 | the cells of the upright L |
| CoreStateTests.TurnedTiles | hexomino-core/src/state.rs:308-319 | the cells of the turned L |
| CoreStateTests.StraightTiles | hexomino-core/src/state.rs:321-337 | the cells of the turned straight piece |
| CoreStateTests.StraightBlocked | hexomino-core/src/state.rs:308-319 | a covered line blocks the straight piece |
| CoreStateTests.StraightEnds | hexomino-core/src/state.rs:308-319 | the two end cells of each orientation of the straight piece |
| CoreStateTests.StraightFitsOnRow | hexomino-core/src/state.rs:339-349 | a free line takes the straight piece |
| OldPoints.NewPoint | src/game/point.rs:10-12 | the point with the given coordinates |
| OldPoints.ToPos | src/game/point.rs:3-12 | the same coordinates as a core position |
| OldPoints.Add | src/game/point.rs:30-47 | the `Add` impls: the coordinatewise sum |
| OldPoints.Flip | src/game/point.rs:14-19 | `flip`: keeps x and negates y |
| OldPoints.Rotate | src/game/point.rs:21-27 | `rotate`: the clockwise quarter turn (x, y) ↦ (y, −x) |
| OldPoints.AddMonoid | src/game/point.rs:30-47 | the default (0, 0) is the identity of `+`, which is commutative and associative |
| OldPoints.FlipInvolution | src/game/point.rs:14-20 | the old `flip` negates `y` and is an involution |
| OldPoints.RotateStep | src/game/point.rs:22-28 | one more turn is one more clockwise rotation; four are the identity |
| OldPoints.RotateTimesReduces | src/game/point.rs:22-28 | n turns one by one are n mod 4 turns |
| OldPoints.FlipRotate | src/game/point.rs:14-28 | flip ∘ rotate = rotate³ ∘ flip |
| OldPoints.Linear | src/game/point.rs:14-47 | flip and rotate distribute over `+` |
| OldPoints.AgreesWithCore | src/game/point.rs:14-47 | `+` and rotations agree with the core; the old flip is the core flip followed by a half turn, and the two differ except at the origin |
| OldHexos.Tiles | src/game/hexo.rs:22-24 | the same six cells as the core table |
| OldHexos.NewTransform | src/game/hexo.rs:91-97 | stores the mirror and displacement and the count reduced by Rust's `% 4` |
| OldHexos.ApplyOn | src/game/hexo.rs:106-114 | the loop of `apply_on` computes the transform's image |
| OldHexos.NewTransformActs | src/game/hexo.rs:91-114 | from a non-negative count: mirror, then that many turns, then translate |
| OldHexos.NegativeCountNeverTurns | src/game/hexo.rs:91-114 | a negative count leaves a negative stored count, and `apply_on` then turns nothing |
| OldHexos.WithDisplacement | src/game/hexo.rs:99-104 | `with_displacement`: the same mirror and turns with a new displacement |
| OldHexos.Apply | src/game/hexo.rs:106-114 | what `apply_on` returns: the mirror when flipped, then `rotate` quarter turns (none when `rotate` is negative), then the displacement added |
| OldHexos.WithDisplacementActs | src/game/hexo.rs:99-104 | `with_displacement` replaces only the displacement |
| OldHexos.AllOrbit | src/game/hexo.rs:30-40 | eight orientations |
| OldHexos.AllOrbitSpec | src/game/hexo.rs:30-40 | every reduced orientation at the origin exactly once |
| OldHexos.MoveTo | src/game/hexo.rs:128-133 | `MovedHexo::move_to`: the same piece, mirror and turns at a new displacement |
| OldHexos.MTiles | src/game/hexo.rs:139-144 | six cells |
| OldHexos.MoveSpec | src/game/hexo.rs:128-144 | `move_to` keeps piece, mirror and turns; the cells shift by the displacement |
| OldHexos.FirstTileAtDisplacement | src/game/hexo.rs:106-144 | the first cell is the displacement |
| OldHexos.CoreOrientation | src/game/hexo.rs:106-114 | the core orientation with the same mirror |
| OldHexos.MirrorsInCoreTerms | src/game/hexo.rs:91-114 | the old mirror with no turn is the core mirror after two turns, and the reverse |
| OldHexos.SameOrientations | src/game/hexo.rs:106-114 | an old transform acts as the corresponding core orientation plus the displacement |
| OldGame.InBound | src/game/mod.rs:38-40 | `in_bound`: x in 0 .. `ROWS` and y in 0 .. `COLS` |
| OldGame.ApplyInjective | src/game/hexo.rs:106-114 | an old transform never sends two cells to one |
| OldGame.MTilesDistinct | src/game/mod.rs:77-83 | a moved piece's cells are distinct, so `place_tile` never meets a cell twice |
| OldGame.Board.constructor | src/game/mod.rs:32-36 | an empty `ROWS` × `COLS` grid |
| OldGame.Board.FromCells | src/game/mod.rs:332-361 | the test's grids, cell for cell |
| OldGame.Board.PlaceTile | src/game/mod.rs:47-51 | requires an in-bound, free cell; covers it and nothing else |
| OldGame.Board.IsPlaced | src/game/mod.rs:42-45 | `is_placed`: the grid's flag at the cell. The assertion that the cell is on the board is the precondition |
| OldGame.Board.CanPlace | src/game/mod.rs:64-67 | `can_place`: every tile of the moved piece is on the board and free |
| OldGame.Board.CanPlaceSomewhere | src/game/mod.rs:70-75 | `can_place_somewhere`: one of the eight orbit orientations, moved to one of the free cells, can be placed |
| OldGame.Board.Place | src/game/mod.rs:77-83 | succeeds iff `can_place`; a failure changes nothing; a success covers exactly the piece's cells |
| OldGame.OldOrientation | src/game/hexo.rs:91-114 | each core orientation and displacement as an old transform |
| OldGame.TilesAgree | src/game/hexo.rs:139-144 | old and core moved pieces cover the same cells |
| OldGame.FitAgrees | src/game/mod.rs:64-67 | the old and the current board agree on `can_place` when their grids agree |
| OldGame.FitsSomewhereAgree | src/game/mod.rs:70-75 | the old and the current board agree on `can_place_somewhere` when their grids agree |
| OldGame.OldAnchorIsFree | src/game/mod.rs:70-75 | any fitting placement makes `can_place_somewhere` true |
| OldGame.PlayerCanPlace | src/game/mod.rs:161-172 | true iff the player holds a piece that fits somewhere |
| OldGame.State.constructor | src/game/mod.rs:132-141 | Pick, First to move, no winner, all pieces in the pool and an empty board |
| OldGame.State.Play | src/game/mod.rs:143-151 | succeeds iff the action suits the phase and is legal; a failure changes nothing; a success picks or places and advances, decreasing the measure |
| OldGame.State.PickHexo | src/game/mod.rs:197-208 | succeeds iff the piece is in the pool, then moves it to the mover and advances |
| OldGame.State.TakePick | src/game/mod.rs:197-206 | the pick's effect on the inventory |
| OldGame.State.PlaceHexo | src/game/mod.rs:210-222 | succeeds iff the mover owns the piece and it fits, then places, removes and advances |
| OldGame.State.TakePlace | src/game/mod.rs:210-220 | ownership is checked first; a refusal changes nothing; a success covers exactly the piece's cells |
| OldGame.State.Next | src/game/mod.rs:174-195 | Pick alternates until the pool is empty, then Place with Second; Place passes the turn and ends, with the last placer as winner, iff the next player cannot move |
| OldGameTests.AfterPick | src/game/mod.rs:238-250 | `after_pick_adds_to_player_set` and `after_pick_next_turn` |
| OldGameTests.AfterPicksProceedToPlace | src/game/mod.rs:253-259 | `after_pick_ends_proceeds_to_place` |
| OldGameTests.PickTwiceRefused | src/game/mod.rs:262-266 | `pick_twice_returns_error` |
| OldGameTests.StartPlacing | src/game/mod.rs:269-281 | both pieces picked, Second to place on an empty board |
| OldGameTests.PlaceL | src/game/mod.rs:269-329 | placing the L covers exactly its cells, and the game goes on iff First can move |
| OldGameTests.PlaceShowsOnBoard | src/game/mod.rs:269-281 | `player_place_show_on_board` |
| OldGameTests.FlipShowsOnBoard | src/game/mod.rs:284-297 | `hexo_transform_flip` |
| OldGameTests.RotateShowsOnBoard | src/game/mod.rs:300-313 | `hexo_transform_rotate` |
| OldGameTests.FlipRotateShowsOnBoard | src/game/mod.rs:316-329 | `hexo_transform_flip_rotate` |
| OldGameTests.FirstBoardFits | src/game/mod.rs:332-361 | the first grid of `board_can_place_in_any` takes the L |
| OldGameTests.SecondBoardFits | src/game/mod.rs:332-361 | the second grid takes the L |
| OldGameTests.ThirdBoardBlocked | src/game/mod.rs:332-361 | the third grid does not |
| OldGameTests.StraightTiles | src/game/hexo.rs:106-144 | the straight piece lies along a row or a column, in the direction its orientation gives |
| OldGameTests.StraightBlockedByColumn | src/game/mod.rs:364-374 | a covered column blocks the straight piece |
| OldGameTests.TurnedLCoversColumn | src/game/mod.rs:364-374 | the turned L covers a whole column |
| OldGameTests.CannotPlaceEnds | src/game/mod.rs:364-374 | `when_can_not_place_goes_to_end_phase`: Second wins |
| OldGameTests.UprightLTiles | src/game/mod.rs:377-390 | the upright L lies in rows 0 and 1 |
| OldGameTests.StraightFitsAlongRow | src/game/mod.rs:393-402 | a free row takes the straight piece |
| OldGameTests.CanPlaceContinues | src/game/mod.rs:393-402 | `when_can_place_continues` |
| OldGameTests.RunOutEnds | src/game/mod.rs:377-390 | `when_run_out_of_tiles_goes_to_end_phase`: First wins |
| OldState.PlayerCanPlace | src/game/state.rs:272-283 | true iff the player holds a piece that fits somewhere |
| OldState.Game.constructor | src/game/state.rs:229-238 | Pick, First to move, no winner, all pieces in the pool and an empty board |
| OldState.Game.OwnerOf | src/game/state.rs:252-260 | the unique owner, or none iff neither hand holds the piece |
| OldState.Game.Play | src/game/state.rs:262-270 | succeeds iff the action suits the phase and is legal; a failure changes nothing; a success advances and decreases the measure |
| OldState.Game.PickHexo | src/game/state.rs:308-319 | succeeds iff the piece is in the pool, then moves it and advances |
| OldState.Game.TakePick | src/game/state.rs:308-317 | the pick's effect on the inventory |
| OldState.Game.PlaceHexo | src/game/state.rs:321-337 | succeeds iff the mover owns the piece and it fits, then places, removes and advances |
| OldState.Game.TakePlace | src/game/state.rs:321-335 | ownership is checked before the board is touched; a refusal changes nothing |
| OldState.Game.Next | src/game/state.rs:285-306 | Pick alternates until the pool is empty, then Place with Second; Place passes the turn and ends, with the last placer as winner, iff the next player cannot move |
| OldState.Machine.constructor | src/game/state.rs:86-91 | the pick stage with First to move and every piece in the pool |
| OldState.Machine.Phase | src/game/state.rs:92-99 | the phase of the current stage |
| OldState.Machine.CurrentPlayer | src/game/state.rs:100-107 | none only in the end stage |
| OldState.Machine.Play | src/game/state.rs:108-123 | corrected (see ## Findings): succeeds iff the action suits the stage and is legal; a failure changes nothing; a success picks or places, advances and decreases the measure |
| OldState.Machine.PlayAsWritten | src/game/state.rs:108-123 | as written: succeeds iff the action suits the stage and is legal; a refused placement that fits still covers its cells, and otherwise a failure changes nothing |
| OldState.Machine.PickTurn | src/game/state.rs:170-172 | a pick succeeds iff the piece remains, then advances |
| OldState.Machine.PlaceTurn | src/game/state.rs:185-192 | corrected (see ## Findings): a place succeeds iff the mover owns the piece and it fits, then advances; a refusal changes neither board nor hands |
| OldState.Machine.PlaceTurnAsWritten | src/game/state.rs:185-192 | as written: succeeds iff the mover owns the piece and it fits; a refusal keeps the hands, but covers the piece's cells whenever it fits |
| OldState.Machine.PlaceAsWritten | src/game/state.rs:185-192 | as written: the board is marked whenever the piece fits, even when ownership then fails |
| OldState.Machine.Place | src/game/state.rs:185-192 | corrected: a refusal changes neither the board nor the hand |
| OldState.Machine.Next | src/game/state.rs:124-158 | an empty pool starts the place stage with Second on a new empty board; otherwise the pick passes; placing passes the turn or ends with the last placer as winner |
| OldStateTests.FirstPicks | src/game/state.rs:347-360 | after First picks a piece: Pick, Second to move, the other piece in the pool, First holding the picked one, an empty board |
| OldStateTests.AfterPickAddsToPlayerSet | src/game/state.rs:347-352 | `after_pick_adds_to_player_set` |
| OldStateTests.AfterPickNextTurn | src/game/state.rs:354-360 | `after_pick_next_turn` |
| OldStateTests.AfterPicksProceedToPlace | src/game/state.rs:363-369 | `after_pick_ends_proceeds_to_place` |
| OldStateTests.PickTwiceRefused | src/game/state.rs:372-376 | `pick_twice_returns_error` |
| OldStateTests.StartPlacing | src/game/state.rs:468-485 | both pieces picked, Second to place on an empty board |
| OldStateTests.SecondPlaces | src/game/state.rs:378-393 | Second's placement of the L covers exactly its cells and passes the turn; the game goes on iff the straight piece still fits, else Second wins |
| OldStateTests.PlaceShowsOnBoard | src/game/state.rs:378-393 | `player_place_show_on_board` |
| OldStateTests.RotatedPlacement | src/game/state.rs:414-431 | `hexo_transform_rotate` |
| OldStateTests.MirroredPlacementRefused | src/game/state.rs:395-412 | under the core's pieces, which `OldState` assumes: `hexo_transform_flip` with the core's flip puts a cell at (-1, 3) and is refused |
| OldStateTests.MirroredPlacementShowsOnBoard | src/game/state.rs:395-412 | with the older flip in core terms (the mirror after two turns), the placement covers the six cells the test checks |
| OldStateTests.MirroredTurnedPlacementRefused | src/game/state.rs:433-450 | under the core's pieces, which `OldState` assumes: `hexo_transform_flip_rotate` with the core's flip puts a cell at (1, -1) and is refused |
| OldStateTests.MirroredTurnedPlacementShowsOnBoard | src/game/state.rs:433-450 | with the older flip in core terms (the mirror with no turn), the placement covers the six cells the test checks |
| OldStateTests.CannotPlaceEnds | src/game/state.rs:452-465 | `when_can_not_place_goes_to_end_phase`: Second wins |
| OldStateTests.CanPlaceContinues | src/game/state.rs:487-497 | `when_can_place_continues`: still placing, no winner |
| OldStateTests.RunOutEnds | src/game/state.rs:468-485 | `when_run_out_of_tiles_goes_to_end_phase`: First wins |
| OldStateTests.SecondPlacesL | src/game/state.rs:468-485 | Second's L leaves row 2 free and First to move |
| OldStateTests.FirstPlacesStraight | src/game/state.rs:468-485 | First's straight piece ends the game with First the winner |
| OldStateTests.UprightL | src/game/state.rs:468-485 | the upright L lies in rows 0 and 1 |
| OldStateTests.StraightAlongRow | src/game/state.rs:468-485 | the unturned straight piece at (2, 0) covers row 2 |
| OldStateTests.StraightFitsAlongRow | src/game/state.rs:272-283 | a free row 2 takes the straight piece |
| OldStateTests.StraightLine | hexomino-core/src/hexo.rs:154-167 | each of the eight orientations of the straight piece covers six cells in a line along one axis |
| OldStateTests.ColumnBlocksStraight | src/game/state.rs:452-465 | with column 3 covered, the straight piece fits nowhere on a `ROWS` by `COLS` board |
| OldStateTests.MachinePlacing | src/game/state.rs:124-143 | after both picks the machine is placing, Second to move, on an empty board |
| OldStateTests.RefusedPlacementMarksBoard | src/game/state.rs:108-123 | as written, a refused turn still covers a cell |
| OldStateTests.RefusedPlacementLeavesBoard | src/game/state.rs:108-123 | corrected, the same refused turn leaves the board empty |
| MatchHistories.WinningUser | hexomino-server/src/kernel/match_history.rs:49-53 | user 0 wins iff the winner is the first user's player |
| MatchHistories.Wins | hexomino-server/src/kernel/match_history.rs:26-54 | a user's wins are at most the games played |
| MatchHistories.WinsPartition | hexomino-server/src/kernel/match_history.rs:26-54 | the two users' wins add up to the games played |
| MatchHistories.WinsAppend | hexomino-server/src/kernel/match_history.rs:42-53 | a new game adds one win to its winner only |
| MatchHistories.MatchHistory.constructor | hexomino-server/src/kernel/match_history.rs:26-33 | the given id and users, scores [0, 0], no games |
| MatchHistories.MatchHistory.AddGame | hexomino-server/src/kernel/match_history.rs:35-54 | appends exactly one record; scores[0] grows iff the first user won, otherwise scores[1]; the scores sum to the games |
| Rooms.User.constructor | hexomino-server/src/kernel/room.rs:105-108 | a user with the given id and name, `Idle`, the status `create_room` (and `join_room`) requires |
| Rooms.UserToApi | hexomino-server/src/kernel/user.rs:47-51 | the user's id and name |
| Rooms.RoomUserToApi | hexomino-server/src/kernel/room.rs:76-83 | the user's view and ready flag |
| Rooms.Room.constructor | hexomino-server/src/kernel/room.rs:25-27 | the id and no users |
| Rooms.Room.ToApi | hexomino-server/src/kernel/room.rs:29-38 | the id and the users' views, in order |
| Rooms.Room.ToJoinedRoom | hexomino-server/src/kernel/room.rs:40-49 | the id and the room users' views, in order |
| Rooms.Room.UserEnter | hexomino-server/src/kernel/room.rs:52-61 | a room with two users refuses with `RoomIsFull` and is unchanged; otherwise the user joins at the end, not ready; at most two users |
| Rooms.ViewsAgree | hexomino-server/src/kernel/room.rs:29-49 | both views keep the id, the count and the order of users |
| Rooms.EnterShowsUser | hexomino-server/src/kernel/room.rs:29-61 | an entered user shows last in both views |
| Rooms.RoomManager.constructor | hexomino-server/src/kernel/room.rs:85-91 | no rooms, counter zero |
| Rooms.RoomManager.CreateRoom | hexomino-server/src/kernel/room.rs:105-117 | `UserBusy` unless idle, changing nothing; else the counter's value is a new id, the room holds just the user and the user is in it |
| Rooms.RoomManager.JoinRoom | hexomino-server/src/kernel/room.rs:119-134 | `UserBusy`, then `RoomNotFound`, then `RoomIsFull`, each changing nothing; else the user joins the room and is in it |
| Rooms.SuccessiveRoomIds | hexomino-server/src/kernel/room.rs:110 | two creations get the ids 0 and 1: distinct and increasing |
| RoomsView.DigitChar | hexomino-web/src/view/rooms.rs:173 | a digit character |
| RoomsView.DigitValue | hexomino-web/src/view/rooms.rs:173 | the inverse of `DigitChar` |
| RoomsView.Digits | hexomino-web/src/view/rooms.rs:173 | `to_string` of a number: digits with no leading zero |
| RoomsView.DigitsRoundTrip | hexomino-web/src/view/rooms.rs:173 | parsing the digits gives the number back |
| RoomsView.DecimalString | hexomino-web/src/view/rooms.rs:173 | `room.id.to_string()`: a minus sign before the digits of a negative id, the digits alone otherwise |
| RoomsView.DecimalRoundTrip | hexomino-web/src/view/rooms.rs:173 | parsing `to_string` of any integer, negative ones included, gives it back |
| RoomsView.Contains | hexomino-web/src/view/rooms.rs:173-179 | `str::contains`: the text occurs in the string at some position, and the empty text occurs everywhere |
| RoomsView.ContainsSpec | hexomino-web/src/view/rooms.rs:173-179 | `contains` holds iff the text occurs at some index |
| RoomsView.SliceOfTail | hexomino-web/src/view/rooms.rs:173-179 | a slice of the tail is a shifted slice |
| RoomsView.FilterRoom | hexomino-web/src/view/rooms.rs:168-183 | `filter_room`: true for an empty search. Otherwise true when the text occurs in the id, in the match token or in a user's name, tried in that order |
| RoomsView.FilterRoomSpec | hexomino-web/src/view/rooms.rs:168-183 | a room is kept iff the filter is a substring of its id, its match token or a user's name; the empty filter keeps all |
| RoomsView.FilterRooms | hexomino-web/src/view/rooms.rs:184 | keeps exactly the rooms the filter accepts, in order: each accepted room as often as in the input, every other room never |
| RoomsView.PrecedesOrder | hexomino-web/src/view/rooms.rs:185-192 | the comparator is a strict weak order; ties only between equal counts and ids |
| RoomsView.Insert | hexomino-web/src/view/rooms.rs:185-192 | inserting adds one room |
| RoomsView.InsertMultiset | hexomino-web/src/view/rooms.rs:185-192 | inserting adds exactly the room |
| RoomsView.InsertSorted | hexomino-web/src/view/rooms.rs:185-192 | inserting keeps the order |
| RoomsView.SortRooms | hexomino-web/src/view/rooms.rs:185-192 | sorting keeps the length |
| RoomsView.SortRoomsSpec | hexomino-web/src/view/rooms.rs:185-192 | a permutation, by non-decreasing user count, with equal counts by descending id |
| RoomsView.SortedUnique | hexomino-web/src/view/rooms.rs:185-192 | with distinct ids, any two sorted permutations are equal |
| RoomsView.SortedHeads | hexomino-web/src/view/rooms.rs:185-192 | with distinct ids, two sorted permutations start alike |
| RoomsView.ShownRooms | hexomino-web/src/view/rooms.rs:184-192 | the rooms listed: the fetched rooms the search keeps, sorted by the comparator |
| RoomsView.ShownRoomsSpec | hexomino-web/src/view/rooms.rs:184-192 | the list shown is a sorted permutation of the kept rooms, holding exactly the fetched rooms the filter keeps |

## Left out

- Input and output:
  - printing the generated table and the `__main__` formatting;
  - the production `HEXOS` table. The game uses the test build's two pieces, whose outlines are empty.
- Borders.HexoBorders: the general outline size, 4·cells − 2·(adjacent pairs), is stated for distinct cells by `Borders.OutlineSize`, not for shapes with repeated cells, which `generate` never yields.
- Positions.Add, Positions.Flip, Positions.Rotate, OldPoints.Add, OldPoints.Flip and OldPoints.Rotate: coordinates are unbounded integers. Rust's `i32` `+` and unary `-` panic in debug builds and wrap in release builds, `+` near `i32::MAX` and `-` at `i32::MIN`. Positions on a 4 × 6 board stay far from those bounds.
- `src/game/state.rs` is not compiled: `src/game/mod.rs:4-6` declares only `constants`, `hexo` and `point`. It names a piece API that `src/game` does not have: `super::pos::Pos`, the two-argument `Transform::new`, and `move_to` with a position. `OldState` therefore assumes the core's pieces (`Hexos`). Its mirrored tests fail only under that assumption, so they are not listed under ## Findings.
- Hexos.OrientBorders: the contract states only the length. Its meaning is in `Hexos.OffsetKeepsCells` and `Hexos.OffsetCoversCells`.
- Generate.SetToList: the order of a Python set is not fixed.
- Generate.Generate: requires n ≥ 1. For n ≤ 0, `generate` (hexomino-core/gen_hexos/gen.py:59-63) calls `generate(n - 1)` without end, until Python raises `RecursionError`. The only caller passes 6.
- Generate.Generate: the numbers of shapes, 1, 1, 2, 5, 12 and 35 for n = 1 … 6, are proved only for n = 1 (`Generate.OneCellShape`) and n = 2 (`Generate.DominoOnly`). Counting for n ≥ 3 would mean enumerating every growth of every shape.
- Generate.Generate: completeness, that every edge-connected shape of n cells is reached up to symmetry, is not stated. Only the converse is stated: everything reached is connected (`Generate.GeneratedConnected`).
- Pos to piet conversions (`hexomino-core/src/pos.rs:53-70`), because they are drawing code.
- `PlacedHexo` player tags: kept as a value and never inspected.
- `placed_by` and `Hexo::apply` are constructors only.
- The `_Moved` variant of `_State`: it exists only while `next` swaps stages.
- `hexomino-core/src/board.rs` is not part of this model.
- MatchHistories.MatchHistory.AddGame: does not model `u32` overflow of the scores. It would take 2³² games.
- Rooms.RoomManager.CreateRoom: does not model wrap-around of the `i64` counter.
- Rooms: the concurrent map, the atomic counter and the locks are modelled sequentially, one call at a time.
  - `broadcast_update` and `spawn_send` are messages to clients and are left out.
  - `get` and `list_rooms` are plain reads and are left out.
- `User` is reduced to its id, name and room status. User state outside rooms and connections are left out.
- Rooms.User.constructor: `hexomino-server/src/kernel/user.rs` in this repository predates `UserStatus`: its `UserState` has no status. A new user is taken to be `Idle`, the status that `room.rs` imports and that `create_room` and `join_room` require.
- Rooms.UserToApi: the name is read from the user's data without its lock.
- The match history's `save` and the database are left out.
- RoomsView.SortRooms: an insertion sort on a sequence, not the in-place stable `sort_by`.
  - Its result is fixed by `RoomsView.SortedUnique` whenever the room ids are distinct.
  - Stability among rooms with equal count and id is not modelled.
- Rendering, the UI, networking, the AI player and its randomness are left out.

## Findings

| source | as written | input that shows it | evidently intended | confidence | as-written member | corrected member |
|---|---|---|---|---|---|---|
| hexomino-core/src/state.rs:251-268 | `hexo_transform_flip` mirrors the L with the core's `Pos::flip`, which negates `x`, and expects the cells of the older flip, which negates `y` (src/game/point.rs:14-20) | The L mirrored with no turn and moved to (0, 3) has a cell at (-1, 3). The placement is refused, so the test's `assert!(let Ok(_) …)` fails | the six cells the test checks. In core terms, the older flip with no turn is the core's mirror after two turns (OldHexos.MirrorsInCoreTerms) | not executed | CoreStateTests.MirroredPlacementRefused | CoreStateTests.MirroredPlacementShowsOnBoard |
| hexomino-core/src/state.rs:289-306 | `hexo_transform_flip_rotate` mirrors after two turns with the core's flip and expects the cells of the older flip | The L mirrored after two turns and moved to (1, 0) has a cell at (1, -1). The placement is refused | the six cells the test checks. In core terms, the older flip after two turns is the core's mirror with no turn | not executed | CoreStateTests.MirroredTurnedPlacementRefused | CoreStateTests.MirroredTurnedPlacementShowsOnBoard |
| src/game/state.rs:185-192 | `PlaceState::place` places the piece on the board before `Inventory::remove` checks ownership, so a refused placement still covers cells | First picks piece 0 and Second picks piece 1; Second then places piece 0 upright at (0, 0). The result is `Err`, yet cell (0, 0) is covered | a refused placement changes nothing, as in `State::place` (src/game/state.rs:321-337), which checks ownership first | not executed | OldState.Machine.PlaceAsWritten, used by OldState.Machine.PlaceTurnAsWritten and OldState.Machine.PlayAsWritten (OldStateTests.RefusedPlacementMarksBoard) | OldState.Machine.Place, used by OldState.Machine.PlaceTurn and OldState.Machine.Play (OldStateTests.RefusedPlacementLeavesBoard) |
