# Minesweeper board set-up, modelled in Dafny

The Ruby program `minesweeper.rb` defines three classes. This model covers the two that hold
code:

- `Board`, whose constructor builds a `size × size` grid of tiles from a shuffled list of
  marks and then gives every tile a list of neighbour coordinates (`compute_neighbors`).
- `Tile`, which records a mark, a neighbour list and two flags.

The third class, `Minesweeper`, has a `run` method whose body is only comments
(lines 3-9). They sketch a game loop that flags or reveals squares until `won?` or `lost?`.
None of that is implemented. Nothing is revealed, flagged, won or lost anywhere in the code:
`Tile#reveal` has an empty body, and no flood fill exists. The model covers what the code
does.

Modules, one per file:

- `Tiles` (`tile.dfy`): the `Tile` record, `Tile.new`, `is_bombed?` and the empty `reveal`.
- `Moves` (`moves.dfy`): the expression that builds `move_indices` (line 23), evaluated the
  way Ruby evaluates it, together with the offsets that `move[0]` and `move[1]` read off it.
- `Neighbors` (`neighbors.dfy`): `valid?` and the neighbour list one tile receives.
- `Marks` (`marks.dfy`): `num_bombs`, the mark list built with `Array#*`, and `Array#shuffle`.
- `Boards` (`board.dfy`): the row-by-row `pop` into the grid, the three nested loops of
  `compute_neighbors` as methods with loop invariants, and `Board#initialize`.

## What the offset expression really yields

`[-1,0,1].permutation(2).to_a - [0,0] + [1,1] + [-1,-1]` does not give the eight compass
directions.

- `permutation(2)` yields six pairs and never `[0,0]`, so subtracting `[0,0]` (which removes
  the Integer `0`) removes nothing.
- `+ [1,1] + [-1,-1]` appends four bare Integers, not two pairs.
- `Integer#[]` reads bits, so the Integer `1` acts as the offset `(1, 0)` and `-1` acts as
  `(1, 1)`.

The effective list is

    (-1,0) (-1,1) (0,-1) (0,1) (1,-1) (1,0) (1,0) (1,0) (1,1) (1,1)

Consequences, all proved:

- A tile never lists its up-left diagonal.
- The square below is listed three times, and the square below-right twice.
- The relation is not symmetric.

The model keeps this behaviour (`Moves.OffsetsLiteral`, `Neighbors.NeighborsExactly`,
`Neighbors.NeighborMultiplicity`).

## Edge cases of the constructor

`Array#*` raises `ArgumentError` for a negative count. For a negative `size` the bomb
repetition (count `2·size`) raises first. For `size == 1` the non-bomb count `1 − 2` is
negative and raises. `size == 0` gives an empty board. Lists here are unbounded, so the
limits of Ruby's `Array#*` on very large counts are outside the model (see "Left out"). These are the `Failure` cases of
`Marks.MarkList` and `Boards.Initialize`.

## Model

| member | source | states |
|---|---|---|
| Tiles.NewTile | minesweeper.rb:48-53 | a new tile carries the given mark, no neighbours, is not flagged and not revealed |
| Tiles.Reveal | minesweeper.rb:55-57 | `reveal` leaves the tile exactly as it was |
| Tiles.FreshTile | minesweeper.rb:48-61 | `IsBombed` (`is_bombed?`) on a fresh tile holds iff it was given the bomb mark; revealing it changes nothing and it stays unrevealed |
| Moves.Bit | minesweeper.rb:27 | `Integer#[]` yields a single bit, 0 or 1 |
| Moves.SignBit | minesweeper.rb:27 | every bit of a small two's-complement integer at or above its width is its sign bit |
| Moves.MinusOneBits | minesweeper.rb:27 | every bit of `-1` is 1, so `-1[0]` and `-1[1]` are both 1 |
| Moves.OneBits | minesweeper.rb:27 | bit 0 of `1` is 1 and every higher bit is 0 |
| Moves.PairsWithMembers | minesweeper.rb:23 | one row of `permutation(2)` holds exactly the pairs of the fixed first element with the other elements |
| Moves.PairsUpToMembers | minesweeper.rb:23 | the first rows of `permutation(2)` hold exactly the pairs of distinct positions drawn from those rows |
| Moves.PairsUpToLength | minesweeper.rb:23 | the first `r` rows hold `r·(n−1)` pairs |
| Moves.Permutation2Length | minesweeper.rb:23 | `permutation(2)` of `n` elements yields `n·(n−1)` pairs |
| Moves.Permutation2Members | minesweeper.rb:23 | `permutation(2)` yields exactly the pairs of elements at two different positions |
| Moves.Difference | minesweeper.rb:23 | `Array#-` keeps exactly the elements of the left list that do not occur in the right one, never adding any |
| Moves.DifferenceCount | minesweeper.rb:23 | `Array#-` drops every copy of a value that occurs on the right and keeps every copy of the others |
| Moves.DifferenceAppend | minesweeper.rb:23 | `Array#-` distributes over concatenation, so the kept elements stay in the left list's order |
| Moves.DifferenceSingle | minesweeper.rb:23 | a one-element list keeps its element iff it does not occur on the right |
| Moves.DifferenceDisjoint | minesweeper.rb:23 | subtracting a list that shares no element leaves the left list unchanged, so `- [0,0]` removes nothing |
| Moves.PermutationMinusInts | minesweeper.rb:23 | `permutation(2)` yields only Arrays, so subtracting a list of Integers from it removes nothing |
| Moves.MoveIndicesOf | minesweeper.rb:23 | for any list, the `move_indices` expression is its `permutation(2)` followed by the Integers 1, 1, -1, -1 |
| Moves.PermutationLiteral | minesweeper.rb:23 | `[-1,0,1].permutation(2)` is the six pairs in Ruby's order |
| Moves.MoveIndicesLiteral | minesweeper.rb:23 | `MoveIndices`, the value of `move_indices`, is those six pairs followed by the Integers 1, 1, -1, -1 |
| Moves.OffsetsOfLiteral | minesweeper.rb:23-27 | reading `move[0], move[1]` (`At`: an element of a pair, or a bit of an Integer) off that list gives the ten effective offsets |
| Moves.OffsetsLiteral | minesweeper.rb:23-27 | the offsets the loop applies are exactly the effective list above |
| Moves.EffectiveOffsetsNearby | minesweeper.rb:23-27 | every effective offset is at most one step in each direction and is neither (0,0) nor (-1,-1) |
| Moves.EffectiveOffsetsCover | minesweeper.rb:23-27 | every adjacent direction other than (0,0) and (-1,-1) is an effective offset |
| Moves.EffectiveOffsetsCount | minesweeper.rb:23-27 | (1,0) occurs three times, (1,1) twice, every other effective offset once |
| Moves.EffectiveOffsetsCounts | minesweeper.rb:23-27 | the same counts, for all offsets at once |
| Neighbors.Translates | minesweeper.rb:26-28 | the coordinates appended for one tile are all `valid?` and at most one per move |
| Neighbors.TranslatesMembers | minesweeper.rb:26-28 | a coordinate is appended iff it is `valid?` and is the translate of the tile by some move |
| Neighbors.TranslatesCount | minesweeper.rb:26-28 | a translate is appended once per occurrence of its move when valid, and never otherwise |
| Neighbors.TranslatesAllValid | minesweeper.rb:26-28 | when every translate is valid, all of them are appended, in the order of the moves |
| Neighbors.TranslateOffset | minesweeper.rb:26-28 | a coordinate is appended iff it is valid and its offset from the tile is a move |
| Neighbors.TranslateCountAt | minesweeper.rb:26-28 | an appended coordinate occurs as often as its offset occurs among the moves |
| Neighbors.NeighborsExactly | minesweeper.rb:23-38 | a coordinate is in `NeighborsOf`, the list `compute_neighbors` gives a tile, iff it is on the board, adjacent, not the tile itself and not its up-left diagonal |
| Neighbors.NeighborsNearby | minesweeper.rb:23-38 | no tile lists itself; every neighbour is on the board and at most one step away |
| Neighbors.NoUpLeftNeighbor | minesweeper.rb:23-28 | the up-left diagonal is never listed, even when it is on the board |
| Neighbors.TranslateMultiplicity | minesweeper.rb:26-28 | with the effective offset counts, the square below is listed 3 times, below-right twice, others once |
| Neighbors.NeighborMultiplicity | minesweeper.rb:23-28 | the square below is listed three times, the square below-right twice, every other neighbour once |
| Neighbors.InteriorNeighbors | minesweeper.rb:23-38 | away from the edges a tile gets exactly ten entries, in the order of `move_indices` |
| Neighbors.NeighborsAsymmetric | minesweeper.rb:23-38 | on any board of side two or more, (0,0) lists (1,1) but (1,1) does not list (0,0) |
| Marks.Repeat | minesweeper.rb:17 | `[mark] * count` raises for a negative count and otherwise holds `count` copies of the mark |
| Marks.UniformCount | minesweeper.rb:17 | a repeated list holds its mark as often as it is long and no other mark |
| Marks.NumBombsFit | minesweeper.rb:40-42 | `NumBombs` (`num_bombs`) is non-negative and at most `size²` exactly for side 0 and sides of 2 or more |
| Marks.NonBombsSign | minesweeper.rb:16 | the non-bomb count is negative exactly for side length one |
| Marks.MarkList | minesweeper.rb:16-17 | the mark list raises for negative sizes and size one, with the failing count; otherwise it has `size²` marks, `2·size` bombs and the rest non-bombs |
| Marks.ShuffleFrom | minesweeper.rb:17 | each shuffle step keeps the length and the multiset of marks |
| Marks.Shuffle | minesweeper.rb:17 | `shuffle` returns a permutation of the mark list |
| Boards.PopRow | minesweeper.rb:18 | building one row pops `size` marks: tile `c` takes the mark `c + 1` places from the end, and those marks leave the stack |
| Boards.PopRows | minesweeper.rb:18 | the nested `Array.new` builds a `rows × cols` grid and consumes exactly `rows·cols` marks from the end |
| Boards.PopIndex | minesweeper.rb:18 | the index of the mark tile `(i, j)` receives lies inside the mark list |
| Boards.PopIndexInjective | minesweeper.rb:18 | distinct tiles receive distinct marks of the list |
| Boards.PopIndexOnto | minesweeper.rb:18 | every mark of the list goes to some tile |
| Boards.PopRowsMark | minesweeper.rb:18 | tile `(i, c)` holds the mark popped `(i·cols + c)`-th, counting from the end |
| Boards.PopRowBombs | minesweeper.rb:18 | a popped row has as many bombed tiles as bomb marks it took |
| Boards.PopRowsBombs | minesweeper.rb:18 | the popped grid has as many bombed tiles as bomb marks it took |
| Boards.ValidIsOnGrid | minesweeper.rb:36-38 | on a `size × size` grid, `Valid` (`valid?`) holds exactly for the coordinates of existing tiles |
| Boards.LinkTile | minesweeper.rb:26-30 | the innermost loop appends exactly the valid translates by the moves, in order, and changes nothing else |
| Boards.LinkTiles | minesweeper.rb:24-32 | the two outer loops give every tile its translates and change nothing else, keeping the grid's shape |
| Boards.ComputeNeighbors | minesweeper.rb:22-34 | `compute_neighbors` appends exactly `NeighborsOf` to every tile and leaves marks, flags and the grid shape unchanged |
| Boards.PlaceTiles | minesweeper.rb:18-19 | the grid holds as many bombs as the shuffled list, tile `(i, j)` takes the `(i·size + j)`-th popped mark, and its neighbour list is `NeighborsOf` |
| Boards.Initialize | minesweeper.rb:14-20 | `Board.new(size)` raises for negative sizes and size one, with the failing repeat count; otherwise it is a `size × size` grid with `2·size` bombed tiles, each unflagged, unrevealed and linked |
| Boards.DefaultSizeMarks | minesweeper.rb:14-17 | the default board has 81 marks, 18 of them bombs |
| Boards.SameMarksSameBombs | minesweeper.rb:22-34 | grids of the same shape whose tiles agree on their marks hold the same number of bombed tiles |
| Boards.SameRowBombs | minesweeper.rb:24-28 | rows of the same length whose tiles agree on their marks hold the same number of bombed tiles |

## Left out

- `Minesweeper#run` (lines 2-10): its body is only comments, so there is nothing to model.
- Flagging, revealing, and winning or losing: they appear only in the comments of `run`
  (lines 3-9), and the code implements none of them.
- The randomness of `Array#shuffle`: the random indices are a parameter (`draws`). Any
  sequence where step `k` of `n` draws an index below `n − k` is accepted.
- Marks.Shuffle: modelled as a Fisher–Yates pass from the back. It is proved to be a
  permutation. It is not proved that every permutation can be reached, or that all are
  equally likely.
- The commented-out call `tile.compute_bombs` (line 29) and `attr_accessor :neighbors`
  (line 46): neither has behaviour to model. The neighbour list is a field of the `Tile`
  value.
- Object identity and in-place mutation: tiles are immutable values, and each loop returns
  updated copies. Nothing in the code shares a tile between two places, so no aliasing is lost.
- Non-Integer sizes (for example a `Float` passed to `Board.new`): the model takes an
  integer side length.
- Boards.Initialize: the `nil` that `pop` returns on an empty stack is not modelled. The list
  always holds exactly `size²` marks, so it never happens.
- Display, input and output: the code has none.
- Marks.Repeat: lists are unbounded. Ruby's `Array#*` also raises `ArgumentError` when the
  count exceeds the maximum array length, and `RangeError` when it does not fit in a C
  `long`. Neither limit is modelled, so such counts succeed here.
- Boards.Initialize: for the same reason a very large `size` (for example `2**31`, whose
  non-bomb count `2^62 − 2^32` is past the array-length limit) raises in Ruby but yields a
  board here. Memory exhaustion is not modelled either.
- Moves.Difference: its own contract gives membership and length only. The counts and the
  order of `Array#-` are stated in `Moves.DifferenceCount` and `Moves.DifferenceAppend`.
