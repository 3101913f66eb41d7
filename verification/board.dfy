/**
 * `Board#initialize` and `Board#compute_neighbors`: the marks are popped off the end of the
 * shuffled mark list into a `size × size` grid, row by row, and then every tile is given
 * its neighbour list.
 */
module Boards {
  import opened Tiles
  import opened Moves
  import opened Neighbors
  import opened Marks

  /** The instance variables of a board. */
  datatype Board = Board(size: int, tiles: seq<seq<Tile>>)

  /** The side length `Board.new` uses when none is given. */
  const DefaultSize: int := 9

  /** `rows` rows of `cols` tiles each. */
  predicate IsGrid(tiles: seq<seq<Tile>>, rows: int, cols: int)
  {
    |tiles| == rows && forall i :: 0 <= i < |tiles| ==> |tiles[i]| == cols
  }

  /**
   * `Array.new(k) { Tile.new(marks.pop) }`: the first tile takes the last mark, and the
   * popped marks are gone from the stack afterwards.
   */
  function PopRow(stack: seq<Mark>, k: nat): (r: (seq<Tile>, seq<Mark>))
    requires k <= |stack|
    ensures |r.0| == k
    ensures r.1 == stack[..|stack| - k]
    ensures forall c :: 0 <= c < k ==> r.0[c] == NewTile(stack[|stack| - 1 - c])
    decreases k
  {
    if k == 0 then ([], stack)
    else
      var tile := NewTile(stack[|stack| - 1]);
      var rest := PopRow(stack[..|stack| - 1], k - 1);
      ([tile] + rest.0, rest.1)
  }

  /** `rows * cols` is `(rows - 1) * cols` plus one more row. */
  lemma MulStep(rows: nat, cols: nat)
    requires rows > 0
    ensures (rows - 1) * cols + cols == rows * cols
    ensures (rows - 1) * cols >= 0
  {
  }

  /** Row-major position `i * cols + c` of a cell lies below `rows * cols`. */
  lemma RowMajorBound(rows: nat, cols: nat, i: nat, c: nat)
    requires i < rows && c < cols
    ensures i * cols + c < rows * cols
  {
    assert (i + 1) * cols <= rows * cols;
  }

  /**
   * The index in the shuffled list of the mark tile `(i, j)` receives: it is the
   * `(i * size + j)`-th pop, and every pop takes the current last element.
   */
  function PopIndex(size: nat, i: nat, j: nat): (k: nat)
    requires i < size && j < size
    ensures k < size * size
  {
    RowMajorBound(size, size, i, j);
    size * size - 1 - (i * size + j)
  }

  /** The mark tile `(i, j)` receives. */
  function PoppedMark(marks: seq<Mark>, size: nat, i: nat, j: nat): Mark
    requires |marks| == size * size && i < size && j < size
  {
    marks[PopIndex(size, i, j)]
  }

  /** Distinct tiles receive marks from distinct positions of the list. */
  lemma PopIndexInjective(size: nat, i: nat, j: nat, i2: nat, j2: nat)
    requires i < size && j < size && i2 < size && j2 < size
    requires PopIndex(size, i, j) == PopIndex(size, i2, j2)
    ensures i == i2 && j == j2
  {
    if i < i2 {
      RowMajorBound(i2, size, i, j);
    } else if i2 < i {
      RowMajorBound(i, size, i2, j2);
    }
  }

  /** Every position of the `size²`-long list is popped onto some tile. */
  lemma PopIndexOnto(size: nat, k: nat) returns (i: nat, j: nat)
    requires k < size * size
    ensures i < size && j < size && PopIndex(size, i, j) == k
  {
    var pos := size * size - 1 - k;
    i := pos / size;
    j := pos % size;
    assert pos == i * size + j;
    assert i < size;
  }

  /** `Array.new(rows) { Array.new(cols) { Tile.new(marks.pop) } }`, row by row. */
  function PopRows(stack: seq<Mark>, rows: nat, cols: nat): (r: (seq<seq<Tile>>, seq<Mark>))
    requires rows * cols <= |stack|
    ensures IsGrid(r.0, rows, cols)
    ensures r.1 == stack[..|stack| - rows * cols]
    decreases rows
  {
    if rows == 0 then ([], stack)
    else
      MulStep(rows, cols);
      var first := PopRow(stack, cols);
      var rest := PopRows(first.1, rows - 1, cols);
      ([first.0] + rest.0, rest.1)
  }

  /**
   * Tile `(i, c)` of the popped grid is the `(i * cols + c)`-th pop, so it takes the mark
   * that many places from the end of the stack.
   */
  lemma {:induction false} PopRowsMark(stack: seq<Mark>, rows: nat, cols: nat, i: nat, c: nat)
    requires rows * cols <= |stack|
    requires i < rows && c < cols
    ensures i * cols + c < rows * cols
    ensures PopRows(stack, rows, cols).0[i][c] == NewTile(stack[|stack| - 1 - (i * cols + c)])
    decreases rows
  {
    MulStep(rows, cols);
    var first := PopRow(stack, cols);
    if i > 0 {
      PopRowsMark(first.1, rows - 1, cols, i - 1, c);
      MulStep(i, cols);
    }
  }

  /** On a `size × size` grid, `valid?` holds exactly for the coordinates of existing tiles. */
  lemma ValidIsOnGrid(tiles: seq<seq<Tile>>, size: int, p: Coord)
    requires IsGrid(tiles, size, size)
    ensures Valid(size, p) <==> 0 <= p.0 < |tiles| && 0 <= p.1 < |tiles[p.0]|
  {
  }

  /** The number of tiles in a row that satisfy `is_bombed?`. */
  function RowBombs(row: seq<Tile>): nat
  {
    if row == [] then 0 else (if IsBombed(row[0]) then 1 else 0) + RowBombs(row[1..])
  }

  /** The number of tiles on the board that satisfy `is_bombed?`. */
  function BombCount(tiles: seq<seq<Tile>>): nat
  {
    if tiles == [] then 0 else RowBombs(tiles[0]) + BombCount(tiles[1..])
  }

  /** A popped row holds as many bombs as the marks it took off the stack. */
  lemma {:induction false} PopRowBombs(stack: seq<Mark>, k: nat)
    requires k <= |stack|
    ensures RowBombs(PopRow(stack, k).0) == multiset(stack[|stack| - k..])[Bomb]
    decreases k
  {
    if k > 0 {
      var n := |stack|;
      var init := stack[..n - 1];
      var row := PopRow(stack, k).0;
      var tail := PopRow(init, k - 1).0;
      assert row == [NewTile(stack[n - 1])] + tail;
      assert RowBombs(row) == (if stack[n - 1] == Bomb then 1 else 0) + RowBombs(tail) by {
        assert row[1..] == tail;
      }
      assert RowBombs(tail) == multiset(stack[n - k..n - 1])[Bomb] by {
        PopRowBombs(init, k - 1);
        assert init[|init| - (k - 1)..] == stack[n - k..n - 1];
      }
      assert stack[n - k..] == stack[n - k..n - 1] + [stack[n - 1]];
    }
  }

  /** The last `earlier + last` marks are the `earlier` ones before the final `last`, then those. */
  lemma SuffixSplit(stack: seq<Mark>, earlier: nat, last: nat)
    requires earlier + last <= |stack|
    ensures multiset(stack[|stack| - (earlier + last)..]) ==
      multiset(stack[..|stack| - last][|stack| - last - earlier..]) + multiset(stack[|stack| - last..])
  {
    var n := |stack|;
    assert stack[..n - last][n - last - earlier..] == stack[n - (earlier + last)..n - last];
    assert stack[n - (earlier + last)..] == stack[n - (earlier + last)..n - last] + stack[n - last..];
  }

  /** The popped grid holds as many bombs as the marks it took off the stack. */
  lemma {:induction false} PopRowsBombs(stack: seq<Mark>, rows: nat, cols: nat)
    requires rows * cols <= |stack|
    ensures BombCount(PopRows(stack, rows, cols).0) == multiset(stack[|stack| - rows * cols..])[Bomb]
    decreases rows
  {
    if rows > 0 {
      MulStep(rows, cols);
      var first := PopRow(stack, cols);
      var rest := PopRows(first.1, rows - 1, cols);
      assert BombCount(PopRows(stack, rows, cols).0) == RowBombs(first.0) + BombCount(rest.0) by {
        assert PopRows(stack, rows, cols).0 == [first.0] + rest.0;
        assert ([first.0] + rest.0)[1..] == rest.0;
      }
      var n, earlier := |stack|, (rows - 1) * cols;
      assert earlier + cols == rows * cols;
      assert RowBombs(first.0) == multiset(stack[n - cols..])[Bomb] by {
        PopRowBombs(stack, cols);
      }
      assert BombCount(rest.0) == multiset(stack[..n - cols][n - cols - earlier..])[Bomb] by {
        assert first.1 == stack[..n - cols] && |first.1| == n - cols;
        PopRowsBombs(first.1, rows - 1, cols);
      }
      assert multiset(stack[n - (earlier + cols)..])[Bomb] ==
        multiset(stack[..n - cols][n - cols - earlier..])[Bomb] + multiset(stack[n - cols..])[Bomb] by {
        SuffixSplit(stack, earlier, cols);
      }
    }
  }

  /**
   * The innermost loop of `compute_neighbors` for one tile: for each move in order,
   * append `[row + move[0], col + move[1]]` when it passes `valid?`.
   */
  method LinkTile(size: int, row: int, col: int, tile: Tile, moves: seq<Value>) returns (linked: Tile)
    ensures linked == tile.(neighbors := tile.neighbors + Translates(size, (row, col), OffsetsOf(moves)))
  {
    linked := tile;
    var k := 0;
    while k < |moves|
      invariant 0 <= k <= |moves|
      invariant linked == tile.(neighbors := tile.neighbors + Translates(size, (row, col), OffsetsOf(moves)[..k]))
    {
      var move := moves[k];
      var potential := (row + At(move, 0), col + At(move, 1));
      assert OffsetsOf(moves)[..k + 1][..k] == OffsetsOf(moves)[..k];
      if Valid(size, potential) {
        linked := linked.(neighbors := linked.neighbors + [potential]);
      }
      k := k + 1;
    }
    assert OffsetsOf(moves)[..k] == OffsetsOf(moves);
  }

  /**
   * The two outer loops of `compute_neighbors` over `each_with_index`, for a given
   * `move_indices`: every tile gets its translates appended and is otherwise unchanged.
   */
  method LinkTiles(size: int, tiles: seq<seq<Tile>>, moves: seq<Value>) returns (linked: seq<seq<Tile>>)
    ensures |linked| == |tiles|
    ensures forall i :: 0 <= i < |tiles| ==> |linked[i]| == |tiles[i]|
    ensures forall i, j :: 0 <= i < |tiles| && 0 <= j < |tiles[i]| ==>
      linked[i][j] == tiles[i][j].(neighbors := tiles[i][j].neighbors + Translates(size, (i, j), OffsetsOf(moves)))
  {
    linked := [];
    var i := 0;
    while i < |tiles|
      invariant 0 <= i <= |tiles|
      invariant |linked| == i
      invariant forall a :: 0 <= a < i ==> |linked[a]| == |tiles[a]|
      invariant forall a, b :: 0 <= a < i && 0 <= b < |tiles[a]| ==>
        linked[a][b] == tiles[a][b].(neighbors := tiles[a][b].neighbors + Translates(size, (a, b), OffsetsOf(moves)))
    {
      var row: seq<Tile> := [];
      var j := 0;
      while j < |tiles[i]|
        invariant 0 <= j <= |tiles[i]|
        invariant |row| == j
        invariant forall b :: 0 <= b < j ==>
          row[b] == tiles[i][b].(neighbors := tiles[i][b].neighbors + Translates(size, (i, b), OffsetsOf(moves)))
      {
        var tile := LinkTile(size, i, j, tiles[i][j], moves);
        row := row + [tile];
        j := j + 1;
      }
      linked := linked + [row];
      i := i + 1;
    }
  }

  /**
   * `compute_neighbors`: evaluates `move_indices` and links every tile; each tile's
   * neighbour list grows by exactly `NeighborsOf` and nothing else about it changes.
   */
  method ComputeNeighbors(size: int, tiles: seq<seq<Tile>>) returns (linked: seq<seq<Tile>>)
    ensures |linked| == |tiles|
    ensures forall i :: 0 <= i < |tiles| ==> |linked[i]| == |tiles[i]|
    ensures forall i, j :: 0 <= i < |tiles| && 0 <= j < |tiles[i]| ==>
      && linked[i][j].mark == tiles[i][j].mark
      && linked[i][j].flagged == tiles[i][j].flagged
      && linked[i][j].revealed == tiles[i][j].revealed
      && linked[i][j].neighbors == tiles[i][j].neighbors + NeighborsOf(size, i, j)
  {
    var moveIndices := MoveIndices();
    assert OffsetsOf(moveIndices) == EffectiveOffsets by {
      OffsetsLiteral();
    }
    linked := LinkTiles(size, tiles, moveIndices);
  }

  /**
   * The last two statements of `initialize`: pop the shuffled marks into a `size × size`
   * grid and link the tiles. The grid holds as many bombs as the list, tile `(i, j)` holds
   * the `(i * size + j)`-th popped mark, and its neighbour list is `NeighborsOf`.
   */
  method PlaceTiles(size: nat, marks: seq<Mark>) returns (tiles: seq<seq<Tile>>)
    requires |marks| == size * size
    ensures IsGrid(tiles, size, size)
    ensures BombCount(tiles) == multiset(marks)[Bomb]
    ensures forall i, j :: 0 <= i < size && 0 <= j < size ==>
      tiles[i][j] == Tile(PoppedMark(marks, size, i, j), NeighborsOf(size, i, j), false, false)
  {
    var placed := PopRows(marks, size, size);
    assert placed.1 == [];
    tiles := ComputeNeighbors(size, placed.0);
    assert BombCount(tiles) == multiset(marks)[Bomb] by {
      SameMarksSameBombs(tiles, placed.0);
      PopRowsBombs(marks, size, size);
      assert marks[|marks| - size * size..] == marks;
    }
    forall i, j | 0 <= i < size && 0 <= j < size
      ensures tiles[i][j] == Tile(PoppedMark(marks, size, i, j), NeighborsOf(size, i, j), false, false)
    {
      PopRowsMark(marks, size, size, i, j);
    }
  }

  /**
   * `Board.new(size)` with the shuffle's random draws supplied. It raises for a negative
   * side length and for side length 1; otherwise tile `(i, j)` holds the mark popped
   * `i * size + j`-th from the shuffled list, no flag, no reveal, and its neighbour list,
   * and exactly `num_bombs` tiles are bombed.
   */
  method Initialize(size: int, draws: seq<int>) returns (r: Result<Board>)
    requires (size == 0 || size >= 2) ==> IsDraws(draws, size * size)
    ensures r.Failure? <==> size < 0 || size == 1
    ensures size < 0 ==> r == Failure(NegativeArgument(NumBombs(size)))
    ensures size == 1 ==> r == Failure(NegativeArgument(NonBombs(size)))
    ensures r.Success? ==> r.value.size == size && IsGrid(r.value.tiles, size, size)
    ensures r.Success? ==> BombCount(r.value.tiles) == NumBombs(size)
    ensures r.Success? ==>
      var marks := Shuffle(MarkList(size).value, draws);
      forall i, j :: 0 <= i < size && 0 <= j < size ==>
        r.value.tiles[i][j] == Tile(PoppedMark(marks, size, i, j), NeighborsOf(size, i, j), false, false)
  {
    var list := MarkList(size);
    if list.Failure? {
      return Failure(list.error);
    }
    var marks := Shuffle(list.value, draws);
    var tiles := PlaceTiles(size, marks);
    r := Success(Board(size, tiles));
  }

  /** The default board is 9 × 9 with 18 bombs among its 81 marks. */
  lemma DefaultSizeMarks()
    ensures MarkList(DefaultSize).Success?
    ensures |MarkList(DefaultSize).value| == 81
    ensures multiset(MarkList(DefaultSize).value)[Bomb] == 18
    ensures multiset(MarkList(DefaultSize).value)[NoBomb] == 63
  {
  }

  /** Two grids of the same shape whose tiles agree on their marks hold the same number of bombs. */
  lemma {:induction false} SameMarksSameBombs(a: seq<seq<Tile>>, b: seq<seq<Tile>>)
    requires |a| == |b|
    requires forall i :: 0 <= i < |a| ==> |a[i]| == |b[i]|
    requires forall i, j :: 0 <= i < |a| && 0 <= j < |a[i]| ==> a[i][j].mark == b[i][j].mark
    ensures BombCount(a) == BombCount(b)
    decreases |a|
  {
    if a != [] {
      SameRowBombs(a[0], b[0]);
      SameMarksSameBombs(a[1..], b[1..]);
    }
  }

  lemma {:induction false} SameRowBombs(a: seq<Tile>, b: seq<Tile>)
    requires |a| == |b|
    requires forall j :: 0 <= j < |a| ==> a[j].mark == b[j].mark
    ensures RowBombs(a) == RowBombs(b)
    decreases |a|
  {
    if a != [] {
      SameRowBombs(a[1..], b[1..]);
    }
  }
}
