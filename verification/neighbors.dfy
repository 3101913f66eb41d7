/**
 * `Board#valid?` and the neighbour list `Board#compute_neighbors` gives one tile:
 * every translate of the tile's coordinate by an element of `move_indices` that
 * passes `valid?`, in the order of `move_indices`.
 */
module Neighbors {
  import opened Tiles
  import opened Moves

  /** `valid?`: both coordinates lie in `0..size-1` (`Integer#between?` includes both ends). */
  predicate Valid(size: int, p: Coord)
  {
    0 <= p.0 <= size - 1 && 0 <= p.1 <= size - 1
  }

  /** `[row_index + move[0], col_index + move[1]]` for an offset already read off `move`. */
  function Add(p: Coord, o: Coord): Coord
  {
    (p.0 + o.0, p.1 + o.1)
  }

  /**
   * What the innermost loop appends for the moves seen so far: each translate of `pos`
   * that passes `valid?`, in order. Defined from the back, as the loop grows it.
   */
  function Translates(size: int, pos: Coord, moves: seq<Coord>): (r: seq<Coord>)
    ensures |r| <= |moves|
    ensures forall q :: q in r ==> Valid(size, q)
    decreases |moves|
  {
    if moves == [] then []
    else
      var earlier := Translates(size, pos, moves[..|moves| - 1]);
      var p := Add(pos, moves[|moves| - 1]);
      if Valid(size, p) then earlier + [p] else earlier
  }

  /**
   * The neighbour list `compute_neighbors` appends to the tile at `(row, col)`: the valid
   * translates by the effective offsets (`Moves.OffsetsLiteral` shows these are the offsets
   * read off `move_indices`).
   */
  function NeighborsOf(size: int, row: int, col: int): seq<Coord>
  {
    Translates(size, (row, col), EffectiveOffsets)
  }

  /** A coordinate is listed exactly when it is valid and is the translate of some move. */
  lemma {:induction false} TranslatesMembers(size: int, pos: Coord, moves: seq<Coord>, q: Coord)
    ensures q in Translates(size, pos, moves) <==>
      Valid(size, q) && exists k :: 0 <= k < |moves| && q == Add(pos, moves[k])
    decreases |moves|
  {
    if moves != [] {
      var init := moves[..|moves| - 1];
      TranslatesMembers(size, pos, init, q);
      if exists k :: 0 <= k < |moves| && q == Add(pos, moves[k]) {
        var k :| 0 <= k < |moves| && q == Add(pos, moves[k]);
        if k < |moves| - 1 {
          assert init[k] == moves[k];
        }
      }
    }
  }

  /**
   * A move that occurs `m` times contributes `m` copies of its translate when that translate
   * is valid, and none otherwise; nothing is merged or deduplicated.
   */
  lemma {:induction false} TranslatesCount(size: int, pos: Coord, moves: seq<Coord>, o: Coord)
    ensures multiset(Translates(size, pos, moves))[Add(pos, o)] ==
      if Valid(size, Add(pos, o)) then multiset(moves)[o] else 0
    decreases |moves|
  {
    if moves != [] {
      var init := moves[..|moves| - 1];
      TranslatesCount(size, pos, init, o);
      assert moves == init + [moves[|moves| - 1]];
    }
  }

  /** When every translate is valid, the list is all the translates, in order. */
  lemma {:induction false} TranslatesAllValid(size: int, pos: Coord, moves: seq<Coord>)
    requires forall k :: 0 <= k < |moves| ==> Valid(size, Add(pos, moves[k]))
    ensures Translates(size, pos, moves) == seq(|moves|, k requires 0 <= k < |moves| => Add(pos, moves[k]))
    decreases |moves|
  {
    if moves != [] {
      var init := moves[..|moves| - 1];
      TranslatesAllValid(size, pos, init);
    }
  }

  /** A coordinate is listed exactly when it is valid and its position relative to `pos` is a move. */
  lemma TranslateOffset(size: int, pos: Coord, moves: seq<Coord>, q: Coord)
    ensures q in Translates(size, pos, moves) <==> Valid(size, q) && (q.0 - pos.0, q.1 - pos.1) in moves
  {
    TranslatesMembers(size, pos, moves, q);
    var o := (q.0 - pos.0, q.1 - pos.1);
    if o in moves {
      var k :| 0 <= k < |moves| && moves[k] == o;
      assert q == Add(pos, moves[k]);
    }
  }

  /** A listed coordinate occurs as often as its offset from `pos` occurs among the moves. */
  lemma TranslateCountAt(size: int, pos: Coord, moves: seq<Coord>, q: Coord)
    requires q in Translates(size, pos, moves)
    ensures multiset(Translates(size, pos, moves))[q] == multiset(moves)[(q.0 - pos.0, q.1 - pos.1)]
  {
    var o := (q.0 - pos.0, q.1 - pos.1);
    assert q == Add(pos, o);
    TranslatesCount(size, pos, moves, o);
  }

  /**
   * The neighbour relation exactly: a valid coordinate is listed when it is one of the
   * eight surrounding squares other than the up-left diagonal.
   */
  lemma NeighborsExactly(size: int, row: int, col: int, q: Coord)
    ensures q in NeighborsOf(size, row, col) <==>
      && Valid(size, q)
      && -1 <= q.0 - row <= 1 && -1 <= q.1 - col <= 1
      && q != (row, col)
      && q != (row - 1, col - 1)
  {
    var o := (q.0 - row, q.1 - col);
    assert q in NeighborsOf(size, row, col) <==> Valid(size, q) && o in EffectiveOffsets by {
      TranslateOffset(size, (row, col), EffectiveOffsets, q);
    }
    assert o in EffectiveOffsets ==> -1 <= o.0 <= 1 && -1 <= o.1 <= 1 && o != (0, 0) && o != (-1, -1) by {
      if o in EffectiveOffsets {
        EffectiveOffsetsNearby(EffectiveOffsets, o);
      }
    }
    assert -1 <= o.0 <= 1 && -1 <= o.1 <= 1 && o != (0, 0) && o != (-1, -1) ==> o in EffectiveOffsets by {
      EffectiveOffsetsCover(EffectiveOffsets, o);
    }
  }

  /** No tile lists itself, and every listed neighbour is at most one step away in each coordinate. */
  lemma NeighborsNearby(size: int, row: int, col: int)
    ensures (row, col) !in NeighborsOf(size, row, col)
    ensures forall q :: q in NeighborsOf(size, row, col) ==>
      -1 <= q.0 - row <= 1 && -1 <= q.1 - col <= 1 && Valid(size, q)
  {
    NeighborsExactly(size, row, col, (row, col));
    forall q | q in NeighborsOf(size, row, col)
      ensures -1 <= q.0 - row <= 1 && -1 <= q.1 - col <= 1
    {
      NeighborsExactly(size, row, col, q);
    }
  }

  /** The up-left diagonal is never a neighbour, even when it is on the board. */
  lemma NoUpLeftNeighbor(size: int, row: int, col: int)
    ensures (row - 1, col - 1) !in NeighborsOf(size, row, col)
  {
    NeighborsExactly(size, row, col, (row - 1, col - 1));
  }

  /**
   * Duplicates, for any offset list with the counts of the effective one: the square
   * below is listed three times, the square below-right twice, every other neighbour once.
   */
  lemma TranslateMultiplicity(size: int, row: int, col: int, offsets: seq<Coord>, q: Coord)
    requires q in Translates(size, (row, col), offsets)
    requires forall o :: o in offsets ==>
      multiset(offsets)[o] == if o == (1, 0) then 3 else if o == (1, 1) then 2 else 1
    ensures multiset(Translates(size, (row, col), offsets))[q] ==
      if q == (row + 1, col) then 3 else if q == (row + 1, col + 1) then 2 else 1
  {
    var o := (q.0 - row, q.1 - col);
    TranslateOffset(size, (row, col), offsets, q);
    TranslateCountAt(size, (row, col), offsets, q);
    assert o == (1, 0) <==> q == (row + 1, col);
    assert o == (1, 1) <==> q == (row + 1, col + 1);
  }

  /**
   * Duplicates: the square below is listed three times and the square below-right twice,
   * when on the board; every other neighbour once.
   */
  lemma NeighborMultiplicity(size: int, row: int, col: int, q: Coord)
    requires q in NeighborsOf(size, row, col)
    ensures multiset(NeighborsOf(size, row, col))[q] ==
      if q == (row + 1, col) then 3 else if q == (row + 1, col + 1) then 2 else 1
  {
    EffectiveOffsetsCounts();
    TranslateMultiplicity(size, row, col, EffectiveOffsets, q);
  }

  /** Away from the edges the list is the ten translates of the effective offsets, in order. */
  lemma InteriorNeighbors(size: int, row: int, col: int)
    requires 1 <= row < size - 1 && 1 <= col < size - 1
    ensures NeighborsOf(size, row, col) ==
      [(row - 1, col), (row - 1, col + 1), (row, col - 1), (row, col + 1), (row + 1, col - 1),
       (row + 1, col), (row + 1, col), (row + 1, col), (row + 1, col + 1), (row + 1, col + 1)]
  {
    TranslatesAllValid(size, (row, col), EffectiveOffsets);
  }

  /**
   * The relation is not symmetric: on any board of side two or more, the top-left tile lists
   * (1, 1) but (1, 1) does not list (0, 0).
   */
  lemma NeighborsAsymmetric(size: int)
    requires size >= 2
    ensures (1, 1) in NeighborsOf(size, 0, 0)
    ensures (0, 0) !in NeighborsOf(size, 1, 1)
  {
    NeighborsExactly(size, 0, 0, (1, 1));
    NeighborsExactly(size, 1, 1, (0, 0));
  }
}
