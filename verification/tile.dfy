/** A single square of the board: the `Tile` class of minesweeper.rb. */
module Tiles {

  /** The two symbols a tile's mark is drawn from: `:bomb` and `:no_bomb`. */
  datatype Mark = Bomb | NoBomb

  /** A board coordinate `[row, col]`. Neighbour lists hold coordinates, never tiles. */
  type Coord = (int, int)

  /** The instance variables of a tile: its mark, its neighbour list and two state flags. */
  datatype Tile = Tile(mark: Mark, neighbors: seq<Coord>, flagged: bool, revealed: bool)

  /** `Tile.new(mark)`: a fresh tile is unflagged, unrevealed and has no neighbours yet. */
  function NewTile(mark: Mark): (t: Tile)
    ensures t.mark == mark
    ensures t.neighbors == [] && !t.flagged && !t.revealed
  {
    Tile(mark, [], false, false)
  }

  /** `is_bombed?`: the tile's mark is the bomb symbol. */
  predicate IsBombed(t: Tile)
  {
    t.mark == Bomb
  }

  /** `reveal` has an empty body: it changes nothing. */
  function Reveal(t: Tile): (r: Tile)
    ensures r == t
  {
    t
  }

  /** A fresh tile is bombed exactly when it was given the bomb mark, and revealing it leaves it fresh. */
  lemma FreshTile(mark: Mark)
    ensures IsBombed(NewTile(mark)) <==> mark == Bomb
    ensures Reveal(NewTile(mark)) == NewTile(mark)
    ensures !Reveal(NewTile(mark)).revealed
  {
  }
}
