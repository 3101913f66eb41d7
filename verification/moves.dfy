/**
 * The `move_indices` list of `Board#compute_neighbors`, evaluated the way Ruby evaluates
 * `[-1,0,1].permutation(2).to_a - [0,0] + [1,1] + [-1,-1]`, and the offsets obtained by
 * reading `move[0]` and `move[1]` from each of its elements.
 */
module Moves {
  import opened Tiles

  /** The Ruby values that occur in `move_indices`: bare Integers and two-element Arrays. */
  datatype Value = Int(n: int) | Pair(first: int, second: int)

  function Pow2(i: nat): (r: nat)
    ensures r >= 1
  {
    if i == 0 then 1 else 2 * Pow2(i - 1)
  }

  /**
   * `Integer#[]`: bit `i` of the two's-complement representation of `n`, i.e. `(n >> i) & 1`
   * with an arithmetic (flooring) shift. Dafny's `/` and `%` by 2 floor, as Ruby's shift does.
   */
  function Bit(n: int, i: nat): (r: int)
    ensures r == 0 || r == 1
    decreases i
  {
    if i == 0 then n % 2 else Bit(n / 2, i - 1)
  }

  /**
   * Sign extension: once `i` is past the significant bits of `n`, bit `i` is the sign bit,
   * 1 for a negative Integer and 0 otherwise.
   */
  lemma {:induction false} SignBit(n: int, i: nat)
    requires -(Pow2(i) as int) <= n < Pow2(i)
    decreases i
    ensures Bit(n, i) == if n < 0 then 1 else 0
  {
    if i > 0 {
      SignBit(n / 2, i - 1);
    }
  }

  /** `-1[i]` is 1 for every bit position: the literal `-1` reads as the pair (1, 1). */
  lemma MinusOneBits(i: nat)
    ensures Bit(-1, i) == 1
  {
    SignBit(-1, i);
  }

  /** `1[0]` is 1 and every higher bit is 0: the literal `1` reads as the pair (1, 0). */
  lemma OneBits(i: nat)
    ensures Bit(1, i) == if i == 0 then 1 else 0
  {
    if i > 0 {
      SignBit(1, i);
    }
  }

  /** `move[i]` for `i` in {0, 1}: an Array element, or a bit when `move` is an Integer. */
  function At(v: Value, i: nat): int
    requires i < 2
  {
    match v
    case Pair(a, b) => if i == 0 then a else b
    case Int(n) => Bit(n, i)
  }

  /** The offset `[move[0], move[1]]` that `compute_neighbors` adds to a tile's coordinate. */
  function Offset(v: Value): Coord
  {
    (At(v, 0), At(v, 1))
  }

  /** The pairs `[xs[i], xs[j]]` for `j < js`, `j != i`, in increasing `j`. */
  function PairsWith(xs: seq<int>, i: nat, js: nat): (r: seq<Value>)
    requires i < |xs| && js <= |xs|
    ensures |r| == if i < js then js - 1 else js
    decreases js
  {
    if js == 0 then []
    else PairsWith(xs, i, js - 1) + (if js - 1 == i then [] else [Pair(xs[i], xs[js - 1])])
  }

  lemma {:induction false} PairsWithMembers(xs: seq<int>, i: nat, js: nat, v: Value)
    requires i < |xs| && js <= |xs|
    ensures v in PairsWith(xs, i, js) <==> exists j :: 0 <= j < js && j != i && v == Pair(xs[i], xs[j])
    decreases js
  {
    if js > 0 {
      PairsWithMembers(xs, i, js - 1, v);
    }
  }

  /** The pairs of `permutation(2)` whose first index is below `rows`, in Ruby's order. */
  function PairsUpTo(xs: seq<int>, rows: nat): (r: seq<Value>)
    requires rows <= |xs|
    decreases rows
  {
    if rows == 0 then []
    else PairsUpTo(xs, rows - 1) + PairsWith(xs, rows - 1, |xs|)
  }

  lemma {:induction false} PairsUpToMembers(xs: seq<int>, rows: nat, v: Value)
    requires rows <= |xs|
    ensures v in PairsUpTo(xs, rows) <==>
      exists i, j :: 0 <= i < rows && 0 <= j < |xs| && i != j && v == Pair(xs[i], xs[j])
    decreases rows
  {
    if rows > 0 {
      PairsUpToMembers(xs, rows - 1, v);
      PairsWithMembers(xs, rows - 1, |xs|, v);
    }
  }

  /**
   * `Array#permutation(2)`: every ordered pair of elements at two distinct positions,
   * ordered by first position and then by second position.
   */
  function Permutation2(xs: seq<int>): (r: seq<Value>)
  {
    PairsUpTo(xs, |xs|)
  }

  lemma {:induction false} PairsUpToLength(xs: seq<int>, rows: nat)
    requires rows <= |xs|
    ensures |PairsUpTo(xs, rows)| == rows * (|xs| - 1)
    decreases rows
  {
    if rows > 0 {
      PairsUpToLength(xs, rows - 1);
      assert (rows - 1) * (|xs| - 1) + (|xs| - 1) == rows * (|xs| - 1);
    }
  }

  /** `permutation(2)` of `n` elements yields `n * (n - 1)` pairs. */
  lemma Permutation2Length(xs: seq<int>)
    ensures |Permutation2(xs)| == |xs| * (|xs| - 1)
  {
    PairsUpToLength(xs, |xs|);
  }

  /** A value is produced by `permutation(2)` exactly when it pairs the elements at two distinct positions. */
  lemma Permutation2Members(xs: seq<int>, v: Value)
    ensures v in Permutation2(xs) <==>
      exists i, j :: 0 <= i < |xs| && 0 <= j < |xs| && i != j && v == Pair(xs[i], xs[j])
  {
    PairsUpToMembers(xs, |xs|, v);
  }

  /** `Array#-`: the elements of `xs` that do not occur in `ys`, in their original order. */
  function Difference(xs: seq<Value>, ys: seq<Value>): (r: seq<Value>)
    ensures |r| <= |xs|
    ensures forall v :: v in r <==> v in xs && v !in ys
  {
    if xs == [] then []
    else (if xs[0] in ys then [] else [xs[0]]) + Difference(xs[1..], ys)
  }

  /** Counts: `Array#-` drops every copy of a removed value and keeps every copy of the others. */
  lemma {:induction false} DifferenceCount(xs: seq<Value>, ys: seq<Value>, v: Value)
    ensures multiset(Difference(xs, ys))[v] == if v in ys then 0 else multiset(xs)[v]
    decreases |xs|
  {
    if xs != [] {
      assert xs == [xs[0]] + xs[1..];
      DifferenceCount(xs[1..], ys, v);
    }
  }

  /**
   * Order: `Array#-` works element by element, so subtracting from a concatenation is the
   * concatenation of the two differences. With `DifferenceSingle` this fixes the order of
   * the result: the kept elements appear as they do in `xs`.
   */
  lemma {:induction false} DifferenceAppend(xs: seq<Value>, zs: seq<Value>, ys: seq<Value>)
    ensures Difference(xs + zs, ys) == Difference(xs, ys) + Difference(zs, ys)
    decreases |xs|
  {
    if xs == [] {
      assert xs + zs == zs;
    } else {
      var head := if xs[0] in ys then [] else [xs[0]];
      assert Difference(xs + zs, ys) == head + Difference(xs[1..] + zs, ys) by {
        assert (xs + zs)[0] == xs[0] && (xs + zs)[1..] == xs[1..] + zs;
      }
      assert Difference(xs[1..] + zs, ys) == Difference(xs[1..], ys) + Difference(zs, ys) by {
        DifferenceAppend(xs[1..], zs, ys);
      }
      assert Difference(xs, ys) == head + Difference(xs[1..], ys);
      ConsAppend(head, Difference(xs[1..], ys), Difference(zs, ys),
        Difference(xs + zs, ys), Difference(xs[1..] + zs, ys), Difference(xs, ys));
    }
  }

  /** Regrouping `head + (a + b)` as `(head + a) + b`, for named sequences. */
  lemma ConsAppend(head: seq<Value>, a: seq<Value>, b: seq<Value>, whole: seq<Value>, tail: seq<Value>, front: seq<Value>)
    requires whole == head + tail && tail == a + b && front == head + a
    ensures whole == front + b
  {
  }

  /** A single element is kept exactly when it does not occur in `ys`. */
  lemma DifferenceSingle(x: Value, ys: seq<Value>)
    ensures Difference([x], ys) == if x in ys then [] else [x]
  {
    assert [x][1..] == [];
  }

  /** Removing values none of which occur leaves the list as it was. */
  lemma {:induction false} DifferenceDisjoint(xs: seq<Value>, ys: seq<Value>)
    requires forall v :: v in xs ==> v !in ys
    ensures Difference(xs, ys) == xs
  {
    if xs != [] {
      DifferenceDisjoint(xs[1..], ys);
      assert [xs[0]] + xs[1..] == xs;
    }
  }

  /** `move_indices` exactly as the Ruby expression builds it. */
  function MoveIndices(): seq<Value>
  {
    Difference(Permutation2([-1, 0, 1]), [Int(0), Int(0)]) + [Int(1), Int(1)] + [Int(-1), Int(-1)]
  }

  /** The offsets `compute_neighbors` adds for a list of moves: `[move[0], move[1]]` for each. */
  function OffsetsOf(moves: seq<Value>): seq<Coord>
  {
    seq(|moves|, k requires 0 <= k < |moves| => Offset(moves[k]))
  }

  /** The effective offset list: six permutation pairs, then `1, 1, -1, -1` read bitwise. */
  const EffectiveOffsets: seq<Coord> :=
    [(-1, 0), (-1, 1), (0, -1), (0, 1), (1, -1), (1, 0), (1, 0), (1, 0), (1, 1), (1, 1)]

  /** The six pairs `[-1,0,1].permutation(2)` yields, in Ruby's order. */
  const PermutationPairs: seq<Value> :=
    [Pair(-1, 0), Pair(-1, 1), Pair(0, -1), Pair(0, 1), Pair(1, -1), Pair(1, 0)]

  lemma PermutationLiteral()
    ensures Permutation2([-1, 0, 1]) == PermutationPairs
  {
    var xs := [-1, 0, 1];
    assert PairsWith(xs, 0, 1) == [];
    assert PairsWith(xs, 0, 2) == [Pair(-1, 0)];
    assert PairsWith(xs, 0, 3) == [Pair(-1, 0), Pair(-1, 1)];
    assert PairsWith(xs, 1, 1) == [Pair(0, -1)];
    assert PairsWith(xs, 1, 2) == [Pair(0, -1)];
    assert PairsWith(xs, 1, 3) == [Pair(0, -1), Pair(0, 1)];
    assert PairsWith(xs, 2, 1) == [Pair(1, -1)];
    assert PairsWith(xs, 2, 2) == [Pair(1, -1), Pair(1, 0)];
    assert PairsWith(xs, 2, 3) == [Pair(1, -1), Pair(1, 0)];
    assert PairsUpTo(xs, 1) == [Pair(-1, 0), Pair(-1, 1)];
    assert PairsUpTo(xs, 2) == [Pair(-1, 0), Pair(-1, 1), Pair(0, -1), Pair(0, 1)];
  }

  /**
   * `- [0,0]` removes the Integer 0, which is not among the pairs, so nothing is removed;
   * `+ [1,1] + [-1,-1]` appends four bare Integers, not two pairs.
   */
  lemma MoveIndicesLiteral()
    ensures MoveIndices() == PermutationPairs + [Int(1), Int(1), Int(-1), Int(-1)]
  {
    var pairs := Permutation2([-1, 0, 1]);
    assert pairs == PermutationPairs by {
      PermutationLiteral();
    }
    MoveIndicesOf([-1, 0, 1]);
  }

  /** The `move_indices` expression over any list: the pairs, then the four bare Integers. */
  lemma MoveIndicesOf(xs: seq<int>)
    ensures Difference(Permutation2(xs), [Int(0), Int(0)]) + [Int(1), Int(1)] + [Int(-1), Int(-1)] ==
      Permutation2(xs) + [Int(1), Int(1), Int(-1), Int(-1)]
  {
    PermutationMinusInts(xs, [Int(0), Int(0)]);
  }

  /** `permutation(2)` yields only Arrays, so subtracting Integers from it removes nothing. */
  lemma PermutationMinusInts(xs: seq<int>, ys: seq<Value>)
    requires forall k :: 0 <= k < |ys| ==> ys[k].Int?
    ensures Difference(Permutation2(xs), ys) == Permutation2(xs)
  {
    forall v | v in Permutation2(xs)
      ensures v !in ys
    {
      Permutation2Members(xs, v);
    }
    DifferenceDisjoint(Permutation2(xs), ys);
  }

  /** Reading `move[0], move[1]`: the pairs give themselves, `1` gives (1, 0) and `-1` gives (1, 1). */
  lemma OffsetsOfLiteral(moves: seq<Value>)
    requires moves == PermutationPairs + [Int(1), Int(1), Int(-1), Int(-1)]
    ensures OffsetsOf(moves) == EffectiveOffsets
  {
    OneBits(0);
    OneBits(1);
    MinusOneBits(0);
    MinusOneBits(1);
  }

  /** Reading `move[0], move[1]` off `move_indices` gives the effective offset list. */
  lemma OffsetsLiteral()
    ensures OffsetsOf(MoveIndices()) == EffectiveOffsets
  {
    MoveIndicesLiteral();
    OffsetsOfLiteral(MoveIndices());
  }

  // The three lemmas below take the list as a parameter pinned to `EffectiveOffsets` by a
  // requires. Stated over the constant directly, the solver unfolds the ten-element literal
  // at every use and runs out of resource; through the parameter it does so only here.

  /** Each effective offset is one step or less in each direction, and (-1, -1) is not among them. */
  lemma EffectiveOffsetsNearby(offsets: seq<Coord>, o: Coord)
    requires offsets == EffectiveOffsets
    requires o in offsets
    ensures -1 <= o.0 <= 1 && -1 <= o.1 <= 1 && o != (0, 0) && o != (-1, -1)
  {
  }

  /** Every compass direction except up-left is among the effective offsets. */
  lemma EffectiveOffsetsCover(offsets: seq<Coord>, o: Coord)
    requires offsets == EffectiveOffsets
    ensures -1 <= o.0 <= 1 && -1 <= o.1 <= 1 && o != (0, 0) && o != (-1, -1) ==> o in offsets
  {
  }

  /** The downward offset occurs three times, the down-right offset twice, every other offset once. */
  lemma EffectiveOffsetsCount(offsets: seq<Coord>, o: Coord)
    requires offsets == EffectiveOffsets
    requires o in offsets
    ensures multiset(offsets)[o] == if o == (1, 0) then 3 else if o == (1, 1) then 2 else 1
  {
  }

  /** `EffectiveOffsetsCount` for every offset at once. */
  lemma EffectiveOffsetsCounts()
    ensures forall o :: o in EffectiveOffsets ==>
      multiset(EffectiveOffsets)[o] == if o == (1, 0) then 3 else if o == (1, 1) then 2 else 1
  {
    forall o | o in EffectiveOffsets
      ensures multiset(EffectiveOffsets)[o] == if o == (1, 0) then 3 else if o == (1, 1) then 2 else 1
    {
      EffectiveOffsetsCount(EffectiveOffsets, o);
    }
  }
}
