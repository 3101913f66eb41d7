/**
 * The mark list of `Board#initialize`: `num_bombs` bomb symbols followed by the
 * non-bomb symbols, built with `Array#*`, and then shuffled.
 */
module Marks {
  import opened Tiles

  /** `Array#*` raises `ArgumentError` ("negative argument") for a negative repeat count. */
  datatype Error = NegativeArgument(count: int)

  /** The outcome of an operation that may raise. */
  datatype Result<T> = Success(value: T) | Failure(error: Error)

  /** `Board#num_bombs`: twice the side length. */
  function NumBombs(size: int): int
  {
    size * 2
  }

  /** `(@size ** 2) - num_bombs`, which is negative for a side length of one. */
  function NonBombs(size: int): int
  {
    size * size - NumBombs(size)
  }

  /** `[mark] * count`. */
  function Repeat(mark: Mark, count: int): (r: Result<seq<Mark>>)
    ensures r.Failure? <==> count < 0
    ensures r.Failure? ==> r.error == NegativeArgument(count)
    ensures r.Success? ==> |r.value| == count && forall i :: 0 <= i < |r.value| ==> r.value[i] == mark
  {
    if count < 0 then Failure(NegativeArgument(count)) else Success(seq(count, _ => mark))
  }

  /** A list holding one mark only contains that mark as often as it is long. */
  lemma {:induction false} UniformCount(s: seq<Mark>, mark: Mark)
    requires forall i :: 0 <= i < |s| ==> s[i] == mark
    ensures multiset(s)[mark] == |s|
    ensures forall other :: other != mark ==> multiset(s)[other] == 0
  {
    if s != [] {
      UniformCount(s[1..], mark);
      assert s == [s[0]] + s[1..];
    }
  }

  /** The sign of `size² − 2·size`: negative exactly for a side length of one. */
  lemma NonBombsSign(size: int)
    ensures NonBombs(size) < 0 <==> size == 1
  {
    if size >= 2 {
      assert size * size >= 2 * size;
    } else if size < 0 {
      assert size * size >= 0;
    }
  }

  /**
   * `num_bombs` is `2·size`: it is never negative for a board side, and the bombs fit on the
   * board (leave a non-negative number of other squares) exactly for side 0 and sides of 2 or more.
   */
  lemma NumBombsFit(size: int)
    ensures 0 <= NumBombs(size) <= size * size <==> size == 0 || size >= 2
  {
    NonBombsSign(size);
  }

  /**
   * `[:bomb] * num_bombs + [:no_bomb] * non_bombs`. The bomb repetition raises first, for a
   * negative side length; the non-bomb repetition raises for a side length of one. Otherwise
   * the list holds `size²` marks, `2·size` of them bombs and the rest non-bombs.
   */
  function MarkList(size: int): (r: Result<seq<Mark>>)
    ensures r.Success? <==> size == 0 || size >= 2
    ensures size < 0 ==> r == Failure(NegativeArgument(2 * size))
    ensures size == 1 ==> r == Failure(NegativeArgument(-1))
    ensures r.Success? ==>
      && |r.value| == size * size
      && multiset(r.value)[Bomb] == NumBombs(size)
      && multiset(r.value)[NoBomb] == NonBombs(size)
  {
    NonBombsSign(size);
    match Repeat(Bomb, NumBombs(size))
    case Failure(e) => Failure(e)
    case Success(bombs) =>
      match Repeat(NoBomb, NonBombs(size))
      case Failure(e) => Failure(e)
      case Success(others) =>
        UniformCount(bombs, Bomb);
        UniformCount(others, NoBomb);
        assert multiset(bombs + others) == multiset(bombs) + multiset(others);
        Success(bombs + others)
  }

  /**
   * The random draws of `Array#shuffle`: at step `k` of `n`, an index below `n - k`.
   * Any such sequence is a legitimate outcome of the random source.
   */
  predicate IsDraws(draws: seq<int>, n: int)
  {
    |draws| == n && forall k :: 0 <= k < |draws| ==> 0 <= draws[k] < n - k
  }

  /**
   * Steps `k` onwards of `Array#shuffle` (a Fisher–Yates pass from the back): step `k`
   * swaps position `n - 1 - k` with the drawn position `draws[k]`.
   */
  function ShuffleFrom(s: seq<Mark>, draws: seq<int>, k: nat): (r: seq<Mark>)
    requires IsDraws(draws, |s|) && k <= |s|
    ensures |r| == |s|
    ensures multiset(r) == multiset(s)
    decreases |s| - k
  {
    if k == |s| then s
    else
      var i := |s| - 1 - k;
      var j := draws[k];
      ShuffleFrom(s[i := s[j]][j := s[i]], draws, k + 1)
  }

  /** `Array#shuffle` driven by the given draws: a permutation of its input. */
  function Shuffle(s: seq<Mark>, draws: seq<int>): (r: seq<Mark>)
    requires IsDraws(draws, |s|)
    ensures |r| == |s|
    ensures multiset(r) == multiset(s)
  {
    ShuffleFrom(s, draws, 0)
  }
}
