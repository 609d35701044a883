/*
 * iterative_deepening (chess-core/src/search.rs): the root search at
 * depth 1, 2, ... up to the maximum depth, keeping the latest result and
 * stopping early once a score says a mate was found.
 */
module Deepening {
  import opened Wrappers
  import opened Search

  /** A score beyond this is a mate score. */
  const MateBound := 10000

  /** `i32::abs` on a score (scores never reach `i32::MIN`). */
  function Magnitude(x: int): nat
  {
    if x < 0 then -x else x
  }

  /** The error when no depth was searched. */
  const NoMoves := InvalidMove("No moves found")

  /**
   * The loop over the results of the searches at depth 1, 2, ...,
   * `best` the previous depth's result: a failed search ends it with
   * that error, a mate score with that result, and running out of depths
   * with the last result, or "No moves found" when there was none.
   */
  function Deepen<M>(rs: seq<Result<SearchResult<M>>>, best: Option<SearchResult<M>>): Result<SearchResult<M>>
    decreases |rs|
  {
    if |rs| == 0 then
      if best.Some? then Ok(best.value) else Err(NoMoves)
    else
      var r :- rs[0];
      if Magnitude(r.score) > MateBound then Ok(r)
      else Deepen(rs[1..], Some(r))
  }

  /**
   * The searches at depth 1 to `maxDepth`.  Each is a function of the
   * position and the depth, so listing the ones the loop never reaches
   * changes nothing about its answer.
   */
  function Searches<S(!new), M(!new)>(g: GameTree<S, M>, s: S, maxDepth: nat): (r: seq<Result<SearchResult<M>>>)
    requires CapturesShrink(g)
    ensures |r| == maxDepth
    ensures forall i :: 0 <= i < maxDepth ==> r[i] == SearchOf(g, s, i + 1)
  {
    seq(maxDepth, i requires 0 <= i < maxDepth => SearchOf(g, s, i + 1))
  }

  /** iterative_deepening: the loop from depth 1 with no result yet. */
  function IterativeOf<S(!new), M(!new)>(g: GameTree<S, M>, s: S, maxDepth: nat): Result<SearchResult<M>>
    requires CapturesShrink(g)
  {
    Deepen(Searches(g, s, maxDepth), None)
  }

  /** A result after which the loop goes on: a search that succeeded without a mate score. */
  predicate GoesOn<M>(r: Result<SearchResult<M>>)
  {
    r.Ok? && Magnitude(r.value.score) <= MateBound
  }

  /** `d` is the index the loop ends at: every earlier result goes on, and `d`'s does not or is the last. */
  predicate StopsAt<M>(rs: seq<Result<SearchResult<M>>>, d: nat)
  {
    d < |rs| &&
    (forall e :: 0 <= e < d ==> GoesOn(rs[e])) &&
    (d == |rs| - 1 || !GoesOn(rs[d]))
  }

  /** The loop answers the result it stops at. */
  lemma {:induction false} DeepenStops<M>(rs: seq<Result<SearchResult<M>>>, best: Option<SearchResult<M>>, d: nat)
    requires StopsAt(rs, d)
    ensures Deepen(rs, best) == rs[d]
    decreases d
  {
    if d > 0 {
      assert GoesOn(rs[0]);
      assert StopsAt(rs[1..], d - 1) by {
        forall e | 0 <= e < d - 1
          ensures GoesOn(rs[1..][e])
        {
          assert GoesOn(rs[e + 1]);
        }
      }
      DeepenStops(rs[1..], Some(rs[0].value), d - 1);
    } else if GoesOn(rs[0]) {
      assert rs[1..] == [];
    }
  }

  /** The first index from `from` on whose result does not go on, or the last index. */
  ghost function FirstStop<M>(rs: seq<Result<SearchResult<M>>>, from: nat): (d: nat)
    requires from < |rs|
    requires forall e :: 0 <= e < from ==> GoesOn(rs[e])
    ensures StopsAt(rs, d)
    decreases |rs| - from
  {
    if from == |rs| - 1 || !GoesOn(rs[from]) then from
    else FirstStop(rs, from + 1)
  }

  /**
   * What iterative_deepening answers when the loop stops at index `d`,
   * every earlier search succeeding without a mate score and the search
   * at depth `d + 1` failing, finding a mate score or being the last:
   * that search's answer.
   */
  lemma IterativeOutcome<S(!new), M(!new)>(g: GameTree<S, M>, s: S, maxDepth: nat, d: nat)
    requires CapturesShrink(g)
    requires StopsAt(Searches(g, s, maxDepth), d)
    ensures IterativeOf(g, s, maxDepth) == SearchOf(g, s, d + 1)
  {
    DeepenStops(Searches(g, s, maxDepth), None, d);
  }

  /** With no depth to search the answer is "No moves found"; with one there is a depth the loop stops at. */
  lemma IterativeStops<S(!new), M(!new)>(g: GameTree<S, M>, s: S, maxDepth: nat)
    requires CapturesShrink(g)
    ensures maxDepth == 0 <==> IterativeOf(g, s, maxDepth) == Err(NoMoves) && !exists d :: StopsAt(Searches(g, s, maxDepth), d)
  {
    var rs := Searches(g, s, maxDepth);
    if maxDepth >= 1 {
      var d := FirstStop(rs, 0);
      assert StopsAt(rs, d);
    }
  }

  /** iterative_deepening. The time limit is never consulted, so it is not a parameter. */
  method IterativeDeepening<S(!new), M(!new)>(g: GameTree<S, M>, s: S, maxDepth: nat)
    returns (result: Result<SearchResult<M>>)
    requires CapturesShrink(g)
    ensures result == IterativeOf(g, s, maxDepth)
  {
    ghost var rs := Searches(g, s, maxDepth);
    ghost var total := Deepen(rs, None);
    var best: Option<SearchResult<M>> := None;
    var depth := 1;
    assert rs[0..] == rs;
    while depth <= maxDepth
      invariant 1 <= depth <= maxDepth + 1
      invariant Deepen(rs[depth - 1..], best) == total
      decreases maxDepth + 1 - depth
    {
      var r := Search.Search(g, s, depth);
      assert r == rs[depth - 1];
      if r.Err? {
        return Err(r.error);
      }
      best := Some(r.value);
      if Magnitude(r.value.score) > MateBound {
        break;
      }
      depth := depth + 1;
    }
    if best.None? {
      return Err(NoMoves);
    }
    return Ok(best.value);
  }
}
