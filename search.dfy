/*
 * The search (chess-core/src/search.rs): fail-hard negamax alpha-beta
 * with a capture-only quiescence search, moves ordered by a score,
 * and a root search that keeps the first best move.
 *
 * The search is written over a game tree given by its operations: the
 * move list, the move application (which can fail), the static
 * evaluation, the score of a finished game, and the two move-ordering
 * scores.  Iterative deepening is in module `Deepening`, and
 * `ChessSearch.ChessTree` instantiates the tree with the chess model.
 * A position is a value; the source clones the position before each
 * move, so nothing is shared between a node and its children.
 */
module Search {
  import opened Wrappers
  import opened StableSort

  /** The operations the search uses. */
  datatype GameTree<!S, !M> = GameTree(
    moves: S -> seq<M>,            // generate_moves
    apply: (S, M) -> Result<S>,    // clone, then make_move
    evaluate: S -> int,            // evaluate::evaluate, from the side to move
    gameOverScore: S -> int,       // evaluate_game_over
    moveScore: (S, M) -> int,      // move_score
    isCapture: (S, M) -> bool,     // Move::is_capture
    captureScore: (S, M) -> int,   // capture_score
    size: S -> nat)                // what every applied capture makes smaller

  /** is_game_over: no move is generated. */
  predicate GameOver<S, M>(g: GameTree<S, M>, s: S)
  {
    |g.moves(s)| == 0
  }

  /** Every capture that applies leads to a smaller state, so the quiescence search ends. */
  ghost predicate CapturesShrink<S(!new), M(!new)>(g: GameTree<S, M>)
  {
    forall s: S, m: M :: m in g.moves(s) && g.isCapture(s, m) && g.apply(s, m).Ok? ==>
      g.size(g.apply(s, m).value) < g.size(s)
  }

  // ---------------------------------------------------------------------
  // Scores with infinities, and the window clamp
  // ---------------------------------------------------------------------

  /** A negamax value: an integer, or a bound no integer reaches. */
  datatype Value = NegInf | Fin(n: int) | PosInf

  predicate Le(a: Value, b: Value)
  {
    match a
    case NegInf => true
    case Fin(x) => b.PosInf? || (b.Fin? && x <= b.n)
    case PosInf => b.PosInf?
  }

  function Neg(a: Value): Value
  {
    match a
    case NegInf => PosInf
    case Fin(x) => Fin(-x)
    case PosInf => NegInf
  }

  /** Integer negation: a child is searched with the window `(Negate(beta), Negate(alpha))`. */
  function Negate(x: int): int
  {
    -x
  }

  function MaxValue(a: Value, b: Value): (r: Value)
    ensures Le(a, r) && Le(b, r) && (r == a || r == b)
  {
    if Le(a, b) then b else a
  }

  /** The value seen through the window [alpha, beta]. */
  function Clamp(v: Value, alpha: int, beta: int): int
  {
    if Le(v, Fin(alpha)) then alpha
    else if Le(Fin(beta), v) then beta
    else v.n
  }

  /** Le is a total order. */
  lemma LeOrder(a: Value, b: Value, c: Value)
    ensures Le(a, a)
    ensures Le(a, b) || Le(b, a)
    ensures Le(a, b) && Le(b, a) ==> a == b
    ensures Le(a, b) && Le(b, c) ==> Le(a, c)
  {
  }

  /** Negation reverses the order and undoes itself. */
  lemma NegProps(a: Value, b: Value)
    ensures Neg(Neg(a)) == a
    ensures Le(a, b) <==> Le(Neg(b), Neg(a))
  {
  }

  /** Negation turns the window round. */
  lemma ClampNeg(v: Value, alpha: int, beta: int)
    requires alpha < beta
    ensures Clamp(Neg(v), alpha, beta) == -Clamp(v, -beta, -alpha)
  {
  }

  /**
   * One child inside a fail-hard loop: `score`, the negated child result,
   * agrees with the child's value `cv` inside the window.  A cutoff
   * answers the whole list; a raise moves the lower edge to the child's
   * exact value; anything else leaves the rest to decide.
   */
  lemma ClampStep(cv: Value, rest: Value, score: int, alpha: int, beta: int)
    requires alpha < beta
    requires Clamp(cv, alpha, beta) == Clamp(Fin(score), alpha, beta)
    ensures score >= beta ==> Clamp(MaxValue(cv, rest), alpha, beta) == beta
    ensures alpha < score < beta ==> Clamp(MaxValue(cv, rest), alpha, beta) == Clamp(rest, score, beta)
    ensures score <= alpha ==> Clamp(MaxValue(cv, rest), alpha, beta) == Clamp(rest, alpha, beta)
  {
    LeOrder(cv, rest, cv);
  }

  // ---------------------------------------------------------------------
  // Move ordering
  // ---------------------------------------------------------------------

  /** Each move paired with its score, in list order. */
  function Scored<S, M>(s: S, ms: seq<M>, score: (S, M) -> int): (r: seq<(M, int)>)
    ensures |r| == |ms|
  {
    seq(|ms|, i requires 0 <= i < |ms| => (ms[i], score(s, ms[i])))
  }

  /** The pairs carry the moves in order, each with its own score. */
  lemma ScoredPairs<S, M>(s: S, ms: seq<M>, score: (S, M) -> int)
    ensures Firsts(Scored(s, ms, score)) == ms
    ensures forall i :: 0 <= i < |ms| ==> Scored(s, ms, score)[i] == (ms[i], score(s, ms[i]))
  {
  }

  /** The moves by descending score, equal scores in list order. */
  function OrderBy<S, M(!new)>(s: S, ms: seq<M>, score: (S, M) -> int): (r: seq<M>)
    ensures |r| == |ms|
    ensures forall m :: m in r <==> m in ms
  {
    var pairs := SortDesc(Scored(s, ms, score));
    SortDescPermutation(Scored(s, ms, score));
    FirstsPermutation(pairs, Scored(s, ms, score));
    ScoredPairs(s, ms, score);
    Firsts(pairs)
  }

  /** The ordered moves are non-increasing in their score. */
  lemma OrderByDescending<S, M(!new)>(s: S, ms: seq<M>, score: (S, M) -> int)
    ensures var r := OrderBy(s, ms, score);
      forall i, j :: 0 <= i < j < |r| ==> score(s, r[i]) >= score(s, r[j])
  {
    var pairs := SortDesc(Scored(s, ms, score));
    SortDescDescending(Scored(s, ms, score));
    OrderedScores(s, ms, score, pairs);
  }

  lemma OrderedScores<S, M>(s: S, ms: seq<M>, score: (S, M) -> int, pairs: seq<(M, int)>)
    requires pairs == SortDesc(Scored(s, ms, score))
    ensures forall i :: 0 <= i < |pairs| ==> pairs[i].1 == score(s, pairs[i].0)
  {
    SortDescPermutation(Scored(s, ms, score));
    ScoredPairs(s, ms, score);
    forall i | 0 <= i < |pairs|
      ensures pairs[i].1 == score(s, pairs[i].0)
    {
      assert pairs[i] in multiset(Scored(s, ms, score));
    }
  }

  /** alpha_beta's order: all moves by move_score. */
  function OrderedMoves<S, M(!new)>(g: GameTree<S, M>, s: S): seq<M>
  {
    OrderBy(s, g.moves(s), g.moveScore)
  }

  /** The captures among the moves, in generation order. */
  function Captures<S, M(!new)>(g: GameTree<S, M>, s: S, ms: seq<M>): (r: seq<M>)
    ensures forall m :: m in r <==> m in ms && g.isCapture(s, m)
  {
    if |ms| == 0 then []
    else (if g.isCapture(s, ms[0]) then [ms[0]] else []) + Captures(g, s, ms[1..])
  }

  /** quiescence_search's order: the captures by capture_score. */
  function OrderedCaptures<S, M(!new)>(g: GameTree<S, M>, s: S): seq<M>
  {
    OrderBy(s, Captures(g, s, g.moves(s)), g.captureScore)
  }

  // ---------------------------------------------------------------------
  // Statistics
  // ---------------------------------------------------------------------

  /** SearchStats. */
  datatype SearchStats = SearchStats(nodesSearched: nat, qnodesSearched: nat, cutoffs: nat, depth: nat)

  /** What one call adds to the counters. */
  datatype Counts = Counts(nodes: nat, qnodes: nat, cutoffs: nat)

  const NoCounts := Counts(0, 0, 0)

  function Plus(a: Counts, b: Counts): Counts
  {
    Counts(a.nodes + b.nodes, a.qnodes + b.qnodes, a.cutoffs + b.cutoffs)
  }

  function Tally(st: SearchStats, c: Counts): (r: SearchStats)
  {
    st.(nodesSearched := st.nodesSearched + c.nodes, qnodesSearched := st.qnodesSearched + c.qnodes,
        cutoffs := st.cutoffs + c.cutoffs)
  }

  // ---------------------------------------------------------------------
  // quiescence_search
  // ---------------------------------------------------------------------

  /**
   * quiescence_search on values: the stand-pat evaluation fails high at
   * `beta`, else raises alpha, and the captures are searched in order.
   */
  function QuiescenceOf<S(!new), M(!new)>(g: GameTree<S, M>, s: S, alpha: int, beta: int): (int, Counts)
    requires CapturesShrink(g)
    decreases g.size(s), 1, 0, 0
  {
    var standPat := g.evaluate(s);
    if standPat >= beta then (beta, Counts(0, 1, 0))
    else
      var r := QLoop(g, s, OrderedCaptures(g, s), if standPat > alpha then standPat else alpha, beta);
      (r.0, Plus(Counts(0, 1, 0), r.1))
  }

  /** The capture loop: skip a capture that fails to apply, else search it with the window turned round. */
  function QLoop<S(!new), M(!new)>(g: GameTree<S, M>, s: S, ms: seq<M>, alpha: int, beta: int): (int, Counts)
    requires CapturesShrink(g)
    requires forall m :: m in ms ==> m in g.moves(s) && g.isCapture(s, m)
    decreases g.size(s), 0, |ms|, 1
  {
    if |ms| == 0 then (alpha, NoCounts)
    else
      match g.apply(s, ms[0])
      case Err(_) => QLoop(g, s, ms[1..], alpha, beta)
      case Ok(child) => QAfter(g, s, ms, alpha, beta, QuiescenceOf(g, child, Negate(beta), Negate(alpha)))
  }

  /** After the capture `ms[0]` returned `c`: fail high at `beta`, else raise alpha and go on. */
  function QAfter<S(!new), M(!new)>(g: GameTree<S, M>, s: S, ms: seq<M>, alpha: int, beta: int, c: (int, Counts)): (int, Counts)
    requires CapturesShrink(g) && |ms| > 0
    requires forall m :: m in ms ==> m in g.moves(s) && g.isCapture(s, m)
    decreases g.size(s), 0, |ms|, 0
  {
    var score := -c.0;
    if score >= beta then (beta, c.1)
    else
      assert forall m :: m in ms[1..] ==> m in ms;
      var r := QLoop(g, s, ms[1..], if score > alpha then score else alpha, beta);
      (r.0, Plus(c.1, r.1))
  }

  /** The reference value of the quiescence search: the best of standing pat and every applied capture. */
  function QValue<S(!new), M(!new)>(g: GameTree<S, M>, s: S): int
    requires CapturesShrink(g)
    decreases g.size(s), 1, 0
  {
    var best := QBest(g, s, Captures(g, s, g.moves(s)));
    if Le(best, Fin(g.evaluate(s))) then g.evaluate(s) else best.n
  }

  /** The best negated value over captures; minus infinity when none applies. */
  function QBest<S(!new), M(!new)>(g: GameTree<S, M>, s: S, ms: seq<M>): (r: Value)
    requires CapturesShrink(g)
    requires forall m :: m in ms ==> m in g.moves(s) && g.isCapture(s, m)
    ensures !r.PosInf?
    decreases g.size(s), 0, |ms|
  {
    if |ms| == 0 then NegInf
    else
      assert forall m :: m in ms[1..] ==> m in ms;
      MaxValue(QChild(g, s, ms[0]), QBest(g, s, ms[1..]))
  }

  /** The value of one capture for the mover. */
  function QChild<S(!new), M(!new)>(g: GameTree<S, M>, s: S, m: M): (r: Value)
    requires CapturesShrink(g)
    requires m in g.moves(s) && g.isCapture(s, m)
    ensures !r.PosInf?
    decreases g.size(s), 0, 0
  {
    match g.apply(s, m)
    case Err(_) => NegInf
    case Ok(child) => Fin(-QValue(g, child))
  }

  // ---------------------------------------------------------------------
  // alpha_beta
  // ---------------------------------------------------------------------

  /**
   * alpha_beta on values: at depth 0 the quiescence search; a finished
   * game scores evaluate_game_over, outside the window; otherwise the
   * moves in move_score order.
   */
  function AlphaBetaOf<S(!new), M(!new)>(g: GameTree<S, M>, s: S, depth: nat, alpha: int, beta: int): (int, Counts)
    requires CapturesShrink(g)
    decreases depth, 1, 0, 0
  {
    if depth == 0 then
      var q := QuiescenceOf(g, s, alpha, beta);
      (q.0, Plus(Counts(1, 0, 0), q.1))
    else if GameOver(g, s) then (g.gameOverScore(s), Counts(1, 0, 0))
    else
      var r := AbLoop(g, s, depth, OrderedMoves(g, s), alpha, beta);
      (r.0, Plus(Counts(1, 0, 0), r.1))
  }

  /** The move loop: skip a move that fails to apply, else search it one ply shallower with the window turned round. */
  function AbLoop<S(!new), M(!new)>(g: GameTree<S, M>, s: S, depth: nat, ms: seq<M>, alpha: int, beta: int): (int, Counts)
    requires CapturesShrink(g) && depth > 0
    decreases depth, 0, |ms|, 1
  {
    if |ms| == 0 then (alpha, NoCounts)
    else
      match g.apply(s, ms[0])
      case Err(_) => AbLoop(g, s, depth, ms[1..], alpha, beta)
      case Ok(child) => AbAfter(g, s, depth, ms, alpha, beta, AlphaBetaOf(g, child, depth - 1, Negate(beta), Negate(alpha)))
  }

  /** After the move `ms[0]` returned `c`: cut off at `beta` (counted), else raise alpha and go on. */
  function AbAfter<S(!new), M(!new)>(g: GameTree<S, M>, s: S, depth: nat, ms: seq<M>, alpha: int, beta: int,
                                     c: (int, Counts)): (int, Counts)
    requires CapturesShrink(g) && depth > 0 && |ms| > 0
    decreases depth, 0, |ms|, 0
  {
    var score := -c.0;
    if score >= beta then (beta, Plus(c.1, Counts(0, 0, 1)))
    else
      var r := AbLoop(g, s, depth, ms[1..], if score > alpha then score else alpha, beta);
      (r.0, Plus(c.1, r.1))
  }

  /**
   * The reference value: plain negamax to `depth`, over the moves in
   * generation order, with the quiescence value at the horizon.
   */
  function NegamaxOf<S(!new), M(!new)>(g: GameTree<S, M>, s: S, depth: nat): Value
    requires CapturesShrink(g)
    decreases depth, 1, 0
  {
    if depth == 0 then Fin(QValue(g, s))
    else if GameOver(g, s) then Fin(g.gameOverScore(s))
    else Best(g, s, depth, g.moves(s))
  }

  /** The best value over the moves `ms`; minus infinity when none applies. */
  function Best<S(!new), M(!new)>(g: GameTree<S, M>, s: S, depth: nat, ms: seq<M>): Value
    requires CapturesShrink(g) && depth > 0
    decreases depth, 0, |ms|
  {
    if |ms| == 0 then NegInf
    else MaxValue(Child(g, s, depth, ms[0]), Best(g, s, depth, ms[1..]))
  }

  /** The value of one move for the mover. */
  function Child<S(!new), M(!new)>(g: GameTree<S, M>, s: S, depth: nat, m: M): Value
    requires CapturesShrink(g) && depth > 0
    decreases depth, 0, 0
  {
    match g.apply(s, m)
    case Err(_) => NegInf
    case Ok(child) => Neg(NegamaxOf(g, child, depth - 1))
  }

  // ---------------------------------------------------------------------
  // Soundness: the fail-hard search agrees with negamax inside the window
  // ---------------------------------------------------------------------

  /** Best is the maximum: it bounds every move's value and is one of them, or minus infinity. */
  lemma {:induction false} BestIsMax<S(!new), M(!new)>(g: GameTree<S, M>, s: S, depth: nat, ms: seq<M>)
    requires CapturesShrink(g) && depth > 0
    ensures forall m :: m in ms ==> Le(Child(g, s, depth, m), Best(g, s, depth, ms))
    ensures Best(g, s, depth, ms).NegInf? || exists m :: m in ms && Best(g, s, depth, ms) == Child(g, s, depth, m)
    decreases |ms|
  {
    if |ms| > 0 {
      var rest := Best(g, s, depth, ms[1..]);
      var r := Best(g, s, depth, ms);
      BestIsMax(g, s, depth, ms[1..]);
      forall m | m in ms ensures Le(Child(g, s, depth, m), r) {
        if m != ms[0] {
          assert m in ms[1..];
          LeOrder(Child(g, s, depth, m), rest, r);
        }
      }
      if r == Child(g, s, depth, ms[0]) {
        assert ms[0] in ms;
      } else if !r.NegInf? {
        var m :| m in ms[1..] && rest == Child(g, s, depth, m);
        assert m in ms;
      }
    }
  }

  /** QBest is the maximum over the captures `ms`, or minus infinity. */
  lemma {:induction false} QBestIsMax<S(!new), M(!new)>(g: GameTree<S, M>, s: S, ms: seq<M>)
    requires CapturesShrink(g)
    requires forall m :: m in ms ==> m in g.moves(s) && g.isCapture(s, m)
    ensures forall m :: m in ms ==> Le(QChild(g, s, m), QBest(g, s, ms))
    ensures QBest(g, s, ms).NegInf? || exists m :: m in ms && QBest(g, s, ms) == QChild(g, s, m)
    decreases |ms|
  {
    if |ms| > 0 {
      assert forall m :: m in ms[1..] ==> m in ms;
      var rest := QBest(g, s, ms[1..]);
      var r := QBest(g, s, ms);
      QBestIsMax(g, s, ms[1..]);
      forall m | m in ms ensures Le(QChild(g, s, m), r) {
        if m != ms[0] {
          assert m in ms[1..];
          LeOrder(QChild(g, s, m), rest, r);
        }
      }
      if r == QChild(g, s, ms[0]) {
        assert ms[0] in ms;
      } else if !r.NegInf? {
        var m :| m in ms[1..] && rest == QChild(g, s, m);
        assert m in ms;
      }
    }
  }

  /** The best over a list depends only on which moves it holds, not on their order. */
  lemma BestSameMoves<S(!new), M(!new)>(g: GameTree<S, M>, s: S, depth: nat, a: seq<M>, b: seq<M>)
    requires CapturesShrink(g) && depth > 0
    requires forall m :: m in a <==> m in b
    ensures Best(g, s, depth, a) == Best(g, s, depth, b)
  {
    BestIsMax(g, s, depth, a);
    BestIsMax(g, s, depth, b);
    var x, y := Best(g, s, depth, a), Best(g, s, depth, b);
    if !y.NegInf? {
      var m :| m in b && y == Child(g, s, depth, m);
    }
    if !x.NegInf? {
      var m :| m in a && x == Child(g, s, depth, m);
    }
    LeOrder(x, y, x);
  }

  lemma QBestSameMoves<S(!new), M(!new)>(g: GameTree<S, M>, s: S, a: seq<M>, b: seq<M>)
    requires CapturesShrink(g)
    requires forall m :: m in a ==> m in g.moves(s) && g.isCapture(s, m)
    requires forall m :: m in a <==> m in b
    ensures QBest(g, s, a) == QBest(g, s, b)
  {
    assert forall m :: m in b ==> m in g.moves(s) && g.isCapture(s, m);
    QBestIsMax(g, s, a);
    QBestIsMax(g, s, b);
    var x, y := QBest(g, s, a), QBest(g, s, b);
    if !y.NegInf? {
      var m :| m in b && y == QChild(g, s, m);
    }
    if !x.NegInf? {
      var m :| m in a && x == QChild(g, s, m);
    }
    LeOrder(x, y, x);
  }

  /** Standing pat: the loop's lower edge is the larger of alpha and the evaluation. */
  lemma StandPatWindow(best: Value, standPat: int, alpha: int, beta: int)
    requires alpha < beta && standPat < beta && !best.PosInf?
    ensures Clamp(best, if standPat > alpha then standPat else alpha, beta)
         == Clamp(Fin(if Le(best, Fin(standPat)) then standPat else best.n), alpha, beta)
  {
  }

  /** The child's window, turned round, matches the parent's. */
  lemma ChildWindow(v: Value, result: int, alpha: int, beta: int)
    requires alpha < beta
    requires Clamp(Fin(result), Negate(beta), Negate(alpha)) == Clamp(v, Negate(beta), Negate(alpha))
    ensures Clamp(Neg(v), alpha, beta) == Clamp(Fin(-result), alpha, beta)
  {
    ClampNeg(v, alpha, beta);
    ClampNeg(Fin(result), alpha, beta);
  }

  /** quiescence_search returns its reference value clamped to the window. */
  lemma {:induction false} QuiescenceSound<S(!new), M(!new)>(g: GameTree<S, M>, s: S, alpha: int, beta: int)
    requires CapturesShrink(g) && alpha < beta
    ensures QuiescenceOf(g, s, alpha, beta).0 == Clamp(Fin(QValue(g, s)), alpha, beta)
    decreases g.size(s), 1, 0, 0
  {
    var standPat := g.evaluate(s);
    var caps := Captures(g, s, g.moves(s));
    if standPat < beta {
      var low := if standPat > alpha then standPat else alpha;
      QLoopSound(g, s, OrderedCaptures(g, s), low, beta);
      QBestSameMoves(g, s, OrderedCaptures(g, s), caps);
      StandPatWindow(QBest(g, s, caps), standPat, alpha, beta);
    }
  }

  /** One applied capture: its negated search result agrees with its value inside the window. */
  lemma QChildSound<S(!new), M(!new)>(g: GameTree<S, M>, s: S, m: M, alpha: int, beta: int, score: int)
    requires CapturesShrink(g) && alpha < beta
    requires m in g.moves(s) && g.isCapture(s, m) && g.apply(s, m).Ok?
    requires score == -QuiescenceOf(g, g.apply(s, m).value, Negate(beta), Negate(alpha)).0
    ensures Clamp(QChild(g, s, m), alpha, beta) == Clamp(Fin(score), alpha, beta)
    decreases g.size(s), 0, 0, 0
  {
    var child := g.apply(s, m).value;
    var result := QuiescenceOf(g, child, Negate(beta), Negate(alpha)).0;
    var v := Fin(QValue(g, child));
    QuiescenceSound(g, child, Negate(beta), Negate(alpha));
    assert Clamp(Fin(result), Negate(beta), Negate(alpha)) == Clamp(v, Negate(beta), Negate(alpha));
    assert QChild(g, s, m) == Neg(v);
    ChildWindow(v, result, alpha, beta);
  }

  /** The capture loop returns the best capture value clamped to the window. */
  lemma {:induction false} QLoopSound<S(!new), M(!new)>(g: GameTree<S, M>, s: S, ms: seq<M>, alpha: int, beta: int)
    requires CapturesShrink(g) && alpha < beta
    requires forall m :: m in ms ==> m in g.moves(s) && g.isCapture(s, m)
    ensures QLoop(g, s, ms, alpha, beta).0 == Clamp(QBest(g, s, ms), alpha, beta)
    decreases g.size(s), 0, |ms|, 1
  {
    if |ms| > 0 {
      if g.apply(s, ms[0]).Err? {
        assert forall m :: m in ms[1..] ==> m in ms;
        assert QBest(g, s, ms) == MaxValue(QChild(g, s, ms[0]), QBest(g, s, ms[1..]));
        assert QChild(g, s, ms[0]) == NegInf;
        assert QLoop(g, s, ms, alpha, beta) == QLoop(g, s, ms[1..], alpha, beta);
        QLoopSound(g, s, ms[1..], alpha, beta);
      } else {
        QLoopSoundApplied(g, s, ms, alpha, beta);
      }
    }
  }

  /** QLoopSound when the first capture applies. */
  lemma {:induction false} QLoopSoundApplied<S(!new), M(!new)>(g: GameTree<S, M>, s: S, ms: seq<M>, alpha: int, beta: int)
    requires CapturesShrink(g) && alpha < beta && |ms| > 0 && g.apply(s, ms[0]).Ok?
    requires forall m :: m in ms ==> m in g.moves(s) && g.isCapture(s, m)
    ensures QLoop(g, s, ms, alpha, beta).0 == Clamp(QBest(g, s, ms), alpha, beta)
    decreases g.size(s), 0, |ms|, 0
  {
    assert forall m :: m in ms[1..] ==> m in ms;
    var rest := QBest(g, s, ms[1..]);
    assert QBest(g, s, ms) == MaxValue(QChild(g, s, ms[0]), rest);
    var child := g.apply(s, ms[0]).value;
    var c := QuiescenceOf(g, child, Negate(beta), Negate(alpha));
    var score := -c.0;
    assert QLoop(g, s, ms, alpha, beta) == QAfter(g, s, ms, alpha, beta, c);
    QAfterScore(g, s, ms, alpha, beta, c);
    QChildSound(g, s, ms[0], alpha, beta, score);
    ClampStep(QChild(g, s, ms[0]), rest, score, alpha, beta);
    if score < beta {
      QLoopSound(g, s, ms[1..], if score > alpha then score else alpha, beta);
    }
  }

  /** The score QAfter passes on: beta at a fail-high, else the rest of the loop's from the raised alpha. */
  lemma QAfterScore<S(!new), M(!new)>(g: GameTree<S, M>, s: S, ms: seq<M>, alpha: int, beta: int, c: (int, Counts))
    requires CapturesShrink(g) && |ms| > 0
    requires forall m :: m in ms ==> m in g.moves(s) && g.isCapture(s, m)
    ensures forall m :: m in ms[1..] ==> m in g.moves(s) && g.isCapture(s, m)
    ensures -c.0 >= beta ==> QAfter(g, s, ms, alpha, beta, c).0 == beta
    ensures -c.0 < beta ==> QAfter(g, s, ms, alpha, beta, c).0 == QLoop(g, s, ms[1..], if -c.0 > alpha then -c.0 else alpha, beta).0
  {
    assert forall m :: m in ms[1..] ==> m in ms;
  }

  /**
   * alpha_beta against negamax: inside the window they agree, and except
   * for a finished game below the horizon (whose score is returned as it
   * is) the result is negamax clamped to the window.
   */
  lemma {:induction false} AlphaBetaSound<S(!new), M(!new)>(g: GameTree<S, M>, s: S, depth: nat, alpha: int, beta: int)
    requires CapturesShrink(g) && alpha < beta
    ensures Clamp(Fin(AlphaBetaOf(g, s, depth, alpha, beta).0), alpha, beta) == Clamp(NegamaxOf(g, s, depth), alpha, beta)
    ensures depth == 0 || !GameOver(g, s) ==>
      AlphaBetaOf(g, s, depth, alpha, beta).0 == Clamp(NegamaxOf(g, s, depth), alpha, beta)
    decreases depth, 1, 0, 0
  {
    if depth == 0 {
      QuiescenceSound(g, s, alpha, beta);
    } else if !GameOver(g, s) {
      AbLoopSound(g, s, depth, OrderedMoves(g, s), alpha, beta);
      BestSameMoves(g, s, depth, OrderedMoves(g, s), g.moves(s));
    }
  }

  /** One applied move: its negated search result agrees with its value inside the window. */
  lemma ChildSound<S(!new), M(!new)>(g: GameTree<S, M>, s: S, depth: nat, m: M, alpha: int, beta: int, score: int)
    requires CapturesShrink(g) && depth > 0 && alpha < beta && g.apply(s, m).Ok?
    requires score == -AlphaBetaOf(g, g.apply(s, m).value, depth - 1, Negate(beta), Negate(alpha)).0
    ensures Clamp(Child(g, s, depth, m), alpha, beta) == Clamp(Fin(score), alpha, beta)
    decreases depth, 0, 0, 0
  {
    var child := g.apply(s, m).value;
    var result := AlphaBetaOf(g, child, depth - 1, Negate(beta), Negate(alpha)).0;
    var v := NegamaxOf(g, child, depth - 1);
    AlphaBetaSound(g, child, depth - 1, Negate(beta), Negate(alpha));
    assert Clamp(Fin(result), Negate(beta), Negate(alpha)) == Clamp(v, Negate(beta), Negate(alpha));
    ChildWindow(v, result, alpha, beta);
  }

  /** The move loop returns the best move value clamped to the window. */
  lemma {:induction false} AbLoopSound<S(!new), M(!new)>(g: GameTree<S, M>, s: S, depth: nat, ms: seq<M>, alpha: int, beta: int)
    requires CapturesShrink(g) && depth > 0 && alpha < beta
    ensures AbLoop(g, s, depth, ms, alpha, beta).0 == Clamp(Best(g, s, depth, ms), alpha, beta)
    decreases depth, 0, |ms|, 1
  {
    if |ms| > 0 {
      var rest := Best(g, s, depth, ms[1..]);
      assert Best(g, s, depth, ms) == MaxValue(Child(g, s, depth, ms[0]), rest);
      if g.apply(s, ms[0]).Err? {
        assert AbLoop(g, s, depth, ms, alpha, beta) == AbLoop(g, s, depth, ms[1..], alpha, beta);
        AbLoopSound(g, s, depth, ms[1..], alpha, beta);
      } else {
        var child := g.apply(s, ms[0]).value;
        var c := AlphaBetaOf(g, child, depth - 1, Negate(beta), Negate(alpha));
        var score := -c.0;
        assert AbLoop(g, s, depth, ms, alpha, beta) == AbAfter(g, s, depth, ms, alpha, beta, c);
        ChildSound(g, s, depth, ms[0], alpha, beta, score);
        ClampStep(Child(g, s, depth, ms[0]), rest, score, alpha, beta);
        if score < beta {
          var low := if score > alpha then score else alpha;
          assert AbLoop(g, s, depth, ms, alpha, beta).0 == AbLoop(g, s, depth, ms[1..], low, beta).0;
          AbLoopSound(g, s, depth, ms[1..], low, beta);
        }
      }
    }
  }

  // ---------------------------------------------------------------------
  // The searches as the source runs them
  // ---------------------------------------------------------------------

  /** A loop's score with the counters it leaves, starting from `st`. */
  function Finish(st: SearchStats, r: (int, Counts)): (int, SearchStats)
  {
    (r.0, Tally(st, r.1))
  }

  /** A capture that fails to apply is skipped. */
  lemma QLoopSkip<S(!new), M(!new)>(g: GameTree<S, M>, s: S, cs: seq<M>, i: nat, alpha: int, beta: int)
    requires CapturesShrink(g) && i < |cs| && g.apply(s, cs[i]).Err?
    requires forall m :: m in cs[i..] ==> m in g.moves(s) && g.isCapture(s, m)
    ensures forall m :: m in cs[i + 1..] ==> m in g.moves(s) && g.isCapture(s, m)
    ensures QLoop(g, s, cs[i..], alpha, beta) == QLoop(g, s, cs[i + 1..], alpha, beta)
  {
    assert cs[i..][1..] == cs[i + 1..];
  }

  /**
   * A capture that applies and whose search returned `c`: at or above beta
   * the loop ends there; below it the rest of the loop runs from the raised
   * alpha, after the child's counters.
   */
  lemma QLoopTake<S(!new), M(!new)>(g: GameTree<S, M>, s: S, cs: seq<M>, i: nat, alpha: int, beta: int, c: (int, Counts), st: SearchStats)
    requires CapturesShrink(g) && i < |cs| && g.apply(s, cs[i]).Ok?
    requires forall m :: m in cs[i..] ==> m in g.moves(s) && g.isCapture(s, m)
    requires c == QuiescenceOf(g, g.apply(s, cs[i]).value, Negate(beta), Negate(alpha))
    ensures forall m :: m in cs[i + 1..] ==> m in g.moves(s) && g.isCapture(s, m)
    ensures -c.0 >= beta ==> Finish(st, QLoop(g, s, cs[i..], alpha, beta)) == (beta, Tally(st, c.1))
    ensures -c.0 < beta ==>
      Finish(st, QLoop(g, s, cs[i..], alpha, beta))
        == Finish(Tally(st, c.1), QLoop(g, s, cs[i + 1..], if -c.0 > alpha then -c.0 else alpha, beta))
  {
    assert cs[i..][1..] == cs[i + 1..];
    assert QLoop(g, s, cs[i..], alpha, beta) == QAfter(g, s, cs[i..], alpha, beta, c);
    if -c.0 < beta {
      TallyPlus(st, c.1, QLoop(g, s, cs[i + 1..], if -c.0 > alpha then -c.0 else alpha, beta).1);
    }
  }

  /** Counting `a` then `b` is counting their sum. */
  lemma TallyPlus(st: SearchStats, a: Counts, b: Counts)
    ensures Tally(st, Plus(a, b)) == Tally(Tally(st, a), b)
  {
  }

  /** The stand-pat step of quiescence_search when the evaluation fails high. */
  lemma QuiescenceStandPat<S(!new), M(!new)>(g: GameTree<S, M>, s: S, alpha: int, beta: int, st: SearchStats)
    requires CapturesShrink(g) && g.evaluate(s) >= beta
    ensures Finish(st, QuiescenceOf(g, s, alpha, beta)) == (beta, st.(qnodesSearched := st.qnodesSearched + 1))
  {
  }

  /** The stand-pat step of quiescence_search below beta: the capture loop from the raised alpha. */
  lemma QuiescenceStart<S(!new), M(!new)>(g: GameTree<S, M>, s: S, alpha: int, beta: int, st: SearchStats)
    requires CapturesShrink(g) && g.evaluate(s) < beta
    ensures Finish(st, QuiescenceOf(g, s, alpha, beta))
         == Finish(st.(qnodesSearched := st.qnodesSearched + 1),
                   QLoop(g, s, OrderedCaptures(g, s), if g.evaluate(s) > alpha then g.evaluate(s) else alpha, beta))
  {
    var r := QuiescenceLoop(g, s, alpha, beta);
    FinishQNode(st, r);
  }

  /** Below beta, quiescence_search is one quiescence node plus its capture loop. */
  lemma QuiescenceLoop<S(!new), M(!new)>(g: GameTree<S, M>, s: S, alpha: int, beta: int) returns (r: (int, Counts))
    requires CapturesShrink(g) && g.evaluate(s) < beta
    ensures forall m :: m in OrderedCaptures(g, s) ==> m in g.moves(s) && g.isCapture(s, m)
    ensures r == QLoop(g, s, OrderedCaptures(g, s), if g.evaluate(s) > alpha then g.evaluate(s) else alpha, beta)
    ensures QuiescenceOf(g, s, alpha, beta) == (r.0, Plus(Counts(0, 1, 0), r.1))
  {
    r := QLoop(g, s, OrderedCaptures(g, s), if g.evaluate(s) > alpha then g.evaluate(s) else alpha, beta);
  }

  /** Counting one quiescence node first, then the rest. */
  lemma FinishQNode(st: SearchStats, r: (int, Counts))
    ensures Finish(st, (r.0, Plus(Counts(0, 1, 0), r.1))) == Finish(st.(qnodesSearched := st.qnodesSearched + 1), r)
  {
  }

  /** An empty loop returns alpha and leaves the counters alone. */
  lemma FinishEmpty(st: SearchStats, alpha: int)
    ensures Finish(st, (alpha, NoCounts)) == (alpha, st)
  {
  }

  /** quiescence_search: the score is QuiescenceOf's, and the counters gain what it counts. */
  method QuiescenceSearch<S(!new), M(!new)>(g: GameTree<S, M>, s: S, alpha0: int, beta: int, stats0: SearchStats)
    returns (score: int, stats: SearchStats)
    requires CapturesShrink(g)
    ensures (score, stats) == Finish(stats0, QuiescenceOf(g, s, alpha0, beta))
    decreases g.size(s)
  {
    ghost var total := QuiescenceOf(g, s, alpha0, beta);
    stats := stats0.(qnodesSearched := stats0.qnodesSearched + 1);
    var standPat := g.evaluate(s);
    if standPat >= beta {
      QuiescenceStandPat(g, s, alpha0, beta, stats0);
      return beta, stats;
    }
    QuiescenceStart(g, s, alpha0, beta, stats0);
    var alpha := if standPat > alpha0 then standPat else alpha0;
    var captures := OrderedCaptures(g, s);
    var i := 0;
    while i < |captures|
      invariant 0 <= i <= |captures|
      invariant forall m :: m in captures[i..] ==> m in g.moves(s) && g.isCapture(s, m)
      invariant Finish(stats, QLoop(g, s, captures[i..], alpha, beta)) == Finish(stats0, total)
      decreases |captures| - i
    {
      var next := g.apply(s, captures[i]);
      if next.Err? {
        QLoopSkip(g, s, captures, i, alpha, beta);
        i := i + 1;
        continue;
      }
      ghost var c := QuiescenceOf(g, next.value, Negate(beta), Negate(alpha));
      QLoopTake(g, s, captures, i, alpha, beta, c, stats);
      var childScore, childStats := QuiescenceSearch(g, next.value, Negate(beta), Negate(alpha), stats);
      if -childScore >= beta {
        return beta, childStats;
      }
      ghost var raised := if -c.0 > alpha then -c.0 else alpha;
      if -childScore > alpha {
        alpha := -childScore;
      }
      assert alpha == raised;
      stats := childStats;
      assert Finish(stats, QLoop(g, s, captures[i + 1..], alpha, beta)) == Finish(stats0, total);
      i := i + 1;
    }
    assert captures[i..] == [];
    FinishEmpty(stats, alpha);
    score := alpha;
  }

  /** Counting one node first, then the rest. */
  lemma FinishNode(st: SearchStats, r: (int, Counts))
    ensures Finish(st, (r.0, Plus(Counts(1, 0, 0), r.1))) == Finish(st.(nodesSearched := st.nodesSearched + 1), r)
  {
  }

  /** At the horizon alpha_beta is one node plus the quiescence search. */
  lemma AlphaBetaHorizon<S(!new), M(!new)>(g: GameTree<S, M>, s: S, alpha: int, beta: int, st: SearchStats)
    requires CapturesShrink(g)
    ensures Finish(st, AlphaBetaOf(g, s, 0, alpha, beta))
         == Finish(st.(nodesSearched := st.nodesSearched + 1), QuiescenceOf(g, s, alpha, beta))
  {
    FinishNode(st, QuiescenceOf(g, s, alpha, beta));
  }

  /** A finished game above the horizon is one node scored by gameOverScore. */
  lemma AlphaBetaOver<S(!new), M(!new)>(g: GameTree<S, M>, s: S, depth: nat, alpha: int, beta: int, st: SearchStats)
    requires CapturesShrink(g) && depth > 0 && GameOver(g, s)
    ensures Finish(st, AlphaBetaOf(g, s, depth, alpha, beta))
         == (g.gameOverScore(s), st.(nodesSearched := st.nodesSearched + 1))
  {
  }

  /** Otherwise alpha_beta is one node plus the move loop over the ordered moves. */
  lemma AlphaBetaStart<S(!new), M(!new)>(g: GameTree<S, M>, s: S, depth: nat, alpha: int, beta: int, st: SearchStats)
    requires CapturesShrink(g) && depth > 0 && !GameOver(g, s)
    ensures Finish(st, AlphaBetaOf(g, s, depth, alpha, beta))
         == Finish(st.(nodesSearched := st.nodesSearched + 1), AbLoop(g, s, depth, OrderedMoves(g, s), alpha, beta))
  {
    FinishNode(st, AbLoop(g, s, depth, OrderedMoves(g, s), alpha, beta));
  }

  /** A move that fails to apply is skipped. */
  lemma AbLoopSkip<S(!new), M(!new)>(g: GameTree<S, M>, s: S, depth: nat, ms: seq<M>, i: nat, alpha: int, beta: int)
    requires CapturesShrink(g) && depth > 0 && i < |ms| && g.apply(s, ms[i]).Err?
    ensures AbLoop(g, s, depth, ms[i..], alpha, beta) == AbLoop(g, s, depth, ms[i + 1..], alpha, beta)
  {
    assert ms[i..][1..] == ms[i + 1..];
  }

  /**
   * A move that applies and whose search returned `c`: at or above beta
   * the loop ends there with one more cutoff; below it the rest of the loop
   * runs from the raised alpha, after the child's counters.
   */
  lemma AbLoopTake<S(!new), M(!new)>(g: GameTree<S, M>, s: S, depth: nat, ms: seq<M>, i: nat, alpha: int, beta: int,
                                     c: (int, Counts), st: SearchStats)
    requires CapturesShrink(g) && depth > 0 && i < |ms| && g.apply(s, ms[i]).Ok?
    requires c == AlphaBetaOf(g, g.apply(s, ms[i]).value, depth - 1, Negate(beta), Negate(alpha))
    ensures -c.0 >= beta ==> Finish(st, AbLoop(g, s, depth, ms[i..], alpha, beta)) == (beta, Tally(Tally(st, c.1), Counts(0, 0, 1)))
    ensures -c.0 < beta ==>
      Finish(st, AbLoop(g, s, depth, ms[i..], alpha, beta))
        == Finish(Tally(st, c.1), AbLoop(g, s, depth, ms[i + 1..], if -c.0 > alpha then -c.0 else alpha, beta))
  {
    assert ms[i..][1..] == ms[i + 1..];
    assert AbLoop(g, s, depth, ms[i..], alpha, beta) == AbAfter(g, s, depth, ms[i..], alpha, beta, c);
    if -c.0 < beta {
      TallyPlus(st, c.1, AbLoop(g, s, depth, ms[i + 1..], if -c.0 > alpha then -c.0 else alpha, beta).1);
    } else {
      TallyPlus(st, c.1, Counts(0, 0, 1));
    }
  }

  /** alpha_beta: the score is AlphaBetaOf's, and the counters gain what it counts. */
  method AlphaBeta<S(!new), M(!new)>(g: GameTree<S, M>, s: S, depth: nat, alpha: int, beta: int, stats0: SearchStats)
    returns (score: int, stats: SearchStats)
    requires CapturesShrink(g)
    ensures (score, stats) == Finish(stats0, AlphaBetaOf(g, s, depth, alpha, beta))
    decreases depth, 1
  {
    stats := stats0.(nodesSearched := stats0.nodesSearched + 1);
    if depth == 0 {
      AlphaBetaHorizon(g, s, alpha, beta, stats0);
      score, stats := QuiescenceSearch(g, s, alpha, beta, stats);
      return;
    }
    if |g.moves(s)| == 0 {
      AlphaBetaOver(g, s, depth, alpha, beta, stats0);
      return g.gameOverScore(s), stats;
    }
    AlphaBetaStart(g, s, depth, alpha, beta, stats0);
    score, stats := SearchMoves(g, s, depth, OrderedMoves(g, s), alpha, beta, stats);
  }

  /** alpha_beta's move loop over `moves`: the score is AbLoop's, and the counters gain what it counts. */
  method SearchMoves<S(!new), M(!new)>(g: GameTree<S, M>, s: S, depth: nat, moves: seq<M>, alpha0: int, beta: int,
                                       stats0: SearchStats)
    returns (score: int, stats: SearchStats)
    requires CapturesShrink(g) && depth > 0
    ensures (score, stats) == Finish(stats0, AbLoop(g, s, depth, moves, alpha0, beta))
    decreases depth, 0
  {
    ghost var total := AbLoop(g, s, depth, moves, alpha0, beta);
    assert moves[0..] == moves;
    var alpha := alpha0;
    stats := stats0;
    var i := 0;
    while i < |moves|
      invariant 0 <= i <= |moves|
      invariant Finish(stats, AbLoop(g, s, depth, moves[i..], alpha, beta)) == Finish(stats0, total)
      decreases |moves| - i
    {
      var next := g.apply(s, moves[i]);
      if next.Err? {
        AbLoopSkip(g, s, depth, moves, i, alpha, beta);
        assert Finish(stats, AbLoop(g, s, depth, moves[i + 1..], alpha, beta)) == Finish(stats0, total);
        i := i + 1;
        continue;
      }
      var child := next.value;
      var d: nat := depth - 1;
      ghost var c := AlphaBetaOf(g, child, d, Negate(beta), Negate(alpha));
      AbLoopTake(g, s, depth, moves, i, alpha, beta, c, stats);
      var childScore, childStats := AlphaBeta(g, child, d, Negate(beta), Negate(alpha), stats);
      assert (childScore, childStats) == Finish(stats, c);
      if -childScore >= beta {
        assert Tally(childStats, Counts(0, 0, 1)) == childStats.(cutoffs := childStats.cutoffs + 1);
        return beta, childStats.(cutoffs := childStats.cutoffs + 1);
      }
      ghost var raised := if -c.0 > alpha then -c.0 else alpha;
      if -childScore > alpha {
        alpha := -childScore;
      }
      assert alpha == raised;
      stats := childStats;
      assert Finish(stats, AbLoop(g, s, depth, moves[i + 1..], alpha, beta)) == Finish(stats0, total);
      i := i + 1;
    }
    assert moves[i..] == [];
    FinishEmpty(stats, alpha);
    score := alpha;
  }

  // ---------------------------------------------------------------------
  // search: the root
  // ---------------------------------------------------------------------

  /** `i32::MIN + 1` and `i32::MAX - 1`, the root window. */
  const MinScore: int := -2147483647
  const MaxScore: int := 2147483646

  /** SearchResult. */
  datatype SearchResult<M> = SearchResult(bestMove: Option<M>, score: int, depth: nat, stats: SearchStats)

  /** A root move's child searched one ply shallower in the full window, or the error of applying the move. */
  function RootResult<S(!new), M(!new)>(g: GameTree<S, M>, s: S, depth: nat, m: M): Result<(int, Counts)>
    requires CapturesShrink(g) && depth > 0
  {
    match g.apply(s, m)
    case Err(e) => Err(e)
    case Ok(child) => Ok(AlphaBetaOf(g, child, depth - 1, MinScore, MaxScore))
  }

  /** The root results of the moves `ms`, in order. */
  function RootResults<S(!new), M(!new)>(g: GameTree<S, M>, s: S, depth: nat, ms: seq<M>): (r: seq<Result<(int, Counts)>>)
    requires CapturesShrink(g) && depth > 0
    ensures |r| == |ms|
    ensures forall i :: 0 <= i < |ms| ==> r[i] == RootResult(g, s, depth, ms[i])
  {
    seq(|ms|, i requires 0 <= i < |ms| => RootResult(g, s, depth, ms[i]))
  }

  /** A root move's score: its child's search result, negated. */
  function RootScore<S(!new), M(!new)>(g: GameTree<S, M>, s: S, depth: nat, m: M): int
    requires CapturesShrink(g) && depth > 0 && g.apply(s, m).Ok?
  {
    -AlphaBetaOf(g, g.apply(s, m).value, depth - 1, MinScore, MaxScore).0
  }

  /**
   * The root loop over the moves `ms` and their results `rs`, in
   * generation order: an error ends the search with that error; a score
   * strictly above the best so far replaces the best move.
   */
  function RootLoop<M>(ms: seq<M>, rs: seq<Result<(int, Counts)>>, best: Option<M>, bestScore: int, st: SearchStats)
    : Result<(Option<M>, int, SearchStats)>
    requires |rs| == |ms|
    decreases |ms|
  {
    if |ms| == 0 then Ok((best, bestScore, st))
    else if rs[0].Err? then Err(rs[0].error)
    else
      var r := rs[0].value;
      if -r.0 > bestScore then RootLoop(ms[1..], rs[1..], Some(ms[0]), -r.0, Tally(st, r.1))
      else RootLoop(ms[1..], rs[1..], best, bestScore, Tally(st, r.1))
  }

  /**
   * search: a finished game is scored at once, with depth 0 in the
   * result; otherwise every move is searched to `depth - 1` and the first
   * best one is kept.  `depth - 1` is a `u32` subtraction, so a depth of
   * 0 is only defined for a finished game.
   */
  function SearchOf<S(!new), M(!new)>(g: GameTree<S, M>, s: S, depth: nat): Result<SearchResult<M>>
    requires CapturesShrink(g) && (depth > 0 || GameOver(g, s))
  {
    var st := SearchStats(0, 0, 0, depth);
    if GameOver(g, s) then Ok(SearchResult(None, g.gameOverScore(s), 0, st))
    else
      var r :- RootLoop(g.moves(s), RootResults(g, s, depth, g.moves(s)), None, MinScore, st);
      Ok(SearchResult(r.0, r.1, depth, r.2))
  }

  /** The first pair whose score is strictly above every earlier one and the starting score. */
  function FirstBest<M>(ps: seq<(M, int)>, best: Option<M>, bestScore: int): (Option<M>, int)
    decreases |ps|
  {
    if |ps| == 0 then (best, bestScore)
    else if ps[0].1 > bestScore then FirstBest(ps[1..], Some(ps[0].0), ps[0].1)
    else FirstBest(ps[1..], best, bestScore)
  }

  /** FirstBest's score bounds the starting score and every pair's. */
  lemma {:induction false} FirstBestBound<M>(ps: seq<(M, int)>, best: Option<M>, bestScore: int)
    ensures bestScore <= FirstBest(ps, best, bestScore).1
    ensures forall i :: 0 <= i < |ps| ==> ps[i].1 <= FirstBest(ps, best, bestScore).1
    decreases |ps|
  {
    if |ps| > 0 {
      var b, bs := if ps[0].1 > bestScore then Some(ps[0].0) else best, if ps[0].1 > bestScore then ps[0].1 else bestScore;
      FirstBestBound(ps[1..], b, bs);
      var r := FirstBest(ps, best, bestScore);
      assert r == FirstBest(ps[1..], b, bs);
      forall i | 0 <= i < |ps| ensures ps[i].1 <= r.1 {
        if i > 0 { assert ps[i] == ps[1..][i - 1]; }
      }
    }
  }

  /**
   * FirstBest keeps the starting pair when no pair scores strictly above
   * it, and otherwise picks the first pair of the highest score: every
   * earlier pair scores strictly less.
   */
  lemma {:induction false} FirstBestChoice<M>(ps: seq<(M, int)>, best: Option<M>, bestScore: int)
    ensures || (FirstBest(ps, best, bestScore) == (best, bestScore) && forall i :: 0 <= i < |ps| ==> ps[i].1 <= bestScore)
            || exists k :: 0 <= k < |ps| && FirstBest(ps, best, bestScore) == (Some(ps[k].0), ps[k].1) && ps[k].1 > bestScore
                 && forall j :: 0 <= j < k ==> ps[j].1 < ps[k].1
    decreases |ps|
  {
    if |ps| > 0 {
      var up := ps[0].1 > bestScore;
      var b, bs := if up then Some(ps[0].0) else best, if up then ps[0].1 else bestScore;
      FirstBestChoice(ps[1..], b, bs);
      var r := FirstBest(ps, best, bestScore);
      assert r == FirstBest(ps[1..], b, bs);
      if r == (b, bs) && forall i :: 0 <= i < |ps[1..]| ==> ps[1..][i].1 <= bs {
        if !up {
          forall i | 0 <= i < |ps| ensures ps[i].1 <= bestScore {
            if i > 0 { assert ps[i] == ps[1..][i - 1]; }
          }
        }
      } else {
        var k :| 0 <= k < |ps[1..]| && r == (Some(ps[1..][k].0), ps[1..][k].1) && ps[1..][k].1 > bs
                 && forall j :: 0 <= j < k ==> ps[1..][j].1 < ps[1..][k].1;
        assert ps[k + 1] == ps[1..][k];
        forall j | 0 <= j < k + 1 ensures ps[j].1 < ps[k + 1].1 {
          if j > 0 { assert ps[j] == ps[1..][j - 1]; }
        }
      }
    }
  }

  /** The moves paired with their negated results. */
  function Scores<M>(ms: seq<M>, rs: seq<Result<(int, Counts)>>): (r: seq<(M, int)>)
    requires |rs| == |ms| && forall i :: 0 <= i < |rs| ==> rs[i].Ok?
    ensures |r| == |ms|
    ensures forall i :: 0 <= i < |ms| ==> r[i] == (ms[i], -rs[i].value.0)
  {
    seq(|ms|, i requires 0 <= i < |ms| && rs[i].Ok? => (ms[i], -rs[i].value.0))
  }

  /**
   * The root loop fails exactly when a result is an error, and then with
   * the first error; otherwise its best move and score are FirstBest's
   * over the scored moves, and the counters keep their depth field.
   */
  lemma {:induction false} RootLoopOutcome<M>(ms: seq<M>, rs: seq<Result<(int, Counts)>>, best: Option<M>, bestScore: int,
                                              st: SearchStats)
    requires |rs| == |ms|
    ensures RootLoop(ms, rs, best, bestScore, st).Ok? <==> forall i :: 0 <= i < |rs| ==> rs[i].Ok?
    ensures RootLoop(ms, rs, best, bestScore, st).Err? ==>
      exists k :: 0 <= k < |rs| && rs[k].Err? && RootLoop(ms, rs, best, bestScore, st).error == rs[k].error
        && forall j :: 0 <= j < k ==> rs[j].Ok?
    ensures RootLoop(ms, rs, best, bestScore, st).Ok? ==>
      var r := RootLoop(ms, rs, best, bestScore, st).value;
      (r.0, r.1) == FirstBest(Scores(ms, rs), best, bestScore) && r.2.depth == st.depth
    decreases |ms|
  {
    if |ms| > 0 && rs[0].Ok? {
      var r := rs[0].value;
      var b, bs := if -r.0 > bestScore then Some(ms[0]) else best, if -r.0 > bestScore then -r.0 else bestScore;
      RootLoopOutcome(ms[1..], rs[1..], b, bs, Tally(st, r.1));
      var out := RootLoop(ms, rs, best, bestScore, st);
      assert out == RootLoop(ms[1..], rs[1..], b, bs, Tally(st, r.1));
      if out.Ok? {
        forall i | 0 <= i < |rs| ensures rs[i].Ok? {
          if i > 0 { assert rs[i] == rs[1..][i - 1]; }
        }
        assert Scores(ms, rs)[1..] == Scores(ms[1..], rs[1..]);
      } else {
        var k :| 0 <= k < |rs[1..]| && rs[1..][k].Err? && out.error == rs[1..][k].error
          && forall j :: 0 <= j < k ==> rs[1..][j].Ok?;
        assert rs[k + 1] == rs[1..][k];
        forall j | 0 <= j < k + 1 ensures rs[j].Ok? {
          if j > 0 { assert rs[j] == rs[1..][j - 1]; }
        }
      }
    }
  }

  /**
   * search on a game that is not over: it fails exactly when some move
   * fails to apply, and then with the first such error; otherwise the
   * score bounds every move's score and `MinScore`, and the best move is
   * the first move of that score, or none when no move scores above
   * `MinScore`.
   */
  lemma SearchBestMove<S(!new), M(!new)>(g: GameTree<S, M>, s: S, depth: nat)
    requires CapturesShrink(g) && depth > 0 && !GameOver(g, s)
    ensures SearchOf(g, s, depth).Ok? <==> forall m :: m in g.moves(s) ==> g.apply(s, m).Ok?
    ensures SearchOf(g, s, depth).Err? ==>
      exists k :: 0 <= k < |g.moves(s)| && g.apply(s, g.moves(s)[k]).Err?
        && SearchOf(g, s, depth).error == g.apply(s, g.moves(s)[k]).error
        && forall j :: 0 <= j < k ==> g.apply(s, g.moves(s)[j]).Ok?
    ensures SearchOf(g, s, depth).Ok? ==>
      var r := SearchOf(g, s, depth).value;
      var ms := g.moves(s);
      && r.depth == depth && r.stats.depth == depth
      && MinScore <= r.score
      && (forall i :: 0 <= i < |ms| ==> RootScore(g, s, depth, ms[i]) <= r.score)
      && (r.bestMove.None? ==> r.score == MinScore)
      && (r.bestMove.Some? ==>
            exists k :: 0 <= k < |ms| && r.bestMove == Some(ms[k]) && r.score == RootScore(g, s, depth, ms[k]) > MinScore
              && forall j :: 0 <= j < k ==> RootScore(g, s, depth, ms[j]) < r.score)
  {
    var st := SearchStats(0, 0, 0, depth);
    var ms := g.moves(s);
    var rs := RootResults(g, s, depth, ms);
    RootLoopOutcome(ms, rs, None, MinScore, st);
    assert forall i :: 0 <= i < |ms| ==> (rs[i].Ok? <==> g.apply(s, ms[i]).Ok?);
    if SearchOf(g, s, depth).Ok? {
      var ps := Scores(ms, rs);
      assert forall i :: 0 <= i < |ms| ==> ps[i].1 == RootScore(g, s, depth, ms[i]);
      FirstBestBound(ps, None, MinScore);
      FirstBestChoice(ps, None, MinScore);
    }
  }

  /**
   * A root move's score against negamax: the child's negamax value
   * clamped to the root window, negated, unless the child is a finished
   * game searched above the horizon, which is scored as it is.
   */
  lemma RootScoreNegamax<S(!new), M(!new)>(g: GameTree<S, M>, s: S, depth: nat, m: M)
    requires CapturesShrink(g) && depth > 0 && g.apply(s, m).Ok?
    ensures depth == 1 || !GameOver(g, g.apply(s, m).value) ==>
      RootScore(g, s, depth, m) == -Clamp(NegamaxOf(g, g.apply(s, m).value, depth - 1), MinScore, MaxScore)
    ensures depth > 1 && GameOver(g, g.apply(s, m).value) ==>
      RootScore(g, s, depth, m) == -g.gameOverScore(g.apply(s, m).value)
  {
    AlphaBetaSound(g, g.apply(s, m).value, depth - 1, MinScore, MaxScore);
  }

  /** One turn of the root loop at index `i`: an error ends it, a result moves on to `i + 1`. */
  lemma RootLoopTurn<M>(ms: seq<M>, rs: seq<Result<(int, Counts)>>, i: nat, best: Option<M>, bestScore: int, st: SearchStats)
    requires |rs| == |ms| && i < |ms|
    ensures rs[i].Err? ==> RootLoop(ms[i..], rs[i..], best, bestScore, st) == Err(rs[i].error)
    ensures rs[i].Ok? && -rs[i].value.0 > bestScore ==>
      RootLoop(ms[i..], rs[i..], best, bestScore, st)
        == RootLoop(ms[i + 1..], rs[i + 1..], Some(ms[i]), -rs[i].value.0, Tally(st, rs[i].value.1))
    ensures rs[i].Ok? && -rs[i].value.0 <= bestScore ==>
      RootLoop(ms[i..], rs[i..], best, bestScore, st)
        == RootLoop(ms[i + 1..], rs[i + 1..], best, bestScore, Tally(st, rs[i].value.1))
  {
    assert ms[i..][1..] == ms[i + 1..] && rs[i..][1..] == rs[i + 1..];
  }

  /** A move that applies has its child's search result. */
  lemma RootResultOk<S(!new), M(!new)>(g: GameTree<S, M>, s: S, depth: nat, m: M, d: nat)
    requires CapturesShrink(g) && depth > 0 && d == depth - 1 && g.apply(s, m).Ok?
    ensures RootResult(g, s, depth, m) == Ok(AlphaBetaOf(g, g.apply(s, m).value, d, MinScore, MaxScore))
  {
  }

  /** search on a game that is not over is its root loop, from no best move at `MinScore`. */
  lemma SearchLoop<S(!new), M(!new)>(g: GameTree<S, M>, s: S, depth: nat)
    requires CapturesShrink(g) && depth > 0 && !GameOver(g, s)
    ensures var r := RootLoop(g.moves(s), RootResults(g, s, depth, g.moves(s)), None, MinScore, SearchStats(0, 0, 0, depth));
      SearchOf(g, s, depth) == if r.Err? then Err(r.error) else Ok(SearchResult(r.value.0, r.value.1, depth, r.value.2))
  {
  }

  /** search: the result is SearchOf's. */
  method Search<S(!new), M(!new)>(g: GameTree<S, M>, s: S, depth: nat) returns (result: Result<SearchResult<M>>)
    requires CapturesShrink(g) && (depth > 0 || GameOver(g, s))
    ensures result == SearchOf(g, s, depth)
  {
    var stats := SearchStats(0, 0, 0, depth);
    if |g.moves(s)| == 0 {
      return Ok(SearchResult(None, g.gameOverScore(s), 0, stats));
    }
    SearchLoop(g, s, depth);
    var r := SearchRoot(g, s, depth, g.moves(s), stats);
    if r.Err? {
      return Err(r.error);
    }
    var (bestMove, bestScore, finalStats) := r.value;
    return Ok(SearchResult(bestMove, bestScore, depth, finalStats));
  }

  /** search's loop over the moves: the result is RootLoop's over their root results. */
  method SearchRoot<S(!new), M(!new)>(g: GameTree<S, M>, s: S, depth: nat, moves: seq<M>, stats0: SearchStats)
    returns (result: Result<(Option<M>, int, SearchStats)>)
    requires CapturesShrink(g) && depth > 0
    ensures result == RootLoop(moves, RootResults(g, s, depth, moves), None, MinScore, stats0)
  {
    var bestMove: Option<M> := None;
    var bestScore := MinScore;
    var stats := stats0;
    ghost var rs := RootResults(g, s, depth, moves);
    ghost var total := RootLoop(moves, rs, None, MinScore, stats0);
    assert moves[0..] == moves && rs[0..] == rs;
    var i := 0;
    while i < |moves|
      invariant 0 <= i <= |moves|
      invariant RootLoop(moves[i..], rs[i..], bestMove, bestScore, stats) == total
      decreases |moves| - i
    {
      RootLoopTurn(moves, rs, i, bestMove, bestScore, stats);
      var next := g.apply(s, moves[i]);
      if next.Err? {
        return Err(next.error);
      }
      var d: nat := depth - 1;
      ghost var c := AlphaBetaOf(g, next.value, d, MinScore, MaxScore);
      RootResultOk(g, s, depth, moves[i], d);
      assert rs[i] == Ok(c);
      var childScore, childStats := AlphaBeta(g, next.value, d, MinScore, MaxScore, stats);
      assert (childScore, childStats) == Finish(stats, c);
      var score := -childScore;
      assert score == -rs[i].value.0 && childStats == Tally(stats, rs[i].value.1);
      if score > bestScore {
        bestScore := score;
        bestMove := Some(moves[i]);
      }
      assert RootLoop(moves[i + 1..], rs[i + 1..], bestMove, bestScore, childStats) == total;
      stats := childStats;
      i := i + 1;
    }
    assert moves[i..] == [];
    return Ok((bestMove, bestScore, stats));
  }
}
