/** The decision procedure: when the game is over, where the opponent may
    place its next card, and the depth-limited alpha-beta search that picks
    the swipe. */
module Search {
  import opened Cards
  import opened Boards

  /** `game_is_over`: no swipe can move a card. */
  method GameIsOver(board: Board) returns (over: bool)
    requires board.Valid()
    ensures over == GameOver(board.cells[..])
  {
    var moves := [SwipeUp, SwipeDown, SwipeLeft, SwipeRight];
    var k := 0;
    while k < |moves|
      invariant 0 <= k <= |moves|
      invariant NoneMoves(board.cells[..], moves[..k])
    {
      var can := board.CanShift(moves[k]);
      if can {
        MovableIsNotOver(board.cells[..], moves[k]);
        return false;
      }
      NoneMovesExtend(board.cells[..], moves, k);
      k := k + 1;
    }
    NoMoveIsOver(board.cells[..], moves[..k]);
    return true;
  }

  /** A board on which some swipe moves a card is not over. */
  lemma MovableIsNotOver(s: seq<Card>, pm: PlayerMove)
    requires |s| == BoardElts && IsSwipe(pm) && ShiftChanges(s, pm)
    ensures !GameOver(s)
  {
    match pm
    case SwipeUp =>
    case SwipeDown =>
    case SwipeLeft =>
    case SwipeRight =>
  }

  /** The values the opponent may place, given the colour it announced: a
      blue card is a 1, a red card a 2, and a white card a 3 or any larger
      card of the 3 family strictly below the largest card on the board. */
  predicate Offered(nc: NextColor, v: Card, maxCard: Card)
  {
    match nc
    case Blue => v == 1
    case Red => v == 2
    case White => v == 3 || (IsValid3CardValue(v) && 6 <= v < maxCard)
  }

  /** A placement the opponent may make after swipe pm on board s with next
      colour nc: an empty cell on the entry edge and an offered value. */
  predicate Placeable(s: seq<Card>, nc: NextColor, pm: PlayerMove, cp: CardPlacement)
    requires |s| == BoardElts && IsSwipe(pm)
  {
    OnEntryEdge(pm, cp.position) && s[Index(cp.position)] == NullCard &&
    Offered(nc, cp.card, MaxOf(s))
  }

  /** The position of lane l on the entry edge is where the walk along the
      edge stands after l steps. */
  lemma EdgeWalk(pm: PlayerMove, start: (int, int), vector: CardVector, pos: (int, int), l: Coord)
    requires IsSwipe(pm) && (start, vector) == EdgeGeometry(pm)
    requires pos == Spot(pm, 3, l)
    ensures start == Spot(pm, 3, 0)
    ensures (pos.0 + vector.dx, pos.1 + vector.dy) == Spot(pm, 3, l + 1)
  {
  }

  /** Lane l meets the entry edge at its rank-3 cell. */
  lemma EdgeCell(pm: PlayerMove, l: Coord)
    requires IsSwipe(pm)
    ensures OnEntryEdge(pm, PosOf(pm, 3, l)) && LaneIndexOf(pm, PosOf(pm, 3, l)) == l
  {
  }

  /** The switch at the head of `possible_computer_card_placements_post_shift`:
      the first cell of the entry edge and the step along it. */
  function EdgeGeometry(pm: PlayerMove): ((int, int), CardVector)
    requires IsSwipe(pm)
  {
    match pm
    case SwipeUp => ((0, 3), CardVector(1, 0))
    case SwipeDown => ((0, 0), CardVector(1, 0))
    case SwipeLeft => ((3, 0), CardVector(0, 1))
    case SwipeRight => ((0, 0), CardVector(0, 1))
  }

  /** `possible_computer_card_placements_post_shift`: walk the entry edge and,
      at every empty cell, list the values the announced colour allows. The
      result holds exactly the placements the rules allow. */
  method PossiblePlacements(board: Board, pm: PlayerMove) returns (ps: seq<CardPlacement>)
    requires board.Valid() && IsSwipe(pm)
    ensures forall cp :: cp in ps <==> Placeable(board.cells[..], board.nc, pm, cp)
  {
    ghost var s := board.cells[..];
    var (start, vector) := EdgeGeometry(pm);
    var pos := start;
    ps := [];
    var i := 0;
    while i < BoardSize
      invariant 0 <= i <= 4
      invariant pos == Spot(pm, 3, i)
      invariant forall cp :: cp in ps <==>
        Placeable(s, board.nc, pm, cp) && LaneIndexOf(pm, cp.position) < i
    {
      EdgeWalk(pm, start, vector, pos, i);
      var here := CardPosition(pos.0, pos.1);
      EdgeCell(pm, i);
      if board.cells[Index(here)] == NullCard {
        var offers := OffersAt(board, here);
        ghost var ps0 := ps;
        ps := ps + offers;
        forall cp ensures cp in ps <==>
          Placeable(s, board.nc, pm, cp) && LaneIndexOf(pm, cp.position) < i + 1
        {
          if LaneIndexOf(pm, cp.position) == i && OnEntryEdge(pm, cp.position) {
            EdgePositionOfLane(pm, cp.position, here, i);
          }
        }
      } else {
        forall cp ensures cp in ps <==>
          Placeable(s, board.nc, pm, cp) && LaneIndexOf(pm, cp.position) < i + 1
        {
          if LaneIndexOf(pm, cp.position) == i && OnEntryEdge(pm, cp.position) {
            EdgePositionOfLane(pm, cp.position, here, i);
          }
        }
      }
      pos := (pos.0 + vector.dx, pos.1 + vector.dy);
      i := i + 1;
    }
  }

  /** On the entry edge, a lane has a single cell. */
  lemma EdgePositionOfLane(pm: PlayerMove, p: CardPosition, q: CardPosition, l: Coord)
    requires IsSwipe(pm) && OnEntryEdge(pm, p) && LaneIndexOf(pm, p) == l
    requires q == PosOf(pm, 3, l)
    ensures p == q
  {
  }

  /** The switch on the next colour for one empty cell `here`: a blue 1, a
      red 2, or a white 3 followed by 6, 12, ... while below the largest card
      on the board. */
  method OffersAt(board: Board, here: CardPosition) returns (ps: seq<CardPlacement>)
    requires board.Valid()
    ensures forall cp :: cp in ps <==> cp.position == here && Offered(board.nc, cp.card, MaxOf(board.cells[..]))
  {
    match board.nc
    case Blue =>
      ps := [CardPlacement(1, here)];
    case Red =>
      ps := [CardPlacement(2, here)];
    case White =>
      ps := [CardPlacement(3, here)];
      ghost var m := MaxOf(board.cells[..]);
      var card: Card := 6;
      ghost var prev: nat := 3;
      assert IsValid3CardValue(6) by { RejectedCardValues(); }
      while card < board.MaxCard()
        invariant IsValid3CardValue(card) && 6 <= card
        invariant card == 6 || (IsValid3CardValue(prev) && card == prev + prev && prev < m)
        invariant forall cp :: cp in ps <==>
          cp.position == here && (cp.card == 3 || (IsValid3CardValue(cp.card) && 6 <= cp.card < card))
        decreases m - card
      {
        ps := ps + [CardPlacement(card, here)];
        NextOfThreeFamily(card);
        CanCombineIffCombineSucceeds(card, card);
        prev := card;
        card := Combine(card, card).value;
      }
      WildcardsBelowMax(card, prev, m);
  }

  /** When the enumeration of wildcards stops, every card of the 3 family it
      listed is below the largest card: the last one listed is, and doubling
      skips no member of the family. */
  lemma WildcardsBelowMax(card: nat, prev: nat, m: nat)
    requires card == 6 || (IsValid3CardValue(prev) && card == prev + prev && prev < m)
    ensures forall v: nat | IsValid3CardValue(v) && 6 <= v < card :: v < m
  {
    if card != 6 {
      NextOfThreeFamily(prev);
    }
  }

  /** After a swipe that moved a card the opponent always has a reply: the
      entry edge has a free cell, and every colour offers at least one value
      (the `assert(computer_moved)` of `inner_alphabeta`). */
  lemma SomePlacement(s0: seq<Card>, nc: NextColor, pm: PlayerMove)
    requires |s0| == BoardElts && IsSwipe(pm) && ShiftChanges(s0, pm)
    ensures exists cp :: Placeable(Shifted(s0, pm), nc, pm, cp)
  {
    var t := Shifted(s0, pm);
    ShiftFreesEntryEdge(s0, pm);
    var l: Coord :| t[Cell(pm, 3, l)] == NullCard;
    EdgeCell(pm, l);
    var c: Card := match nc case Blue => 1 case Red => 2 case White => (RejectedCardValues(); 3);
    assert Placeable(t, nc, pm, CardPlacement(c, PosOf(pm, 3, l)));
  }

  /** None of the swipes in ms changes board s. */
  ghost predicate NoneMoves(s: seq<Card>, ms: seq<PlayerMove>)
    requires |s| == BoardElts
  {
    |ms| == 0 ||
    (IsSwipe(ms[|ms| - 1]) && !ShiftChanges(s, ms[|ms| - 1]) && NoneMoves(s, ms[..|ms| - 1]))
  }

  lemma NoneMovesExtend(s: seq<Card>, ms: seq<PlayerMove>, k: nat)
    requires |s| == BoardElts && k < |ms| && NoneMoves(s, ms[..k])
    requires IsSwipe(ms[k]) && !ShiftChanges(s, ms[k])
    ensures NoneMoves(s, ms[..k + 1])
  {
    assert ms[..k + 1][..k] == ms[..k];
  }

  /** Unfolding `NoneMoves` once: the last move does not change the board,
      and neither do the ones before it. */
  lemma NoneMovesLast(s: seq<Card>, ms: seq<PlayerMove>, m: PlayerMove, rest: seq<PlayerMove>)
    requires |s| == BoardElts && ms == rest + [m] && NoneMoves(s, ms)
    ensures IsSwipe(m) && !ShiftChanges(s, m) && NoneMoves(s, rest)
  {
    assert ms[|ms| - 1] == m && ms[..|ms| - 1] == rest;
  }

  /** If none of the four swipes changes the board, the game is over. */
  lemma NoMoveIsOver(s: seq<Card>, ms: seq<PlayerMove>)
    requires |s| == BoardElts && ms == [SwipeUp, SwipeDown, SwipeLeft, SwipeRight]
    requires NoneMoves(s, ms)
    ensures GameOver(s)
  {
    NoneMovesLast(s, ms, SwipeRight, [SwipeUp, SwipeDown, SwipeLeft]);
    NoneMovesLast(s, [SwipeUp, SwipeDown, SwipeLeft], SwipeLeft, [SwipeUp, SwipeDown]);
    NoneMovesLast(s, [SwipeUp, SwipeDown], SwipeDown, [SwipeUp]);
    NoneMovesLast(s, [SwipeUp], SwipeUp, []);
  }

  /** The score of a position: `lowest()` and `max()` of the score type
      become the two sentinels around the values of the evaluator. */
  datatype Score = Lowest | Finite(v: int) | Highest

  /** The strict order on scores. */
  predicate Below(a: Score, b: Score)
  {
    match (a, b)
    case (Lowest, _) => !b.Lowest?
    case (Finite(x), Finite(y)) => x < y
    case (Finite(_), Highest) => true
    case _ => false
  }

  predicate AtMost(a: Score, b: Score)
  {
    !Below(b, a)
  }

  /** `Below` is a strict total order with `Lowest` least and `Highest`
      greatest, so `AtMost` is its reflexive closure. */
  lemma {:induction false} ScoreOrder(a: Score, b: Score, c: Score)
    ensures !Below(a, a)
    ensures Below(a, b) && Below(b, c) ==> Below(a, c)
    ensures a == b || Below(a, b) || Below(b, a)
    ensures AtMost(Lowest, a) && AtMost(a, Highest)
    ensures AtMost(a, b) <==> a == b || Below(a, b)
  {
  }

  /** `MinimaxResult`: the move chosen, its score and whether every line of
      play explored ends in a lost game. */
  datatype MinimaxResult = MinimaxResult(bestMove: PlayerMove, moveScore: Score, deathGuaranteed: bool)

  /** The heuristic the search calls on the positions at its horizon, as a
      function of the cells and the next colour. */
  type Evaluator = (seq<Card>, NextColor) -> int

  /** The depth of the search `run_minimax` starts. */
  const SearchDepth: nat := 4

  /** `inner_alphabeta`: at depth 0, the evaluation of the board (or `Lowest`
      if the game is over); otherwise the best swipe for the player against
      the opponent's placements and colours, with pruning inside the window
      (alpha, beta). A move is reported exactly when some swipe is possible,
      it is always a swipe that moves a card, and the score reported never
      exceeds beta. */
  method InnerAlphaBeta(eval: Evaluator, board: Board, depth: nat, alpha0: Score, beta: Score)
    returns (r: MinimaxResult)
    requires board.Valid()
    decreases depth, 2
    ensures depth == 0 ==> r == MinimaxResult(Unknown,
      if GameOver(board.cells[..]) then Lowest else Finite(eval(board.cells[..], board.nc)),
      GameOver(board.cells[..]))
    ensures r.bestMove == Unknown <==> depth == 0 || GameOver(board.cells[..])
    ensures r.bestMove != Unknown ==> ShiftChanges(board.cells[..], r.bestMove)
    ensures GameOver(board.cells[..]) ==> r.moveScore == Lowest && r.deathGuaranteed
    ensures depth > 0 && !GameOver(board.cells[..]) ==> AtMost(r.moveScore, beta)
  {
    if depth == 0 {
      var over := GameIsOver(board);
      var score := if over then Lowest else Finite(eval(board.cells[..], board.nc));
      return MinimaxResult(Unknown, score, over);
    }
    ghost var s := board.cells[..];
    var deathGuaranteed := true;
    var bestMove := Unknown;
    var alpha := alpha0;
    var moves := [SwipeUp, SwipeDown, SwipeLeft, SwipeRight];
    var k := 0;
    while k < |moves|
      invariant 0 <= k <= |moves|
      invariant board.cells[..] == s
      invariant bestMove == Unknown ==> NoneMoves(s, moves[..k])
      invariant bestMove != Unknown ==> IsSwipe(bestMove) && ShiftChanges(s, bestMove)
      invariant bestMove != Unknown ==> AtMost(alpha, beta)
    {
      var move := moves[k];
      var can := board.CanShift(move);
      if can {
        var newBeta, escapes := PlayerMoves(eval, board, move, depth, alpha, beta);
        if escapes {
          deathGuaranteed := false;
        }
        if bestMove == Unknown || Below(alpha, newBeta) {
          bestMove := move;
          alpha := newBeta;
        }
        if AtMost(beta, alpha) {
          break;
        }
      } else if bestMove == Unknown {
        NoneMovesExtend(s, moves, k);
      }
      k := k + 1;
    }
    if bestMove == Unknown {
      NoMoveIsOver(s, moves[..k]);
      return MinimaxResult(Unknown, Lowest, true);
    }
    MovableIsNotOver(board.cells[..], bestMove);
    return MinimaxResult(bestMove, alpha, deathGuaranteed);
  }

  /** The player's half of a ply in `inner_alphabeta`: swipe a copy of the
      board, then let the opponent reply. */
  method PlayerMoves(eval: Evaluator, board: Board, move: PlayerMove, depth: nat, alpha: Score, beta: Score)
    returns (newBeta: Score, escapes: bool)
    requires board.Valid() && IsSwipe(move) && depth > 0
    requires ShiftChanges(board.cells[..], move)
    decreases depth, 1
    ensures AtMost(newBeta, beta)
  {
    var board2 := board.Clone();
    var shifted := board2.Shift(move);
    assert shifted;
    SomePlacement(board.cells[..], board2.nc, move);
    newBeta, escapes := ComputerReplies(eval, board2, move, depth, alpha, beta);
  }

  /** The opponent's half of a ply in `inner_alphabeta`: for each placement
      on the swiped board and each next colour, search one level deeper and
      lower the bound `newBeta`, leaving the colours of a placement early once
      `newBeta` is at most alpha. `escapes` tells whether some reply was not
      a guaranteed loss. */
  method ComputerReplies(eval: Evaluator, board2: Board, move: PlayerMove, depth: nat, alpha: Score, beta: Score)
    returns (newBeta: Score, escapes: bool)
    requires board2.Valid() && IsSwipe(move) && depth > 0
    requires exists cp :: Placeable(board2.cells[..], board2.nc, move, cp)
    decreases depth, 0
    ensures AtMost(newBeta, beta)
  {
    ghost var s2 := board2.cells[..];
    var placements := PossiblePlacements(board2, move);
    var computerMoved := false;
    newBeta := beta;
    escapes := false;
    var colours := [Red, Blue, White];
    var i := 0;
    while i < |placements|
      invariant 0 <= i <= |placements|
      invariant computerMoved <==> i > 0
      invariant board2.cells[..] == s2
      invariant AtMost(newBeta, beta)
    {
      var cp := placements[i];
      assert Placeable(s2, board2.nc, move, cp);
      computerMoved := true;
      var j := 0;
      while j < |colours|
        invariant 0 <= j <= |colours|
        invariant board2.cells[..] == s2
        invariant AtMost(newBeta, beta)
      {
        var board3 := board2.Clone();
        var placed := board3.ComputersMove(move, cp, colours[j]);
        assert placed;
        var res := InnerAlphaBeta(eval, board3, depth - 1, alpha, newBeta);
        if !res.deathGuaranteed {
          escapes := true;
        }
        if Below(res.moveScore, newBeta) {
          ScoreOrder(res.moveScore, newBeta, beta);
          newBeta := res.moveScore;
        }
        if AtMost(newBeta, alpha) {
          break;
        }
        j := j + 1;
      }
      i := i + 1;
    }
    ghost var cp :| Placeable(s2, board2.nc, move, cp);
    assert cp in placements;
    assert computerMoved;
  }

  /** `run_minimax`: a search of depth 4 over the whole window. It proposes
      a move exactly when the game is not over, and that move is a swipe
      that moves a card. */
  method RunMinimax(eval: Evaluator, board: Board) returns (move: PlayerMove)
    requires board.Valid()
    ensures move == Unknown <==> GameOver(board.cells[..])
    ensures move != Unknown ==> ShiftChanges(board.cells[..], move)
  {
    var ret := InnerAlphaBeta(eval, board, SearchDepth, Lowest, Highest);
    move := ret.bestMove;
  }
}
