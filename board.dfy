/** The 4x4 board: its geometry, the whole-board effect of a swipe, and the
    `Board` class whose methods shift the cells in place and place the
    opponent's card. */
module Boards {
  import opened Cards
  import opened Lanes

  datatype PlayerMove = Unknown | SwipeUp | SwipeDown | SwipeLeft | SwipeRight

  datatype NextColor = Red | Blue | White

  /** The four real moves; `Unknown` only stands for "no move yet". */
  predicate IsSwipe(pm: PlayerMove)
  {
    pm != Unknown
  }

  const BoardSize: nat := 4
  const BoardElts: nat := 16

  type Coord = i: int | 0 <= i < 4

  datatype CardPosition = CardPosition(x: Coord, y: Coord)

  datatype CardVector = CardVector(dx: int, dy: int)

  datatype CardPlacement = CardPlacement(card: Card, position: CardPosition)

  /** Cells are stored row by row: position (x, y) is cell x + 4 * y. */
  function Index(pos: CardPosition): (i: nat)
    ensures i < BoardElts
  {
    pos.x + pos.y * BoardSize
  }

  function PositionAt(i: nat): (pos: CardPosition)
    requires i < BoardElts
    ensures Index(pos) == i
    ensures forall p: CardPosition :: Index(p) == i ==> p == pos
  {
    CardPosition(i % 4, i / 4)
  }

  /** The (x, y) coordinates of rank r in lane l for swipe pm, where rank 0 is
      the destination edge. Defined on all integers so that the walk of the
      shift can step one past the board. */
  function Spot(pm: PlayerMove, r: int, l: int): (int, int)
    requires IsSwipe(pm)
  {
    match pm
    case SwipeUp => (l, r)
    case SwipeDown => (l, 3 - r)
    case SwipeLeft => (r, l)
    case SwipeRight => (3 - r, l)
  }

  /** The cell holding rank r of lane l for swipe pm. */
  function Cell(pm: PlayerMove, r: Coord, l: Coord): (c: nat)
    requires IsSwipe(pm)
    ensures c < BoardElts
  {
    match pm
    case SwipeUp => l + 4 * r
    case SwipeDown => l + 4 * (3 - r)
    case SwipeLeft => r + 4 * l
    case SwipeRight => (3 - r) + 4 * l
  }

  function PosOf(pm: PlayerMove, r: Coord, l: Coord): (pos: CardPosition)
    requires IsSwipe(pm)
    ensures (pos.x, pos.y) == Spot(pm, r, l)
    ensures Index(pos) == Cell(pm, r, l)
  {
    var (x, y) := Spot(pm, r, l);
    CardPosition(x, y)
  }

  /** Different (rank, lane) pairs are different cells. */
  lemma CellInjective(pm: PlayerMove, r: Coord, l: Coord, r2: Coord, l2: Coord)
    requires IsSwipe(pm)
    ensures Cell(pm, r, l) == Cell(pm, r2, l2) ==> r == r2 && l == l2
  {
  }

  /** Distance of a position from the destination edge of swipe pm. */
  function RankOf(pm: PlayerMove, pos: CardPosition): Coord
    requires IsSwipe(pm)
  {
    match pm
    case SwipeUp => pos.y
    case SwipeDown => 3 - pos.y
    case SwipeLeft => pos.x
    case SwipeRight => 3 - pos.x
  }

  /** The lane (column or row) a position lies in, for swipe pm. */
  function LaneIndexOf(pm: PlayerMove, pos: CardPosition): Coord
    requires IsSwipe(pm)
  {
    if pm == SwipeUp || pm == SwipeDown then pos.x else pos.y
  }

  lemma RankLaneRoundTrip(pm: PlayerMove, pos: CardPosition, r: Coord, l: Coord)
    requires IsSwipe(pm)
    ensures PosOf(pm, RankOf(pm, pos), LaneIndexOf(pm, pos)) == pos
    ensures Cell(pm, RankOf(pm, pos), LaneIndexOf(pm, pos)) == Index(pos)
    ensures RankOf(pm, PosOf(pm, r, l)) == r && LaneIndexOf(pm, PosOf(pm, r, l)) == l
  {
  }

  /** The edge where the opponent places its card after swipe pm
      (`computers_move`): the bottom row for up, the top row for down, the
      right column for left and the left column for right. */
  predicate OnEntryEdge(pm: PlayerMove, pos: CardPosition)
    requires IsSwipe(pm)
  {
    match pm
    case SwipeUp => pos.y == BoardSize - 1
    case SwipeDown => pos.y == 0
    case SwipeLeft => pos.x == BoardSize - 1
    case SwipeRight => pos.x == 0
  }

  /** The entry edge is the far end of every lane: rank 3. */
  lemma EntryEdgeIsLastRank(pm: PlayerMove, pos: CardPosition)
    requires IsSwipe(pm)
    ensures OnEntryEdge(pm, pos) <==> RankOf(pm, pos) == 3
  {
  }

  /** Lane l of board s for swipe pm, listed from the destination edge. */
  function LaneOf(s: seq<Card>, pm: PlayerMove, l: Coord): (a: seq<Card>)
    requires |s| == BoardElts && IsSwipe(pm)
    ensures IsLane(a)
  {
    [s[Cell(pm, 0, l)], s[Cell(pm, 1, l)], s[Cell(pm, 2, l)], s[Cell(pm, 3, l)]]
  }

  /** The board after swipe pm: every lane shifted on its own. */
  function Shifted(s: seq<Card>, pm: PlayerMove): (t: seq<Card>)
    requires |s| == BoardElts && IsSwipe(pm)
    ensures |t| == BoardElts
  {
    seq(BoardElts, i requires 0 <= i < BoardElts =>
      var pos := PositionAt(i);
      ShiftLane(LaneOf(s, pm, LaneIndexOf(pm, pos)))[RankOf(pm, pos)])
  }

  /** Whether swipe pm changes at least one cell: what `can_shift` answers
      and what `shift` requires. */
  predicate ShiftChanges(s: seq<Card>, pm: PlayerMove)
    requires |s| == BoardElts && IsSwipe(pm)
  {
    Shifted(s, pm) != s
  }

  /** The game is over when no swipe changes the board. */
  predicate GameOver(s: seq<Card>)
    requires |s| == BoardElts
  {
    !ShiftChanges(s, SwipeUp) && !ShiftChanges(s, SwipeDown) &&
    !ShiftChanges(s, SwipeLeft) && !ShiftChanges(s, SwipeRight)
  }

  /** The row-major position of a cell is the position of its rank and lane. */
  lemma PositionAtCell(pm: PlayerMove, r: Coord, l: Coord)
    requires IsSwipe(pm)
    ensures PositionAt(Cell(pm, r, l)) == PosOf(pm, r, l)
  {
    var pos := PositionAt(Cell(pm, r, l));
    assert Index(pos) == Index(PosOf(pm, r, l));
  }

  /** Rank r of lane l on the shifted board holds rank r of the shifted lane. */
  lemma ShiftedAt(s: seq<Card>, pm: PlayerMove, r: Coord, l: Coord)
    requires |s| == BoardElts && IsSwipe(pm)
    ensures Shifted(s, pm)[Cell(pm, r, l)] == ShiftLane(LaneOf(s, pm, l))[r]
  {
    PositionAtCell(pm, r, l);
    RankLaneRoundTrip(pm, PosOf(pm, r, l), r, l);
  }

  /** Lane l of the shifted board is lane l shifted. */
  lemma ShiftedLane(s: seq<Card>, pm: PlayerMove, l: Coord)
    requires |s| == BoardElts && IsSwipe(pm)
    ensures LaneOf(Shifted(s, pm), pm, l) == ShiftLane(LaneOf(s, pm, l))
  {
    ShiftedAt(s, pm, 0, l);
    ShiftedAt(s, pm, 1, l);
    ShiftedAt(s, pm, 2, l);
    ShiftedAt(s, pm, 3, l);
  }

  /** Every lane of the shifted board is the shifted lane. */
  lemma ShiftedLanes(s: seq<Card>, pm: PlayerMove)
    requires |s| == BoardElts && IsSwipe(pm)
    ensures forall l: Coord :: LaneOf(Shifted(s, pm), pm, l) == ShiftLane(LaneOf(s, pm, l))
  {
    forall l: Coord
      ensures LaneOf(Shifted(s, pm), pm, l) == ShiftLane(LaneOf(s, pm, l))
    {
      ShiftedLane(s, pm, l);
    }
  }

  /** Two boards are equal iff all their lanes are. */
  lemma EqualIffLanesEqual(s: seq<Card>, t: seq<Card>, pm: PlayerMove)
    requires |s| == BoardElts && |t| == BoardElts && IsSwipe(pm)
    ensures s == t <==> forall l: Coord :: LaneOf(s, pm, l) == LaneOf(t, pm, l)
  {
    if forall l: Coord :: LaneOf(s, pm, l) == LaneOf(t, pm, l) {
      forall i | 0 <= i < BoardElts
        ensures s[i] == t[i]
      {
        var pos := PositionAt(i);
        var l := LaneIndexOf(pm, pos);
        RankLaneRoundTrip(pm, pos, 0, 0);
        assert LaneOf(s, pm, l)[RankOf(pm, pos)] == LaneOf(t, pm, l)[RankOf(pm, pos)];
      }
    }
  }

  /** Rank r of lane l is the cell `Cell` names. */
  lemma LaneAt(s: seq<Card>, pm: PlayerMove, l: Coord, r: Coord)
    requires |s| == BoardElts && IsSwipe(pm)
    ensures LaneOf(s, pm, l)[r] == s[Cell(pm, r, l)]
  {
  }

  /** A lane that some pass changed makes the whole board change. */
  lemma FiredLaneChangesBoard(s: seq<Card>, pm: PlayerMove, l: Coord)
    requires |s| == BoardElts && IsSwipe(pm)
    requires FiredWithin(LaneOf(s, pm, l), 3)
    ensures ShiftChanges(s, pm)
  {
    ShiftedLane(s, pm, l);
    LaneChangedIffFired(LaneOf(s, pm, l), 3);
    assert LaneOf(Shifted(s, pm), pm, l) != LaneOf(s, pm, l);
  }

  /** A board that changed has a lane in which some pass fired. */
  lemma ChangedBoardHasFiredLane(s: seq<Card>, pm: PlayerMove) returns (l: Coord)
    requires |s| == BoardElts && IsSwipe(pm)
    requires ShiftChanges(s, pm)
    ensures FiredWithin(LaneOf(s, pm, l), 3)
  {
    var t := Shifted(s, pm);
    EqualIffLanesEqual(t, s, pm);
    l :| LaneOf(t, pm, l) != LaneOf(s, pm, l);
    ShiftedLane(s, pm, l);
    LaneChangedIffFired(LaneOf(s, pm, l), 3);
  }

  /** A swipe changes the board iff one of its passes slides or merges a card
      in some lane. */
  lemma ShiftChangesIffFired(s: seq<Card>, pm: PlayerMove)
    requires |s| == BoardElts && IsSwipe(pm)
    ensures ShiftChanges(s, pm) <==> exists l: Coord :: FiredWithin(LaneOf(s, pm, l), 3)
  {
    if ShiftChanges(s, pm) {
      var l := ChangedBoardHasFiredLane(s, pm);
    }
    if exists l: Coord :: FiredWithin(LaneOf(s, pm, l), 3) {
      var l: Coord :| FiredWithin(LaneOf(s, pm, l), 3);
      FiredLaneChangesBoard(s, pm, l);
    }
  }

  function RowTotal(s: seq<Card>, y: Coord): nat
    requires |s| == BoardElts
  {
    s[4 * y] as nat + s[4 * y + 1] + s[4 * y + 2] + s[4 * y + 3]
  }

  /** The sum of the values of all 16 cells. */
  function Total(s: seq<Card>): nat
    requires |s| == BoardElts
  {
    RowTotal(s, 0) + RowTotal(s, 1) + RowTotal(s, 2) + RowTotal(s, 3)
  }

  function RowCount(s: seq<Card>, y: Coord): nat
    requires |s| == BoardElts
  {
    Occupied(s[4 * y]) + Occupied(s[4 * y + 1]) + Occupied(s[4 * y + 2]) + Occupied(s[4 * y + 3])
  }

  /** The number of occupied cells. */
  function CardCount(s: seq<Card>): nat
    requires |s| == BoardElts
  {
    RowCount(s, 0) + RowCount(s, 1) + RowCount(s, 2) + RowCount(s, 3)
  }

  /** The number of merges (as opposed to slides into empty cells) a swipe makes. */
  function Merges(s: seq<Card>, pm: PlayerMove): nat
    requires |s| == BoardElts && IsSwipe(pm)
  {
    MergesWithin(LaneOf(s, pm, 0), 3) + MergesWithin(LaneOf(s, pm, 1), 3) +
    MergesWithin(LaneOf(s, pm, 2), 3) + MergesWithin(LaneOf(s, pm, 3), 3)
  }

  lemma LaneCells(s: seq<Card>, pm: PlayerMove, l: Coord)
    requires |s| == BoardElts && IsSwipe(pm)
    ensures LaneSum(LaneOf(s, pm, l)) ==
      s[Cell(pm, 0, l)] as nat + s[Cell(pm, 1, l)] + s[Cell(pm, 2, l)] + s[Cell(pm, 3, l)]
    ensures LaneOccupied(LaneOf(s, pm, l)) ==
      Occupied(s[Cell(pm, 0, l)]) + Occupied(s[Cell(pm, 1, l)]) +
      Occupied(s[Cell(pm, 2, l)]) + Occupied(s[Cell(pm, 3, l)])
  {
    var a := LaneOf(s, pm, l);
    assert a[0] == s[Cell(pm, 0, l)] && a[1] == s[Cell(pm, 1, l)];
    assert a[2] == s[Cell(pm, 2, l)] && a[3] == s[Cell(pm, 3, l)];
  }

  /** The total of a board, summed lane by lane. */
  lemma TotalByLanes(s: seq<Card>, pm: PlayerMove)
    requires |s| == BoardElts && IsSwipe(pm)
    ensures Total(s) == LaneSum(LaneOf(s, pm, 0)) + LaneSum(LaneOf(s, pm, 1)) +
                        LaneSum(LaneOf(s, pm, 2)) + LaneSum(LaneOf(s, pm, 3))
  {
    LaneCells(s, pm, 0);
    LaneCells(s, pm, 1);
    LaneCells(s, pm, 2);
    LaneCells(s, pm, 3);
  }

  /** The card count of a board, summed lane by lane. */
  lemma CountByLanes(s: seq<Card>, pm: PlayerMove)
    requires |s| == BoardElts && IsSwipe(pm)
    ensures CardCount(s) == LaneOccupied(LaneOf(s, pm, 0)) + LaneOccupied(LaneOf(s, pm, 1)) +
                            LaneOccupied(LaneOf(s, pm, 2)) + LaneOccupied(LaneOf(s, pm, 3))
  {
    forall l: Coord
      ensures LaneOccupied(LaneOf(s, pm, l)) ==
        Occupied(s[Cell(pm, 0, l)]) + Occupied(s[Cell(pm, 1, l)]) +
        Occupied(s[Cell(pm, 2, l)]) + Occupied(s[Cell(pm, 3, l)])
    {
      LaneCells(s, pm, l);
    }
  }

  /** A swipe neither creates nor destroys value: the sum of all cells is kept. */
  lemma ShiftKeepsTotal(s: seq<Card>, pm: PlayerMove)
    requires |s| == BoardElts && IsSwipe(pm)
    ensures Total(Shifted(s, pm)) == Total(s)
  {
    var t := Shifted(s, pm);
    ShiftedLanes(s, pm);
    TotalByLanes(s, pm);
    TotalByLanes(t, pm);
    PassesKeepSum(LaneOf(s, pm, 0), 3);
    PassesKeepSum(LaneOf(s, pm, 1), 3);
    PassesKeepSum(LaneOf(s, pm, 2), 3);
    PassesKeepSum(LaneOf(s, pm, 3), 3);
  }

  /** A swipe never adds a card, and each merge removes exactly one. */
  lemma ShiftCardCount(s: seq<Card>, pm: PlayerMove)
    requires |s| == BoardElts && IsSwipe(pm)
    ensures CardCount(Shifted(s, pm)) + Merges(s, pm) == CardCount(s)
    ensures CardCount(Shifted(s, pm)) <= CardCount(s)
  {
    var t := Shifted(s, pm);
    ShiftedLanes(s, pm);
    CountByLanes(s, pm);
    CountByLanes(t, pm);
    PassesOccupied(LaneOf(s, pm, 0), 3);
    PassesOccupied(LaneOf(s, pm, 1), 3);
    PassesOccupied(LaneOf(s, pm, 2), 3);
    PassesOccupied(LaneOf(s, pm, 3), 3);
  }

  /** Each card moves at most one cell in the direction of the swipe. */
  lemma ShiftMovesAtMostOneCell(s: seq<Card>, pm: PlayerMove, r: Coord, l: Coord)
    requires |s| == BoardElts && IsSwipe(pm)
    ensures r < 3 ==>
      Shifted(s, pm)[Cell(pm, r, l)] as nat in
        {0, s[Cell(pm, r, l)] as nat, s[Cell(pm, r + 1, l)] as nat,
         s[Cell(pm, r, l)] as nat + s[Cell(pm, r + 1, l)]}
    ensures r == 3 ==> Shifted(s, pm)[Cell(pm, r, l)] in {NullCard, s[Cell(pm, r, l)]}
  {
    var a := LaneOf(s, pm, l);
    ShiftedAt(s, pm, r, l);
    MovesAtMostOneCell(a);
    LaneAt(s, pm, l, r);
    if r < 3 {
      LaneAt(s, pm, l, r + 1);
    }
  }

  /** After a swipe that changed the board, every lane that moved has an
      empty cell on the entry edge, so at least one entry-edge cell is free. */
  lemma ShiftFreesEntryEdge(s: seq<Card>, pm: PlayerMove)
    requires |s| == BoardElts && IsSwipe(pm)
    requires ShiftChanges(s, pm)
    ensures forall l: Coord :: LaneOf(Shifted(s, pm), pm, l) != LaneOf(s, pm, l) ==>
      Shifted(s, pm)[Cell(pm, 3, l)] == NullCard
    ensures exists l: Coord :: Shifted(s, pm)[Cell(pm, 3, l)] == NullCard
  {
    var t := Shifted(s, pm);
    forall l: Coord | LaneOf(t, pm, l) != LaneOf(s, pm, l)
      ensures t[Cell(pm, 3, l)] == NullCard
    {
      ShiftedLane(s, pm, l);
      EntryFreedAfterChange(LaneOf(s, pm, l));
      ShiftedAt(s, pm, 3, l);
    }
    EqualIffLanesEqual(t, s, pm);
    var l: Coord :| LaneOf(t, pm, l) != LaneOf(s, pm, l);
    assert t[Cell(pm, 3, l)] == NullCard;
  }

  /** The largest value on a board (`max_card`). */
  function MaxOf(s: seq<Card>): (m: Card)
    requires |s| > 0
    ensures m in s
    ensures forall i | 0 <= i < |s| :: s[i] <= m
  {
    if |s| == 1 then s[0]
    else
      var m := MaxOf(s[1..]);
      if s[0] < m then m else s[0]
  }

  /** Whether every cell is empty (`is_empty`). */
  predicate AllEmpty(s: seq<Card>)
    ensures AllEmpty(s) <==> forall i | 0 <= i < |s| :: s[i] == NullCard
  {
    |s| == 0 || (s[0] == NullCard && AllEmpty(s[1..]))
  }

  /** A board is empty exactly when its largest card is the empty card. */
  lemma EmptyIffMaxIsNull(s: seq<Card>)
    requires |s| > 0
    ensures AllEmpty(s) <==> MaxOf(s) == NullCard
  {
  }

  /** The 4x4 board and the colour of the next card. `cells` is the source's
      `board` array, `nc` its `nc` field. */
  class Board {
    const cells: array<Card>
    var nc: NextColor

    ghost predicate Valid()
      reads this
    {
      cells.Length == BoardElts
    }

    constructor (contents: seq<Card>, nc0: NextColor)
      requires |contents| == BoardElts
      ensures Valid() && fresh(cells)
      ensures cells[..] == contents && nc == nc0
    {
      cells := new Card[BoardElts](i requires 0 <= i < BoardElts reads {} => contents[i]);
      nc := nc0;
    }

    /** The copy the search makes before each trial move (`auto board2 = board`). */
    method Clone() returns (b: Board)
      requires Valid()
      ensures fresh(b) && fresh(b.cells) && b.Valid()
      ensures b.cells[..] == cells[..] && b.nc == nc
    {
      b := new Board(cells[..], nc);
    }


    /** `max_card`. */
    function MaxCard(): (m: Card)
      requires Valid()
      reads this, cells
      ensures m in cells[..]
      ensures forall i | 0 <= i < BoardElts :: cells[i] <= m
    {
      MaxOf(cells[..])
    }

    /** `is_empty`. */
    predicate IsEmpty()
      requires Valid()
      reads this, cells
      ensures IsEmpty() <==> forall i | 0 <= i < BoardElts :: cells[i] == NullCard
    {
      AllEmpty(cells[..])
    }

    /** `_shift_inner`: three passes, each walking the four lanes and sliding or
        merging the card one rank further from the destination edge onto the
        cell ahead of it. With `mutate` false it only reports, at the first
        opportunity, that some card could move. */
    method ShiftInner(pm: PlayerMove, mutate: bool) returns (changed: bool)
      requires Valid() && IsSwipe(pm)
      modifies if mutate then {cells} else {}
      ensures changed == ShiftChanges(old(cells[..]), pm)
      ensures cells[..] == if mutate then Shifted(old(cells[..]), pm) else old(cells[..])
    {
      var (beamStart, beamVector, shiftVector) := ShiftGeometry(pm);
      WalkGeometry(pm, beamVector, shiftVector, 0, 0);
      ghost var s0 := cells[..];
      changed := false;
      var i := 0;
      while i < BoardSize - 1
        invariant 0 <= i <= 3
        invariant beamStart == Spot(pm, i + 1, 0)
        invariant cells[..] == WalkBoard(s0, pm, i, 0)
        invariant changed == WalkFired(s0, pm, i, 0)
        invariant !mutate ==> cells[..] == s0 && !changed
      {
        changed := ShiftPass(pm, mutate, i, beamStart, beamVector, shiftVector, s0, changed);
        if changed && !mutate {
          WalkFiredChanges(s0, pm, i + 1, 0);
          return true;
        }
        WalkGeometry(pm, beamVector, shiftVector, i + 1, 0);
        beamStart := (beamStart.0 - shiftVector.dx, beamStart.1 - shiftVector.dy);
        i := i + 1;
      }
      assert i == 3 && cells[..] == WalkBoard(s0, pm, 3, 0);
      WalkComplete(s0, pm);
    }

    /** One pass of `_shift_inner`: the four lanes, at rank i + 1, from the
        pass's beam start. With `mutate` false it stops at the first card that
        could move, and then the swipe is known to change the board. */
    method ShiftPass(pm: PlayerMove, mutate: bool, i: nat, beamStart: (int, int),
                     beamVector: CardVector, shiftVector: CardVector,
                     ghost s0: seq<Card>, changed0: bool) returns (changed: bool)
      requires Valid() && IsSwipe(pm) && i < 3 && |s0| == BoardElts
      requires beamVector == ShiftGeometry(pm).1 && shiftVector == ShiftGeometry(pm).2
      requires beamStart == Spot(pm, i + 1, 0)
      requires cells[..] == WalkBoard(s0, pm, i, 0) && changed0 == WalkFired(s0, pm, i, 0)
      modifies if mutate then {cells} else {}
      ensures changed == WalkFired(s0, pm, i + 1, 0)
      ensures mutate || !changed ==> cells[..] == WalkBoard(s0, pm, i + 1, 0)
      ensures !mutate ==> cells[..] == old(cells[..])
    {
      changed := changed0;
      var pos := beamStart;
      var j := 0;
      while j < BoardSize
        invariant 0 <= j <= 4
        invariant pos == Spot(pm, i + 1, j)
        invariant cells[..] == WalkBoard(s0, pm, i, j)
        invariant changed == WalkFired(s0, pm, i, j)
        invariant !mutate ==> cells[..] == old(cells[..])
      {
        BeamStep(pm, beamVector, pos, i + 1, j);
        var fired := ShiftCell(pm, mutate, i, j, pos, shiftVector, s0);
        if fired {
          if !mutate {
            WalkFiredStays(s0, pm, i, j + 1);
            return true;
          }
          changed := true;
        }
        pos := (pos.0 + beamVector.dx, pos.1 + beamVector.dy);
        j := j + 1;
      }
      assert j == 4;
      assert WalkBoard(s0, pm, i + 1, 0) == WalkBoard(s0, pm, i, 4);
      assert WalkFired(s0, pm, i + 1, 0) == WalkFired(s0, pm, i, 4);
    }

    /** One step of `_shift_inner`, at lane j of pass i: whether the card at
        pos may slide or merge onto the cell one shift vector ahead and, when
        `mutate` holds, the move itself. */
    method ShiftCell(pm: PlayerMove, mutate: bool, i: nat, j: Coord, pos: (int, int),
                     shiftVector: CardVector, ghost s0: seq<Card>) returns (fired: bool)
      requires Valid() && IsSwipe(pm) && i < 3 && |s0| == BoardElts
      requires shiftVector == ShiftGeometry(pm).2 && pos == Spot(pm, i + 1, j)
      requires cells[..] == WalkBoard(s0, pm, i, j)
      modifies if mutate then {cells} else {}
      ensures fired == MovesOnto(WalkBoard(s0, pm, i, j), Cell(pm, i + 1, j), Cell(pm, i, j))
      ensures WalkFired(s0, pm, i, j + 1) == (WalkFired(s0, pm, i, j) || fired)
      ensures cells[..] == if mutate then WalkBoard(s0, pm, i, j + 1) else old(cells[..])
      ensures !fired ==> cells[..] == WalkBoard(s0, pm, i, j + 1)
    {
      WalkIndices(pm, shiftVector, pos, i, j);
      var onto := (pos.0 + shiftVector.dx, pos.1 + shiftVector.dy);
      var src := pos.0 + pos.1 * BoardSize;
      var dst := onto.0 + onto.1 * BoardSize;
      WalkNext(s0, pm, i, j, src, dst);
      fired := cells[src] != NullCard && CanCombine(cells[src], cells[dst]);
      if fired && mutate {
        CanCombineIffCombineSucceeds(cells[src], cells[dst]);
        cells[dst] := Combine(cells[src], cells[dst]).value;
        cells[src] := NullCard;
      }
    }

    /** `can_shift`: the read-only probe. */
    method CanShift(pm: PlayerMove) returns (b: bool)
      requires Valid() && IsSwipe(pm)
      ensures b == ShiftChanges(cells[..], pm)
    {
      b := ShiftInner(pm, false);
    }

    /** `shift`: fails (ok is false, nothing changes) exactly when no cell
        would change; the next colour is never touched. */
    method Shift(pm: PlayerMove) returns (ok: bool)
      requires Valid() && IsSwipe(pm)
      modifies cells
      ensures ok == ShiftChanges(old(cells[..]), pm)
      ensures cells[..] == Shifted(old(cells[..]), pm)
      ensures ok ==> cells[..] != old(cells[..])
      ensures !ok ==> cells[..] == old(cells[..])
    {
      ok := ShiftInner(pm, true);
    }

    /** `computers_move`: the opponent's card goes onto an empty cell of the
        entry edge of the swipe just made, and the next colour is replaced. */
    method ComputersMove(pm: PlayerMove, cp: CardPlacement, nc2: NextColor) returns (ok: bool)
      requires Valid() && IsSwipe(pm)
      modifies this`nc, cells
      ensures ok == (OnEntryEdge(pm, cp.position) && old(cells[Index(cp.position)]) == NullCard)
      ensures ok ==> cells[..] == old(cells[..])[Index(cp.position) := cp.card] && nc == nc2
      ensures !ok ==> cells[..] == old(cells[..]) && nc == old(nc)
    {
      var validForSwipe := match pm {
        case SwipeUp => cp.position.y == BoardSize - 1
        case SwipeDown => cp.position.y == 0
        case SwipeLeft => cp.position.x == BoardSize - 1
        case SwipeRight => cp.position.x == 0
      };
      if !validForSwipe {
        return false;
      }
      if cells[Index(cp.position)] != NullCard {
        return false;
      }
      cells[Index(cp.position)] := cp.card;
      nc := nc2;
      ok := true;
    }
  }

  /** The switch at the head of `_shift_inner`: where the first pass starts,
      how it steps from lane to lane, and the vector from a source cell to the
      cell it shifts onto. */
  function ShiftGeometry(pm: PlayerMove): ((int, int), CardVector, CardVector)
    requires IsSwipe(pm)
  {
    match pm
    case SwipeUp => ((0, 1), CardVector(1, 0), CardVector(0, -1))
    case SwipeDown => ((0, 2), CardVector(1, 0), CardVector(0, 1))
    case SwipeLeft => ((1, 0), CardVector(0, 1), CardVector(-1, 0))
    case SwipeRight => ((2, 0), CardVector(0, 1), CardVector(1, 0))
  }

  /** The walk starts at rank 1 of lane 0; the beam vector moves to the next
      lane, the shift vector one rank towards the destination edge, and
      stepping back against it moves to the next pass's rank. */
  lemma WalkGeometry(pm: PlayerMove, beam: CardVector, shift: CardVector, r: int, l: int)
    requires IsSwipe(pm) && beam == ShiftGeometry(pm).1 && shift == ShiftGeometry(pm).2
    ensures ShiftGeometry(pm).0 == Spot(pm, 1, 0)
    ensures (Spot(pm, r, l).0 + beam.dx, Spot(pm, r, l).1 + beam.dy) == Spot(pm, r, l + 1)
    ensures (Spot(pm, r, l).0 - shift.dx, Spot(pm, r, l).1 - shift.dy) == Spot(pm, r + 1, l)
  {
  }

  /** Stepping along the beam from rank r of lane l reaches rank r of lane
      l + 1. */
  lemma BeamStep(pm: PlayerMove, beam: CardVector, pos: (int, int), r: int, l: int)
    requires IsSwipe(pm) && beam == ShiftGeometry(pm).1 && pos == Spot(pm, r, l)
    ensures (pos.0 + beam.dx, pos.1 + beam.dy) == Spot(pm, r, l + 1)
  {
  }

  /** Passes lane l has had once the walk is at pass i, lane j. */
  function Done(i: nat, j: nat, l: Coord): nat
  {
    if l < j then i + 1 else i
  }

  /** The walk's progress on board c, started from s0: each lane has had the
      passes `Done` says. */
  ghost predicate WalkedTo(c: seq<Card>, s0: seq<Card>, pm: PlayerMove, i: nat, j: nat)
  {
    && |c| == BoardElts && |s0| == BoardElts && IsSwipe(pm) && WalkPoint(i, j)
    && forall l: Coord :: LaneOf(c, pm, l) == Passes(LaneOf(s0, pm, l), Done(i, j, l))
  }

  /** Whether some pass the walk has made so far slid or merged a card. */
  ghost predicate SomeLaneFired(s0: seq<Card>, pm: PlayerMove, i: nat, j: nat)
    requires |s0| == BoardElts && IsSwipe(pm) && WalkPoint(i, j)
  {
    exists l: Coord :: FiredWithin(LaneOf(s0, pm, l), Done(i, j, l))
  }

  /** Slide or merge the card in cell src onto cell dst, when `can_combine`
      allows it. */
  function MoveOnto(s: seq<Card>, src: nat, dst: nat): (t: seq<Card>)
    requires src < |s| && dst < |s|
    ensures |t| == |s|
  {
    if MovesOnto(s, src, dst)
    then s[dst := Combine(s[src], s[dst]).value][src := NullCard] else s
  }

  /** Whether the step from cell src onto cell dst slides or merges a card. */
  predicate MovesOnto(s: seq<Card>, src: nat, dst: nat)
    requires src < |s| && dst < |s|
  {
    s[src] != NullCard && CanCombine(s[src], s[dst])
  }

  /** One step of the walk on the flat board: slide or merge the card at
      rank i + 1 of lane j onto rank i. */
  function Step(s: seq<Card>, pm: PlayerMove, i: nat, j: Coord): (t: seq<Card>)
    requires |s| == BoardElts && IsSwipe(pm) && i < 3
    ensures |t| == BoardElts
  {
    MoveOnto(s, Cell(pm, i + 1, j), Cell(pm, i, j))
  }

  /** Where the walk may stand: lane j (0 to 4, 4 meaning the pass is over)
      of pass i, or the end of the walk after the third pass. */
  predicate WalkPoint(i: nat, j: nat)
  {
    (i < 3 && j <= 4) || (i == 3 && j == 0)
  }

  /** The board once the walk has reached lane j of pass i. */
  function WalkBoard(s0: seq<Card>, pm: PlayerMove, i: nat, j: nat): (t: seq<Card>)
    requires |s0| == BoardElts && IsSwipe(pm) && WalkPoint(i, j)
    ensures |t| == BoardElts
    decreases i, j
  {
    if j > 0 then Step(WalkBoard(s0, pm, i, j - 1), pm, i, j - 1)
    else if i == 0 then s0
    else WalkBoard(s0, pm, i - 1, 4)
  }

  /** Whether a step of the walk before lane j of pass i slid or merged a card. */
  predicate WalkFired(s0: seq<Card>, pm: PlayerMove, i: nat, j: nat)
    requires |s0| == BoardElts && IsSwipe(pm) && WalkPoint(i, j)
    decreases i, j
  {
    if j > 0 then
      WalkFired(s0, pm, i, j - 1) ||
      MovesOnto(WalkBoard(s0, pm, i, j - 1), Cell(pm, i + 1, j - 1), Cell(pm, i, j - 1))
    else i > 0 && WalkFired(s0, pm, i - 1, 4)
  }

  /** The walk, step by step, is the lane-by-lane shift in progress. */
  lemma {:induction false} WalkIsLanePasses(s0: seq<Card>, pm: PlayerMove, i: nat, j: nat)
    requires |s0| == BoardElts && IsSwipe(pm) && WalkPoint(i, j)
    ensures WalkedTo(WalkBoard(s0, pm, i, j), s0, pm, i, j)
    ensures WalkFired(s0, pm, i, j) <==> SomeLaneFired(s0, pm, i, j)
    decreases i, j
  {
    if j > 0 {
      WalkIsLanePasses(s0, pm, i, j - 1);
      WalkAdvances(s0, pm, i, j - 1);
    } else if i == 0 {
      WalkStarts(s0, pm);
    } else {
      WalkIsLanePasses(s0, pm, i - 1, 4);
      WalkNextPass(s0, pm, i);
    }
  }

  /** Before the first step no lane has had a pass. */
  lemma WalkStarts(s0: seq<Card>, pm: PlayerMove)
    requires |s0| == BoardElts && IsSwipe(pm)
    ensures WalkedTo(WalkBoard(s0, pm, 0, 0), s0, pm, 0, 0)
    ensures WalkFired(s0, pm, 0, 0) <==> SomeLaneFired(s0, pm, 0, 0)
  {
    forall l: Coord
      ensures LaneOf(s0, pm, l) == Passes(LaneOf(s0, pm, l), Done(0, 0, l))
    {
    }
  }

  /** The end of one pass is the start of the next. */
  lemma WalkNextPass(s0: seq<Card>, pm: PlayerMove, i: nat)
    requires |s0| == BoardElts && IsSwipe(pm) && 0 < i <= 3
    requires WalkedTo(WalkBoard(s0, pm, i - 1, 4), s0, pm, i - 1, 4)
    requires WalkFired(s0, pm, i - 1, 4) <==> SomeLaneFired(s0, pm, i - 1, 4)
    ensures WalkedTo(WalkBoard(s0, pm, i, 0), s0, pm, i, 0)
    ensures WalkFired(s0, pm, i, 0) <==> SomeLaneFired(s0, pm, i, 0)
  {
    assert forall l: Coord :: Done(i - 1, 4, l) == Done(i, 0, l);
  }

  /** Once a step of a pass has fired, the walk has fired at the end of the
      pass. */
  lemma {:induction false} WalkFiredStays(s0: seq<Card>, pm: PlayerMove, i: nat, j: nat)
    requires |s0| == BoardElts && IsSwipe(pm) && i < 3 && j <= 4
    requires WalkFired(s0, pm, i, j)
    ensures WalkFired(s0, pm, i + 1, 0)
    decreases 4 - j
  {
    if j < 4 {
      WalkFiredStays(s0, pm, i, j + 1);
    }
  }

  /** The walk's step at lane j of pass i moves cell src onto cell dst. */
  lemma WalkNext(s0: seq<Card>, pm: PlayerMove, i: nat, j: Coord, src: nat, dst: nat)
    requires |s0| == BoardElts && IsSwipe(pm) && i < 3
    requires src == Cell(pm, i + 1, j) && dst == Cell(pm, i, j)
    ensures WalkBoard(s0, pm, i, j + 1) == MoveOnto(WalkBoard(s0, pm, i, j), src, dst)
    ensures WalkFired(s0, pm, i, j + 1) ==
      (WalkFired(s0, pm, i, j) || MovesOnto(WalkBoard(s0, pm, i, j), src, dst))
  {
  }

  /** One step of the walk keeps it in line with the lane-by-lane passes. */
  lemma WalkAdvances(s0: seq<Card>, pm: PlayerMove, i: nat, j: Coord)
    requires |s0| == BoardElts && IsSwipe(pm) && i < 3
    requires WalkedTo(WalkBoard(s0, pm, i, j), s0, pm, i, j)
    requires WalkFired(s0, pm, i, j) <==> SomeLaneFired(s0, pm, i, j)
    ensures WalkedTo(WalkBoard(s0, pm, i, j + 1), s0, pm, i, j + 1)
    ensures WalkFired(s0, pm, i, j + 1) <==> SomeLaneFired(s0, pm, i, j + 1)
  {
    var before := WalkBoard(s0, pm, i, j);
    LaneAt(before, pm, j, i);
    LaneAt(before, pm, j, i + 1);
    assert Fires(LaneOf(before, pm, j), i) == MovesOnto(before, Cell(pm, i + 1, j), Cell(pm, i, j));
    WalkStep(s0, before, WalkBoard(s0, pm, i, j + 1), pm, i, j);
    WalkStepFired(s0, before, pm, i, j);
  }

  /** Once the walk has fired, the swipe changes the board. */
  lemma WalkFiredChanges(s0: seq<Card>, pm: PlayerMove, i: nat, j: nat)
    requires |s0| == BoardElts && IsSwipe(pm) && WalkPoint(i, j)
    requires WalkFired(s0, pm, i, j)
    ensures ShiftChanges(s0, pm)
  {
    WalkIsLanePasses(s0, pm, i, j);
    var l: Coord :| FiredWithin(LaneOf(s0, pm, l), Done(i, j, l));
    FiredWithinMonotone(LaneOf(s0, pm, l), Done(i, j, l), 3);
    FiredLaneChangesBoard(s0, pm, l);
  }

  /** After the three passes the board is the shifted board, and the walk
      fired iff the board changed. */
  lemma WalkComplete(s0: seq<Card>, pm: PlayerMove)
    requires |s0| == BoardElts && IsSwipe(pm)
    ensures WalkBoard(s0, pm, 3, 0) == Shifted(s0, pm)
    ensures WalkFired(s0, pm, 3, 0) <==> ShiftChanges(s0, pm)
  {
    WalkIsLanePasses(s0, pm, 3, 0);
    WalkDone(WalkBoard(s0, pm, 3, 0), s0, pm);
  }

  /** A step of the walk advances the walk by one lane. */
  lemma WalkStep(s0: seq<Card>, before: seq<Card>, after: seq<Card>, pm: PlayerMove, i: nat, j: Coord)
    requires i < 3 && WalkedTo(before, s0, pm, i, j)
    requires after == Step(before, pm, i, j)
    ensures WalkedTo(after, s0, pm, i, j + 1)
  {
    forall l: Coord
      ensures LaneOf(after, pm, l) == Passes(LaneOf(s0, pm, l), Done(i, j + 1, l))
    {
      SlideOneLane(before, after, pm, i, j, l);
      if l == j {
        assert Done(i, j + 1, l) == i + 1 && Done(i, j, l) == i;
      } else {
        assert Done(i, j + 1, l) == Done(i, j, l);
      }
    }
  }

  /** A step of the walk records whether it fired. */
  lemma WalkStepFired(s0: seq<Card>, before: seq<Card>, pm: PlayerMove, i: nat, j: Coord)
    requires i < 3 && WalkedTo(before, s0, pm, i, j)
    ensures SomeLaneFired(s0, pm, i, j + 1) <==>
      SomeLaneFired(s0, pm, i, j) || Fires(LaneOf(before, pm, j), i)
  {
    var a := LaneOf(s0, pm, j);
    assert Done(i, j + 1, j) == i + 1 && Done(i, j, j) == i;
    assert LaneOf(before, pm, j) == Passes(a, i);
    assert FiredWithin(a, i + 1) <==> FiredWithin(a, i) || Fires(LaneOf(before, pm, j), i);
    forall l: Coord | l != j
      ensures Done(i, j + 1, l) == Done(i, j, l)
    {
    }
  }

  /** The cells the walk reads at pass i, lane j are the source at rank
      i + 1 and the cell ahead of it at rank i. */
  lemma WalkIndices(pm: PlayerMove, shift: CardVector, pos: (int, int), i: nat, j: Coord)
    requires IsSwipe(pm) && shift == ShiftGeometry(pm).2
    requires i < 3 && pos == Spot(pm, i + 1, j)
    ensures pos.0 + pos.1 * BoardSize == Cell(pm, i + 1, j)
    ensures (pos.0 + shift.dx) + (pos.1 + shift.dy) * BoardSize == Cell(pm, i, j)
  {
  }

  /** After the three passes the board is the shifted board, and the walk
      fired iff the board changed. */
  lemma WalkDone(c: seq<Card>, s0: seq<Card>, pm: PlayerMove)
    requires WalkedTo(c, s0, pm, 3, 0)
    ensures c == Shifted(s0, pm)
    ensures SomeLaneFired(s0, pm, 3, 0) <==> ShiftChanges(s0, pm)
  {
    ShiftedLanes(s0, pm);
    EqualIffLanesEqual(c, Shifted(s0, pm), pm);
    ShiftChangesIffFired(s0, pm);
  }

  /** One cell after the walk's step: rank r of lane l is what one slide of
      lane j gives there, and lanes other than j are untouched. */
  lemma SlideOneCell(s: seq<Card>, t: seq<Card>, pm: PlayerMove, i: nat, j: Coord, r: Coord, l: Coord)
    requires |s| == BoardElts && IsSwipe(pm) && i < 3
    requires t == Step(s, pm, i, j)
    ensures |t| == BoardElts
    ensures t[Cell(pm, r, l)] == (if l == j then Slide(LaneOf(s, pm, l), i) else LaneOf(s, pm, l))[r]
  {
    CellInjective(pm, r, l, i + 1, j);
    CellInjective(pm, r, l, i, j);
    LaneAt(s, pm, l, r);
    LaneAt(s, pm, j, i);
    LaneAt(s, pm, j, i + 1);
    CanCombineIffCombineSucceeds(s[Cell(pm, i + 1, j)], s[Cell(pm, i, j)]);
  }

  /** One step of the walk: the source cell at rank i + 1 of lane j moves onto
      rank i, which is one slide on that lane and leaves the others alone. */
  lemma SlideOneLane(s: seq<Card>, t: seq<Card>, pm: PlayerMove, i: nat, j: Coord, l: Coord)
    requires |s| == BoardElts && IsSwipe(pm) && i < 3
    requires t == Step(s, pm, i, j)
    ensures |t| == BoardElts
    ensures LaneOf(t, pm, l) == if l == j then Slide(LaneOf(s, pm, l), i) else LaneOf(s, pm, l)
  {
    SlideOneCell(s, t, pm, i, j, 0, l);
    SlideOneCell(s, t, pm, i, j, 1, l);
    SlideOneCell(s, t, pm, i, j, 2, l);
    SlideOneCell(s, t, pm, i, j, 3, l);
  }
}
