# Threes solver decision engine in Dafny

This project models the decision engine of `threes-solver.cc`, a solver for
the tile-merging puzzle "Threes". The puzzle is played on a 4x4 board of
cards, and the model covers it piece by piece:

- **Cards** (module `Cards`). A card is 1, 2 or 3·2ⁿ; value 0 stands for an
  empty cell. `combine` adds two cards, except that two 1s may not combine,
  and the sum must itself be a card.
- **Swipes** (modules `Lanes` and `Boards`). A swipe moves every card that
  can move one cell towards the destination edge, merging where
  `can_combine` allows. It runs as three passes over the board, each a beam
  of four cells. The `Board` class keeps the cells in an array, and its
  `ShiftInner` walks them exactly as `_shift_inner` does.
- **Game end and the opponent** (modules `Boards` and `Search`).
  - `Search.GameIsOver` is the game-over test.
  - `Boards.Board.ComputersMove` is the opponent placing a card on the entry
    edge, on an empty cell.
  - `Search.PossiblePlacements` lists every card the opponent may place
    there, according to the advertised next colour.
- **Board friction** (module `Friction`). This is how far apart in the card
  ladder two neighbouring cards are, summed over the 24 neighbouring pairs
  of the board.
- **Search** (module `Search`). `InnerAlphaBeta` is a depth-limited
  alpha-beta search over the player's swipes and the opponent's placements
  and colours, and `RunMinimax` calls it at depth 4.
- **Names** (module `Names`). These are the names of colours and swipes, and
  their parsers.

The structure of the proofs:

- Each swipe is specified by `Boards.Shifted`. That is a function of the
  cells which applies the lane function `Lanes.ShiftLane` to each of the
  four lanes.
- The array-walking methods are proved equal to `Shifted`, and every other
  fact about a swipe is proved about `Shifted`. Those facts are:
  - the sum of the cards is conserved;
  - a merge removes exactly one card;
  - a card moves at most one cell;
  - a swipe that changes the board frees a cell on the entry edge.
- The search is proved to keep the following guarantees:
  - it reports a move exactly when the game is not over and the depth is
    positive;
  - a reported move is a swipe that changes the board;
  - when the game is over the score is the lowest one and death is
    guaranteed;
  - at depth 0 the result is the evaluation of the board.

The source's `board_evaluator` is a floating-point division. In this model
the evaluator is a parameter: an arbitrary function from the cells and the
next colour to an integer. The scores `std::numeric_limits<double>::lowest()`
and `max()` become the two sentinels `Lowest` and `Highest` of the `Score`
datatype.

## Model

| member | source | states |
|---|---|---|
| Cards.PowerOfTwoIff | threes-solver.cc:26-30 | `IsPowerOfTwo(a)` (the model of `is_power_of_two`) holds exactly when a is 2^n for some n; 0 is not a power of two |
| Cards.Log2 | threes-solver.cc:32-40 | the result r is the floor of the base-2 logarithm: 2^r <= a < 2^(r+1) for a >= 1, and 0 for a <= 1 |
| Cards.LogBase2 | threes-solver.cc:32-40 | the shift-and-count loop returns exactly `Log2(a)` |
| Cards.Valid3Iff | threes-solver.cc:48-52 | `IsValid3CardValue` (the 3 family) is exactly the numbers 3·2^n |
| Cards.ValidCardValueIff | threes-solver.cc:54-58 | `IsValidCardValue(v)` (v is a card) holds exactly when v is 1, 2 or 3·2^n |
| Cards.RejectedCardValues | threes-solver.cc:48-58 | 0, 4, 5, 7, 9 and 10 are not cards; 3, 6 and 12 are |
| Cards.MakeCard | threes-solver.cc:60-62 | the constructor succeeds exactly on card values, keeping the value, and otherwise fails with the bad-card-value error |
| Cards.Combine | threes-solver.cc:71-75 | two 1s fail with the can't-combine error; otherwise the result is the sum, it succeeds exactly when the sum is a card, and an invalid sum fails with the bad-card-value error |
| Cards.CanCombineIffCombineSucceeds | threes-solver.cc:88-92 | `CanCombine` (`can_combine`) holds exactly when `combine` succeeds, and the combined card is then the sum |
| Cards.SlideIntoEmpty | threes-solver.cc:88-94 | any card may move onto `nullcard`, and it keeps its value |
| Cards.MergeRule | threes-solver.cc:88-92 | `CanCombine(a, b)` on two cards holds exactly when they are a 1 and a 2, or two equal cards of at least 3 |
| Cards.CombineExamples | threes-solver.cc:71-92 | 1+1 is refused, 1+2 and 2+1 combine, 2+2 does not |
| Cards.NextOfThreeFamily | threes-solver.cc:547 | `card.combine(card)` on a 3-family card gives the next card of the family, with no card of the family in between |
| Lanes.Slide | threes-solver.cc:256-262 | one step of the beam changes only the two cells it looks at, and the lane stays made of cards |
| Lanes.LaneChangedIffFired | threes-solver.cc:250-270 | the passes change a lane exactly when some step found a card that could combine with the cell ahead of it |
| Lanes.PassesKeepSum | threes-solver.cc:250-270 | the passes of a swipe keep the sum of the card values in a lane |
| Lanes.PassesOccupied | threes-solver.cc:250-270 | the number of cards in a lane drops by exactly the number of merges |
| Lanes.MovesAtMostOneCell | threes-solver.cc:250-270 | after the swipe every cell holds nothing, its own card, the card behind it, or the sum of the two |
| Lanes.EntryFreedAfterChange | threes-solver.cc:250-270 | a lane that the swipe changes ends with its entry-edge cell empty |
| Boards.Index | threes-solver.cc:196-200 | a position maps to a cell index below 16 |
| Boards.PositionAt | threes-solver.cc:196-200 | every index below 16 is the cell of exactly one position (x + 4y) |
| Boards.CellInjective | threes-solver.cc:222-248 | different (rank, lane) coordinates of a swipe name different cells |
| Boards.RankLaneRoundTrip | threes-solver.cc:222-248 | the rank and lane of a position under a swipe give the position back, and conversely |
| Boards.EntryEdgeIsLastRank | threes-solver.cc:305-326 | the edge where the opponent may place a card is exactly the last rank of the swipe |
| Boards.WalkGeometry | threes-solver.cc:222-248 | `ShiftGeometry`, that is, each swipe's beam start, beam vector and shift vector walk the cells in rank and lane order |
| Boards.ShiftedLanes | threes-solver.cc:250-270 | every lane of the shifted board is the shifted lane of the original board |
| Boards.ShiftChangesIffFired | threes-solver.cc:250-270 | a swipe changes the board exactly when some lane has a card that can move |
| Boards.WalkComplete | threes-solver.cc:250-270 | walking the three beams cell by cell gives exactly the shifted board, and fires exactly when the board changes |
| Boards.ShiftKeepsTotal | threes-solver.cc:250-270 | a swipe keeps the sum of all card values on the board |
| Boards.ShiftCardCount | threes-solver.cc:250-270 | a swipe removes one card per merge and never adds cards |
| Boards.ShiftMovesAtMostOneCell | threes-solver.cc:250-270 | each cell after a swipe holds nothing, its own card, the next card up the lane, or their sum |
| Boards.ShiftFreesEntryEdge | threes-solver.cc:250-270 | every lane the swipe changes has an empty entry-edge cell afterwards, so a swipe that moves frees at least one entry cell |
| Boards.MaxOf | threes-solver.cc:335-341 | the maximum is one of the cells and no cell exceeds it |
| Boards.EmptyIffMaxIsNull | threes-solver.cc:335-375 | the board is empty exactly when its maximum card is `nullcard` |
| Boards.Board.Clone | threes-solver.cc:586-597 | copying a board gives a fresh board with the same cells and next colour |
| Boards.Board.MaxCard | threes-solver.cc:335-341 | `max_card` returns a card on the board that no cell exceeds |
| Boards.Board.IsEmpty | threes-solver.cc:369-375 | `is_empty` holds exactly when every cell is `nullcard` |
| Boards.Board.ShiftInner | threes-solver.cc:212-271 | the result says whether the swipe changes the board; when mutating, the cells become the shifted board, otherwise they stay as they were |
| Boards.Board.ShiftPass | threes-solver.cc:251-268 | one beam of the walk advances the cells and the fired flag by one pass, and a non-mutating walk stops at the first fire without changing the cells |
| Boards.Board.ShiftCell | threes-solver.cc:253-266 | one cell step of the walk performs that cell's merge or slide, when mutating, and reports whether it fired: whether that cell's card is non-empty and can combine with the card ahead |
| Boards.Board.CanShift | threes-solver.cc:294-297 | `can_shift` holds exactly when the swipe would change the board, and changes nothing |
| Boards.Board.Shift | threes-solver.cc:299-303 | the cells become the shifted board; failure (the can't-shift error) exactly when nothing moves, leaving the board unchanged |
| Boards.Board.ComputersMove | threes-solver.cc:305-333 | the placement succeeds exactly on an empty entry-edge cell, and then writes the card and the new next colour; otherwise nothing changes |
| Friction.FrictionSymmetric | threes-solver.cc:425-430 | `CardFriction` (`card_friction`) does not depend on the order of the two cards |
| Friction.FrictionOfEmpty | threes-solver.cc:432 | `CardFriction` is 0 when either cell is empty, whatever the other holds |
| Friction.FrictionLadder | threes-solver.cc:459-462 | `CardFriction` between 3·2^m and 3·2^n is the distance abs(m - n) |
| Friction.FrictionOfSmallCard | threes-solver.cc:434-457 | `CardFriction` of a 1 or a 2 next to 3·2^n is n + 1 |
| Friction.FrictionZeroIff | threes-solver.cc:419-463 | `CardFriction(a, b)` is 0 exactly when one is empty or they could merge |
| Friction.FrictionExamples | threes-solver.cc:419-463 | `CardFriction` of sample pairs: 1-1 and 2-2 give 2, 1-2 gives 0, 3-6 gives 1, 12-3 gives 2, 1-3 gives 1, 6-2 gives 2 |
| Friction.HorizontalPairs | threes-solver.cc:471-475 | the horizontal loop visits 12 pairs |
| Friction.VerticalPairs | threes-solver.cc:478-482 | the vertical loop visits 12 pairs |
| Friction.PairsAreTheNeighbours | threes-solver.cc:470-482 | the two loops visit 24 pairs, each of two adjacent cells, and every adjacent pair is among them |
| Friction.ComputeBoardFriction | threes-solver.cc:465-485 | the nested loops return the sum of the friction over all neighbouring pairs |
| Friction.FrictionOfSparseBoard | threes-solver.cc:465-485 | a board with at most one card has no friction |
| Search.GameIsOver | threes-solver.cc:493-505 | `game_is_over` holds exactly when none of the four swipes changes the board |
| Search.MovableIsNotOver | threes-solver.cc:493-505 | a board on which some swipe moves a card is not over |
| Search.NoMoveIsOver | threes-solver.cc:493-505 | when none of the four swipes moves a card, the game is over |
| Search.EdgeWalk | threes-solver.cc:515-539 | `EdgeGeometry`, that is, the start position and step vector of each swipe walk along its entry edge |
| Search.EdgeCell | threes-solver.cc:515-539 | the cell in lane l of the last rank is on the entry edge, in lane l |
| Search.PossiblePlacements | threes-solver.cc:507-557 | the list contains exactly the cards of the advertised colour on the empty entry-edge cells |
| Search.OffersAt | threes-solver.cc:542-553 | at one cell, blue offers 1, red offers 2, and white offers 3 and every 3-family card from 6 up to but excluding the board's maximum |
| Search.WildcardsBelowMax | threes-solver.cc:547 | when the doubling loop stops, every 3-family card from 6 below the stopping value is below the maximum |
| Search.SomePlacement | threes-solver.cc:611-612 | after a swipe that moves, the opponent always has a placement, which is the claim behind `assert(computer_moved)` |
| Search.ScoreOrder | threes-solver.cc:603-620 | the score order is a strict total order with the sentinels at its ends, and `<=` is "equal or less" |
| Search.InnerAlphaBeta | threes-solver.cc:565-629 | at depth 0 the result is the evaluation (or lowest and death when over); otherwise a move is reported exactly when the game is not over, it is a swipe that changes the board, the score never exceeds beta, and a finished game gives lowest with death guaranteed |
| Search.PlayerMoves | threes-solver.cc:584-612 | a swipe that moves leads to a bound on the opponent's best reply that does not exceed beta |
| Search.ComputerReplies | threes-solver.cc:589-609 | the opponent's loop over placements and colours returns a bound that never exceeds the beta it was given |
| Search.RunMinimax | threes-solver.cc:631-644 | a move is returned exactly when the game is not over, and it is a swipe that changes the board |
| Names.ColorName | threes-solver.cc:169-177 | every colour has a non-empty name |
| Names.ParseColor | threes-solver.cc:160-167 | an accepted string is exactly a colour's name; anything else is the invalid-colour error |
| Names.ParseColorIff | threes-solver.cc:160-177 | parsing succeeds exactly on the three names and inverts `ColorName` |
| Names.Lower | threes-solver.cc:137-142 | lowering keeps the length and lowers each character |
| Names.StripLeading | threes-solver.cc:144-151 | the result is a suffix that does not start with white space, and only white space was removed |
| Names.StripTrailing | threes-solver.cc:153-157 | the result is a prefix that does not end with white space, and only white space was removed |
| Names.StripPadded | threes-solver.cc:144-158 | `Strip` (`strip_string`), removing white space from around a word that neither starts nor ends with white space gives the word |
| Names.ParseColorNormalized | threes-solver.cc:160-162 | the corrected parser accepts a string only when its lowered, stripped form is a colour's name |
| Names.NormalizedAcceptsVariants | threes-solver.cc:160-162 | the corrected parser accepts every colour name in any mixture of cases and with any white-space padding |
| Names.ParseColorIgnoresNormalization | threes-solver.cc:160-167 | as written, every padded or differently cased spelling of a name is refused, though its normalised form names the colour |
| Names.ParseColorRefusesPadded | threes-solver.cc:160-167 | " blue" is refused as written and accepted by the corrected parser |
| Names.MoveName | threes-solver.cc:396-408 | every move has a non-empty name |
| Names.ParseMove | threes-solver.cc:746-754 | an accepted string is the name of one of the four swipes; anything else is the bad-move error |
| Names.MoveRoundTrip | threes-solver.cc:746-754 | parsing inverts `to_string` on the four swipes and refuses the name "UNKNOWN" |

## Left out

- Text input and output is not modelled:
  - `read_board_from_human_input`, `print_board`, `_int_print_width`;
  - the `operator<<` printers and the console game driver;
  - the message printed when death is guaranteed.

  `RunMinimax` returns the move and drops the death flag.
- The browser worker build and its JavaScript front end are not modelled:
  the EMSCRIPTEN block, `make_computers_move` and the other exported entry
  points. `player_move_from_string`, which that block contains, is modelled
  as `ParseMove`.
- The scripted game driver, `run_game` and `main` are not modelled.
- `board_evaluator` is not modelled. It divides the maximum card by the
  friction in floating point, which is infinite when the friction is 0. The
  search takes an arbitrary integer-valued evaluator in its place, and the
  friction it would use is modelled exactly (`ComputeBoardFriction`).
- `card_friction` returns a `double` but only ever takes whole values.
  These are modelled as naturals.
- The numeric limits used as scores are replaced by the sentinels `Lowest`
  and `Highest`.
- Unsigned overflow of card values and `size_t` wrap-around of position
  arithmetic are not modelled; integers are unbounded. The walk of
  `_shift_inner` does step off the board:
  - after the last lane of each pass, the beam position is one step past
    the board (x or y = 4);
  - after the last pass, the beam start moves past the board; for a down or
    right swipe it goes below 0, where the source's `size_t` wraps around.

  Neither position is ever read. `Boards.Board.ShiftPass` and
  `Boards.Board.ShiftCell` read and write only cells at ranks and lanes 0
  to 3, which are on the board.
- Search.InnerAlphaBeta, Search.PlayerMoves and Search.ComputerReplies: the
  model does not prove that the pruned search returns the same move or
  score as a full minimax. The bound that `PlayerMoves` and
  `ComputerReplies` return is only shown never to exceed beta. It is not
  tied to the minimax value of the opponent's replies.
  - The contract states only the guarantees listed in the table.
  - The death flag is kept as the code computes it. Under pruning it
    reflects only the children actually explored.
- The `Board` constructor that builds a board from a list of placements is
  not modelled. This includes its bad-position and same-card-twice errors.
  The model builds a board from a full sequence of 16 cells and a next
  colour.
- Cards.IsPowerOfTwo: the bit test `a && !(a & (a - 1))` is replaced by a
  definition by halving. It describes the same set of numbers.
- Names.StripLeading and Names.StripTrailing:
  - They are total.
  - The source reads outside the string when it is empty or consists only
    of white space.
- Names.ParseColor: the discarded `strip_string(lower_string(str))` call is
  not modelled, so neither is its out-of-bounds read on an empty or
  all-white-space string; the model refuses such a string with the
  invalid-colour error.
- Names.LowerChar and Names.IsSpace follow the C locale.

## Findings

| source | as written | input that shows it | evidently intended | confidence | as-written member | corrected member |
|---|---|---|---|---|---|---|
| threes-solver.cc:160-167 | `human_string_to_next_color` computes the lowered, stripped string and then compares the raw input with "blue", "red" and "white", so only the exact lower-case names are accepted | " blue" (also "Blue", "RED\n") | compare the lowered, stripped string, so that any mixture of cases and surrounding white space is accepted | not executed | Names.ParseColorIgnoresNormalization | Names.ParseColorNormalized |

The as-written behaviour is modelled by `Names.ParseColor`. The concrete
instance is `Names.ParseColorRefusesPadded`. `Names.NormalizedAcceptsVariants`
proves the intended property of the corrected parser.
