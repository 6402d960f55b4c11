/** The friction heuristic behind the board evaluator: how far apart two
    neighbouring cards are on the merge ladder, summed over the board. */
module Friction {
  import opened Cards
  import opened Boards

  /** `card_friction`: the pair is put in order first. An empty cell causes no
      friction, two 1s or two 2s cost 2, a 1 next to a 2 costs nothing, and
      otherwise a 1 or a 2 is treated as a 3 with one extra step, and the
      friction is the number of doublings between the two cards. */
  function CardFriction(a0: Card, b0: Card): (f: nat)
  {
    var a, b := if b0 < a0 then b0 else a0, if b0 < a0 then a0 else b0;
    if a == 0 then 0
    else if a == 1 && b == 1 then 2
    else if a == 1 && b == 2 then 0
    else if a == 2 && b == 2 then 2
    else
      var lo := if a <= 2 then 3 else a;
      var add := if a <= 2 then 1 else 0;
      Log2Monotone(lo / 3, b / 3);
      add + Log2(b / 3) - Log2(lo / 3)
  }

  lemma {:induction false} Log2Monotone(x: nat, y: nat)
    requires x <= y
    ensures Log2(x) <= Log2(y)
  {
    if x > 1 {
      Log2Monotone(x / 2, y / 2);
    }
  }

  /** Friction does not depend on the order of the pair. */
  lemma FrictionSymmetric(a: Card, b: Card)
    ensures CardFriction(a, b) == CardFriction(b, a)
  {
  }

  /** An empty cell never causes friction. */
  lemma FrictionOfEmpty(a: Card)
    ensures CardFriction(a, NullCard) == 0 && CardFriction(NullCard, a) == 0
  {
  }

  /** Friction between two cards of the 3 family is their distance on the
      doubling ladder. */
  lemma FrictionLadder(m: nat, n: nat)
    requires IsValidCardValue(3 * Pow2(m)) && IsValidCardValue(3 * Pow2(n))
    ensures CardFriction(3 * Pow2(m), 3 * Pow2(n)) == if m <= n then n - m else m - n
  {
    assert 3 * Pow2(m) / 3 == Pow2(m) && 3 * Pow2(n) / 3 == Pow2(n);
    Log2OfPow2(m);
    Log2OfPow2(n);
    Pow2Monotone(m, n);
    Pow2Monotone(n, m);
  }

  lemma {:induction false} Pow2Monotone(m: nat, n: nat)
    ensures m <= n <==> Pow2(m) <= Pow2(n)
  {
    if m > 0 && n > 0 {
      Pow2Monotone(m - 1, n - 1);
    } else if m > 0 {
      assert Pow2(m) == 2 * Pow2(m - 1);
    } else if n > 0 {
      assert Pow2(n) == 2 * Pow2(n - 1);
    }
  }

  /** A 1 or a 2 next to 3 * 2^n counts as a 3, plus one step. */
  lemma FrictionOfSmallCard(c: Card, n: nat)
    requires c == 1 || c == 2
    requires IsValidCardValue(3 * Pow2(n))
    ensures CardFriction(c, 3 * Pow2(n)) == n + 1
  {
    assert 3 * Pow2(n) / 3 == Pow2(n);
    Log2OfPow2(n);
    assert Log2(3 / 3) == 0;
  }

  /** Friction is zero exactly for a pair with an empty cell, a 1 next to a 2,
      or two equal cards of the 3 family: the pairs that can merge or do not
      interact. */
  lemma FrictionZeroIff(a: Card, b: Card)
    ensures CardFriction(a, b) == 0 <==>
      a == NullCard || b == NullCard || (a == 1 && b == 2) || (a == 2 && b == 1) ||
      (a == b && a >= 3)
  {
    if a != NullCard && b != NullCard && !(a <= 2 && b <= 2) {
      assert IsValidCardValue(a) && IsValidCardValue(b);
      if a >= 3 && b >= 3 {
        Valid3Iff(a);
        Valid3Iff(b);
        var m: nat :| a == 3 * Pow2(m);
        var n: nat :| b == 3 * Pow2(n);
        FrictionLadder(m, n);
      } else if a >= 3 {
        Valid3Iff(a);
        var m: nat :| a == 3 * Pow2(m);
        FrictionOfSmallCard(b, m);
        FrictionSymmetric(a, b);
      } else {
        Valid3Iff(b);
        var n: nat :| b == 3 * Pow2(n);
        FrictionOfSmallCard(a, n);
      }
    }
  }

  lemma FrictionExamples()
    ensures CardFriction(1, 1) == 2 && CardFriction(2, 2) == 2
    ensures CardFriction(1, 2) == 0 && CardFriction(2, 1) == 0
    ensures CardFriction(3, 3) == 0 && CardFriction(3, 6) == 1 && CardFriction(12, 3) == 2
    ensures CardFriction(1, 3) == 1 && CardFriction(6, 2) == 2
  {
    RejectedCardValues();
    assert Log2(2) == 1 && Log2(4) == 2;
  }

  /** A pair of neighbouring cells. */
  type Pair = (CardPosition, CardPosition)

  predicate Adjacent(p: CardPosition, q: CardPosition)
  {
    (p.y == q.y && (p.x + 1 == q.x || q.x + 1 == p.x)) ||
    (p.x == q.x && (p.y + 1 == q.y || q.y + 1 == p.y))
  }

  /** The horizontal pairs, as the first double loop visits them: x outer
      from 0 to 2, y inner from 0 to 3. */
  function HorizontalPairs(): (ps: seq<Pair>)
    ensures |ps| == 12
  {
    seq(12, k requires 0 <= k < 12 => (CardPosition(k / 4, k % 4), CardPosition(k / 4 + 1, k % 4)))
  }

  /** The vertical pairs, as the second double loop visits them: x outer
      from 0 to 3, y inner from 0 to 2. */
  function VerticalPairs(): (ps: seq<Pair>)
    ensures |ps| == 12
  {
    seq(12, k requires 0 <= k < 12 => (CardPosition(k / 3, k % 3), CardPosition(k / 3, k % 3 + 1)))
  }

  lemma HorizontalPairAt(x: nat, y: nat)
    requires x < 3 && y < 4
    ensures HorizontalPairs()[4 * x + y] == (CardPosition(x, y), CardPosition(x + 1, y))
  {
    assert (4 * x + y) / 4 == x && (4 * x + y) % 4 == y;
  }

  lemma VerticalPairAt(x: nat, y: nat)
    requires x < 4 && y < 3
    ensures VerticalPairs()[3 * x + y] == (CardPosition(x, y), CardPosition(x, y + 1))
  {
    assert (3 * x + y) / 3 == x && (3 * x + y) % 3 == y;
  }

  /** The pairs the board friction sums over are 24 pairs of neighbours, and
      every pair of neighbours, taken from left to right or from top to
      bottom, is among them. */
  lemma PairsAreTheNeighbours()
    ensures |HorizontalPairs() + VerticalPairs()| == 24
    ensures forall k | 0 <= k < 24 ::
      Adjacent((HorizontalPairs() + VerticalPairs())[k].0, (HorizontalPairs() + VerticalPairs())[k].1)
    ensures forall p: CardPosition, q: CardPosition ::
      Adjacent(p, q) && (p.x < q.x || p.y < q.y) ==> (p, q) in HorizontalPairs() + VerticalPairs()
  {
    var ps := HorizontalPairs() + VerticalPairs();
    forall p: CardPosition, q: CardPosition | Adjacent(p, q) && (p.x < q.x || p.y < q.y)
      ensures (p, q) in ps
    {
      if p.y == q.y {
        HorizontalPairAt(p.x, p.y);
        assert ps[4 * p.x + p.y] == (p, q);
      } else {
        VerticalPairAt(p.x, p.y);
        assert ps[12 + 3 * p.x + p.y] == (p, q);
      }
    }
  }

  function PairFriction(s: seq<Card>, pair: Pair): nat
    requires |s| == BoardElts
  {
    CardFriction(s[Index(pair.0)], s[Index(pair.1)])
  }

  /** The friction of a list of pairs, summed from the first. */
  function FrictionSum(s: seq<Card>, ps: seq<Pair>): nat
    requires |s| == BoardElts
  {
    if |ps| == 0 then 0 else FrictionSum(s, ps[..|ps| - 1]) + PairFriction(s, ps[|ps| - 1])
  }

  /** `compute_board_friction` as a value: all horizontal, then all vertical
      neighbour frictions. */
  function BoardFriction(s: seq<Card>): nat
    requires |s| == BoardElts
  {
    FrictionSum(s, HorizontalPairs()) + FrictionSum(s, VerticalPairs())
  }

  lemma FrictionSumStep(s: seq<Card>, ps: seq<Pair>, k: nat)
    requires |s| == BoardElts && k < |ps|
    ensures FrictionSum(s, ps[..k + 1]) == FrictionSum(s, ps[..k]) + PairFriction(s, ps[k])
  {
    assert ps[..k + 1][..k] == ps[..k];
  }

  lemma HorizontalStep(s: seq<Card>, x: nat, y: nat)
    requires |s| == BoardElts && x < 3 && y < 4
    ensures FrictionSum(s, HorizontalPairs()[..4 * x + y + 1]) ==
      FrictionSum(s, HorizontalPairs()[..4 * x + y]) +
      CardFriction(s[Index(CardPosition(x, y))], s[Index(CardPosition(x + 1, y))])
  {
    HorizontalPairAt(x, y);
    FrictionSumStep(s, HorizontalPairs(), 4 * x + y);
  }

  lemma VerticalStep(s: seq<Card>, x: nat, y: nat)
    requires |s| == BoardElts && x < 4 && y < 3
    ensures FrictionSum(s, VerticalPairs()[..3 * x + y + 1]) ==
      FrictionSum(s, VerticalPairs()[..3 * x + y]) +
      CardFriction(s[Index(CardPosition(x, y))], s[Index(CardPosition(x, y + 1))])
  {
    VerticalPairAt(x, y);
    FrictionSumStep(s, VerticalPairs(), 3 * x + y);
  }

  /** `compute_board_friction`: the two double loops of the source. */
  method ComputeBoardFriction(board: Board) returns (f: nat)
    requires board.Valid()
    ensures f == BoardFriction(board.cells[..])
  {
    ghost var s := board.cells[..];
    f := 0;
    var x := 0;
    while x < BoardSize - 1
      invariant 0 <= x <= 3
      invariant f == FrictionSum(s, HorizontalPairs()[..4 * x])
    {
      var y := 0;
      while y < BoardSize
        invariant 0 <= y <= 4
        invariant f == FrictionSum(s, HorizontalPairs()[..4 * x + y])
      {
        HorizontalStep(s, x, y);
        f := f + CardFriction(board.cells[Index(CardPosition(x, y))], board.cells[Index(CardPosition(x + 1, y))]);
        y := y + 1;
      }
      assert 4 * x + y == 4 * (x + 1);
      x := x + 1;
    }
    assert x == 3 && HorizontalPairs()[..12] == HorizontalPairs();
    ghost var horizontal := f;
    assert horizontal == FrictionSum(s, HorizontalPairs());
    x := 0;
    while x < BoardSize
      invariant 0 <= x <= 4
      invariant f == horizontal + FrictionSum(s, VerticalPairs()[..3 * x])
    {
      var y := 0;
      while y < BoardSize - 1
        invariant 0 <= y <= 3
        invariant f == horizontal + FrictionSum(s, VerticalPairs()[..3 * x + y])
      {
        VerticalStep(s, x, y);
        f := f + CardFriction(board.cells[Index(CardPosition(x, y))], board.cells[Index(CardPosition(x, y + 1))]);
        y := y + 1;
      }
      assert 3 * x + y == 3 * (x + 1);
      x := x + 1;
    }
    assert x == 4 && VerticalPairs()[..12] == VerticalPairs();
    assert f == horizontal + FrictionSum(s, VerticalPairs());
  }

  /** Whether the board holds at most one card. */
  predicate AtMostOneCard(s: seq<Card>)
  {
    forall i, j | 0 <= i < |s| && 0 <= j < |s| && s[i] != NullCard && s[j] != NullCard :: i == j
  }

  lemma {:induction false} SparseFrictionSum(s: seq<Card>, ps: seq<Pair>)
    requires |s| == BoardElts && AtMostOneCard(s)
    requires forall k | 0 <= k < |ps| :: Index(ps[k].0) != Index(ps[k].1)
    ensures FrictionSum(s, ps) == 0
  {
    if |ps| > 0 {
      var last := ps[|ps| - 1];
      SparseFrictionSum(s, ps[..|ps| - 1]);
      FrictionSymmetric(s[Index(last.0)], s[Index(last.1)]);
    }
  }

  /** A board with no card, or a single card, has no friction at all (the
      case where the evaluator divides by zero). */
  lemma FrictionOfSparseBoard(s: seq<Card>)
    requires |s| == BoardElts && AtMostOneCard(s)
    ensures BoardFriction(s) == 0
  {
    forall k | 0 <= k < 12
      ensures Index(HorizontalPairs()[k].0) != Index(HorizontalPairs()[k].1)
      ensures Index(VerticalPairs()[k].0) != Index(VerticalPairs()[k].1)
    {
    }
    SparseFrictionSum(s, HorizontalPairs());
    SparseFrictionSum(s, VerticalPairs());
  }
}
