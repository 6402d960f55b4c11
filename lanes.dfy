/** One lane of a swipe, seen from the destination edge.

    A lane is the four cells of one row (for a left or right swipe) or one
    column (for an up or down swipe), listed by rank: rank 0 is the cell on the
    destination edge, rank 3 the cell on the entry edge, where the opponent
    places its next card. Pass p of the shift (p = 0, 1, 2) moves the card at
    rank p + 1 onto rank p when `can_combine` allows it. */
module Lanes {
  import opened Cards

  predicate IsLane(a: seq<Card>)
  {
    |a| == 4
  }

  /** Whether pass p slides or merges the card at rank p + 1 onto rank p. */
  predicate Fires(a: seq<Card>, p: nat)
    requires IsLane(a) && p < 3
  {
    a[p + 1] != NullCard && CanCombine(a[p + 1], a[p])
  }

  /** Pass p of the shift on one lane: the ahead cell receives the combined
      card and the source cell is erased. */
  function Slide(a: seq<Card>, p: nat): (r: seq<Card>)
    requires IsLane(a) && p < 3
    ensures IsLane(r)
    ensures forall k | 0 <= k < 4 && k != p && k != p + 1 :: r[k] == a[k]
  {
    if Fires(a, p) then a[p := a[p + 1] + a[p]][p + 1 := NullCard] else a
  }

  /** The lane after the first n passes. */
  function Passes(a: seq<Card>, n: nat): (r: seq<Card>)
    requires IsLane(a) && n <= 3
    ensures IsLane(r)
  {
    if n == 0 then a else Slide(Passes(a, n - 1), n - 1)
  }

  /** The lane after a whole swipe. */
  function ShiftLane(a: seq<Card>): (r: seq<Card>)
    requires IsLane(a)
    ensures IsLane(r)
  {
    Passes(a, 3)
  }

  /** Whether any of the first n passes slid or merged a card. */
  predicate FiredWithin(a: seq<Card>, n: nat)
    requires IsLane(a) && n <= 3
  {
    n > 0 && (FiredWithin(a, n - 1) || Fires(Passes(a, n - 1), n - 1))
  }

  /** Number of passes among the first n that merged two cards (rather than
      sliding a card into an empty cell). */
  function MergesWithin(a: seq<Card>, n: nat): (r: nat)
    requires IsLane(a) && n <= 3
    ensures r <= n
  {
    if n == 0 then 0
    else
      var b := Passes(a, n - 1);
      MergesWithin(a, n - 1) + (if Fires(b, n - 1) && b[n - 1] != NullCard then 1 else 0)
  }

  function LaneSum(a: seq<Card>): nat
    requires IsLane(a)
  {
    a[0] as nat + a[1] + a[2] + a[3]
  }

  function Occupied(v: Card): nat
  {
    if v == NullCard then 0 else 1
  }

  function LaneOccupied(a: seq<Card>): nat
    requires IsLane(a)
  {
    Occupied(a[0]) + Occupied(a[1]) + Occupied(a[2]) + Occupied(a[3])
  }

  /** Pass p does not touch ranks other than p and p + 1, so a rank below p
      that a pass has written stays as it is. */
  lemma {:induction false} PassesKeepLowerRanks(a: seq<Card>, k: nat, n: nat, m: nat)
    requires IsLane(a) && k + 1 <= n <= m <= 3
    ensures Passes(a, m)[k] == Passes(a, n)[k]
  {
    if m > n {
      PassesKeepLowerRanks(a, k, n, m - 1);
    }
  }

  /** Passes that have slid nothing leave the lane as it was. */
  lemma {:induction false} NoFireNoChange(a: seq<Card>, n: nat)
    requires IsLane(a) && n <= 3
    requires !FiredWithin(a, n)
    ensures Passes(a, n) == a
  {
    if n > 0 {
      NoFireNoChange(a, n - 1);
    }
  }

  /** Once a pass has slid or merged, the lane differs from the original for
      good: the first pass p that fires writes a[p + 1] + a[p] onto rank p,
      and no later pass touches rank p. */
  lemma {:induction false} FiredStaysChanged(a: seq<Card>, n: nat)
    requires IsLane(a) && n <= 3
    requires FiredWithin(a, n)
    ensures Passes(a, n)[FirstFire(a, n)] == a[FirstFire(a, n)] as nat + a[FirstFire(a, n) + 1]
    ensures a[FirstFire(a, n) + 1] != NullCard
  {
    var p := FirstFire(a, n);
    NoFireNoChange(a, p);
    PassesKeepLowerRanks(a, p, p + 1, n);
  }

  /** The first pass among the first n that fires. */
  function FirstFire(a: seq<Card>, n: nat): (p: nat)
    requires IsLane(a) && n <= 3
    requires FiredWithin(a, n)
    ensures p < n && !FiredWithin(a, p) && Fires(Passes(a, p), p)
    ensures FiredWithin(a, p + 1)
  {
    if FiredWithin(a, n - 1) then FirstFire(a, n - 1) else n - 1
  }

  /** A lane changes exactly when some pass slides or merges a card. */
  lemma LaneChangedIffFired(a: seq<Card>, n: nat)
    requires IsLane(a) && n <= 3
    ensures Passes(a, n) != a <==> FiredWithin(a, n)
  {
    if FiredWithin(a, n) {
      FiredStaysChanged(a, n);
    } else {
      NoFireNoChange(a, n);
    }
  }

  /** Firing is monotone in the number of passes. */
  lemma {:induction false} FiredWithinMonotone(a: seq<Card>, n: nat, m: nat)
    requires IsLane(a) && n <= m <= 3
    requires FiredWithin(a, n)
    ensures FiredWithin(a, m)
  {
    if m > n {
      FiredWithinMonotone(a, n, m - 1);
    }
  }

  /** A slide keeps the sum of the lane. */
  lemma SlideKeepsSum(a: seq<Card>, p: nat)
    requires IsLane(a) && p < 3
    ensures LaneSum(Slide(a, p)) == LaneSum(a)
  {
  }

  /** The sum of the values in a lane is the same before and after a swipe. */
  lemma {:induction false} PassesKeepSum(a: seq<Card>, n: nat)
    requires IsLane(a) && n <= 3
    ensures LaneSum(Passes(a, n)) == LaneSum(a)
  {
    if n > 0 {
      PassesKeepSum(a, n - 1);
      SlideKeepsSum(Passes(a, n - 1), n - 1);
    }
  }

  /** A slide into an empty cell keeps the number of cards; a merge removes one. */
  lemma {:induction false} PassesOccupied(a: seq<Card>, n: nat)
    requires IsLane(a) && n <= 3
    ensures LaneOccupied(Passes(a, n)) + MergesWithin(a, n) == LaneOccupied(a)
  {
    if n > 0 {
      PassesOccupied(a, n - 1);
      var b := Passes(a, n - 1);
      if Fires(b, n - 1) {
        assert b[n] != NullCard;
        assert b[n] + b[n - 1] != NullCard;
      }
    }
  }

  /** Each card moves at most one cell towards the destination edge: after a
      swipe, the cell of rank r holds nothing, its own card, the card from rank
      r + 1, or the merge of the two. */
  lemma MovesAtMostOneCell(a: seq<Card>)
    requires IsLane(a)
    ensures forall r | 0 <= r < 3 ::
      ShiftLane(a)[r] as nat in {0, a[r] as nat, a[r + 1] as nat, a[r] as nat + a[r + 1]}
    ensures ShiftLane(a)[3] in {NullCard, a[3]}
  {
    assert Passes(a, 0) == a;
    var b1 := Slide(a, 0);
    var b2 := Slide(b1, 1);
    var b3 := Slide(b2, 2);
    assert b1 == Passes(a, 1);
    assert b2 == Passes(a, 2);
    assert b3 == ShiftLane(a);
  }

  /** After a swipe that changed the lane, the entry-edge cell of the lane is
      empty: the first pass that fires leaves a hole that every later pass
      passes back towards the entry edge. */
  lemma EntryFreedAfterChange(a: seq<Card>)
    requires IsLane(a)
    requires ShiftLane(a) != a
    ensures ShiftLane(a)[3] == NullCard
  {
    LaneChangedIffFired(a, 3);
    var p := FirstFire(a, 3);
    EmptySourcePropagates(a, p);
  }

  /** If pass p fired, rank p + 1 is empty after it, and each later pass
      either leaves that hole or moves the next card into it, so the hole
      moves up to rank 3. */
  lemma {:induction false} EmptySourcePropagates(a: seq<Card>, p: nat)
    requires IsLane(a) && p < 3
    requires Fires(Passes(a, p), p)
    ensures ShiftLane(a)[3] == NullCard
  {
    var k := p + 1;
    while k < 3
      invariant p + 1 <= k <= 3
      invariant Passes(a, k)[k] == NullCard
    {
      var b := Passes(a, k);
      if b[k + 1] != NullCard {
        SlideIntoEmpty(b[k + 1]);
      }
      k := k + 1;
    }
  }
}
