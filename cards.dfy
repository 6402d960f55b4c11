/** Card values of the tile-merging puzzle: which values are cards, and when
    two cards (or a card and an empty cell) may be combined. */
module Cards {

  datatype Result<T, E> = Ok(value: T) | Err(error: E)

  datatype CardError = InvalidCardValue | IllegalCombine

  /** 2 to the power n. */
  function Pow2(n: nat): (r: nat)
    ensures r >= 1
  {
    if n == 0 then 1 else 2 * Pow2(n - 1)
  }

  /** `is_power_of_two`: the source tests `a && !(a & (a - 1))`; here the same
      set of numbers is described by halving. */
  predicate IsPowerOfTwo(a: nat)
  {
    a == 1 || (a >= 2 && a % 2 == 0 && IsPowerOfTwo(a / 2))
  }

  /** `log_base_2` as a specification: the number of times `a` can be halved
      before it reaches 0 or 1, that is, the floor of the base-2 logarithm. */
  function Log2(a: nat): (r: nat)
    ensures a >= 1 ==> Pow2(r) <= a < Pow2(r + 1)
    ensures a <= 1 ==> r == 0
  {
    if a <= 1 then 0 else 1 + Log2(a / 2)
  }

  /** `log_base_2`: shift right until nothing is left, counting the shifts. */
  method LogBase2(a: nat) returns (r: nat)
    ensures r == Log2(a)
  {
    var b: nat := a / 2;
    r := 0;
    while b != 0
      invariant b >= 1 ==> Log2(a) == r + 1 + Log2(b)
      invariant b == 0 ==> Log2(a) == r
      decreases b
    {
      b := b / 2;
      r := r + 1;
    }
  }

  lemma {:induction false} PowerOfTwoOfPow2(n: nat)
    ensures IsPowerOfTwo(Pow2(n))
  {
    if n > 0 {
      PowerOfTwoOfPow2(n - 1);
      assert Pow2(n) / 2 == Pow2(n - 1);
    }
  }

  lemma {:induction false} Log2OfPow2(n: nat)
    ensures Log2(Pow2(n)) == n
  {
    if n > 0 {
      Log2OfPow2(n - 1);
      assert Pow2(n) / 2 == Pow2(n - 1);
    }
  }

  lemma {:induction false} PowerOfTwoIsPow2OfLog(a: nat)
    requires IsPowerOfTwo(a)
    ensures Pow2(Log2(a)) == a
  {
    if a != 1 {
      PowerOfTwoIsPow2OfLog(a / 2);
    }
  }

  /** A power of two is 2^n for some n, and every 2^n is a power of two. */
  lemma PowerOfTwoIff(a: nat)
    ensures IsPowerOfTwo(a) <==> exists n: nat :: Pow2(n) == a
  {
    if IsPowerOfTwo(a) {
      PowerOfTwoIsPow2OfLog(a);
    }
    if exists n: nat :: Pow2(n) == a {
      var n: nat :| Pow2(n) == a;
      PowerOfTwoOfPow2(n);
    }
  }

  /** `is_valid_3_card_value`: the "3 family" 3, 6, 12, 24, ... */
  predicate IsValid3CardValue(a: nat)
  {
    a % 3 == 0 && IsPowerOfTwo(a / 3)
  }

  /** `is_valid_card_value`: 1, 2 or a member of the 3 family. */
  predicate IsValidCardValue(a: nat)
  {
    a == 1 || a == 2 || IsValid3CardValue(a)
  }

  /** A card, or the empty cell `nullcard` (value 0), which only the default
      constructor produces. */
  type Card = v: nat | v == 0 || IsValidCardValue(v)

  const NullCard: Card := 0

  /** The 3 family is exactly 3 * 2^n. */
  lemma Valid3Iff(v: nat)
    ensures IsValid3CardValue(v) <==> exists n: nat :: v == 3 * Pow2(n)
  {
    if IsValid3CardValue(v) {
      PowerOfTwoIsPow2OfLog(v / 3);
      assert v == 3 * Pow2(Log2(v / 3));
    }
    if exists n: nat :: v == 3 * Pow2(n) {
      var n: nat :| v == 3 * Pow2(n);
      PowerOfTwoOfPow2(n);
      assert v / 3 == Pow2(n);
    }
  }

  /** A value is a card iff it is 1, 2 or 3 * 2^n. */
  lemma ValidCardValueIff(v: nat)
    ensures IsValidCardValue(v) <==> v == 1 || v == 2 || exists n: nat :: v == 3 * Pow2(n)
  {
    Valid3Iff(v);
  }

  lemma RejectedCardValues()
    ensures !IsValidCardValue(0) && !IsValidCardValue(4) && !IsValidCardValue(5)
    ensures !IsValidCardValue(7) && !IsValidCardValue(9) && !IsValidCardValue(10)
    ensures IsValidCardValue(3) && IsValidCardValue(6) && IsValidCardValue(12)
  {
    assert IsPowerOfTwo(2) && IsPowerOfTwo(4);
    assert !IsPowerOfTwo(3);
  }

  /** The `Card(value)` constructor: refuses every value that is not a card
      (including 0). */
  function MakeCard(v: nat): (r: Result<Card, CardError>)
    ensures r.Ok? <==> IsValidCardValue(v)
    ensures r.Ok? ==> r.value == v
    ensures r.Err? ==> r.error == InvalidCardValue
  {
    if IsValidCardValue(v) then Ok(v) else Err(InvalidCardValue)
  }

  /** `Card::combine`: two 1s never merge; otherwise the sum, which must itself
      be a card. */
  function Combine(a: Card, b: Card): (r: Result<Card, CardError>)
    ensures a == 1 && b == 1 ==> r == Err(IllegalCombine)
    ensures r.Ok? ==> r.value == a + b
    ensures !(a == 1 && b == 1) ==> (r.Ok? <==> IsValidCardValue(a + b))
    ensures r.Err? && !(a == 1 && b == 1) ==> r.error == InvalidCardValue
  {
    if a == 1 && b == 1 then Err(IllegalCombine) else MakeCard(a + b)
  }

  /** `can_combine`: the test used both for merging and for sliding into an
      empty cell. */
  predicate CanCombine(a: Card, b: Card)
  {
    !(a == 1 && b == 1) && IsValidCardValue(a + b)
  }

  /** `can_combine` holds exactly when `combine` succeeds, and then the
      result is the sum. */
  lemma CanCombineIffCombineSucceeds(a: Card, b: Card)
    ensures CanCombine(a, b) <==> Combine(a, b).Ok?
    ensures CanCombine(a, b) ==> Combine(a, b) == Ok(a + b)
  {
  }

  /** Sliding into an empty cell: always allowed, and the card keeps its value. */
  lemma SlideIntoEmpty(v: Card)
    requires v != NullCard
    ensures CanCombine(v, NullCard) && Combine(v, NullCard) == Ok(v)
  {
  }

  lemma CombineExamples()
    ensures Combine(1, 1) == Err(IllegalCombine)
    ensures !CanCombine(1, 1) && CanCombine(1, 2) && CanCombine(2, 1)
    ensures !CanCombine(2, 2)
  {
    assert !IsValidCardValue(4) by { RejectedCardValues(); }
    assert IsValidCardValue(3) by { RejectedCardValues(); }
  }

  lemma {:induction false} HalvePowerOfTwo(x: nat)
    requires x >= 1 && IsPowerOfTwo(2 * x)
    ensures IsPowerOfTwo(x)
  {
    assert (2 * x) / 2 == x;
  }

  /** 1 plus a larger power of two is odd, so not a power of two. */
  lemma OnePlusPowerOfTwo(n: nat)
    requires n > 0
    ensures !IsPowerOfTwo(1 + Pow2(n))
  {
    var p := Pow2(n - 1);
    assert 1 + Pow2(n) == 2 * p + 1;
    assert (2 * p + 1) % 2 == 1;
  }

  /** Two different powers of two never add up to a power of two. */
  lemma {:induction false} SumOfPowersOfTwo(m: nat, n: nat)
    ensures m != n ==> !IsPowerOfTwo(Pow2(m) + Pow2(n))
  {
    if m == 0 && n > 0 {
      OnePlusPowerOfTwo(n);
    } else if n == 0 && m > 0 {
      OnePlusPowerOfTwo(m);
    } else if m > 0 && n > 0 && m != n {
      var x := Pow2(m - 1) + Pow2(n - 1);
      SumOfPowersOfTwo(m - 1, n - 1);
      assert Pow2(m) + Pow2(n) == 2 * x;
      if IsPowerOfTwo(2 * x) {
        HalvePowerOfTwo(x);
      }
    }
  }

  /** The merge rule of the game: two cards combine exactly when they are a 1
      and a 2, or two equal cards of the 3 family. */
  lemma MergeRule(a: Card, b: Card)
    requires a != NullCard && b != NullCard
    ensures CanCombine(a, b) <==> (a == 1 && b == 2) || (a == 2 && b == 1) || (a == b && a >= 3)
  {
    assert IsValidCardValue(a) && IsValidCardValue(b);
    if a >= 3 && b >= 3 {
      Valid3Iff(a);
      Valid3Iff(b);
      var m: nat :| a == 3 * Pow2(m);
      var n: nat :| b == 3 * Pow2(n);
      if CanCombine(a, b) {
        assert (a + b) / 3 == Pow2(m) + Pow2(n);
        SumOfPowersOfTwo(m, n);
      }
      if a == b {
        assert a + b == 3 * Pow2(m + 1);
        Valid3Iff(a + b);
      }
    } else if a >= 3 {
      assert (a + b) % 3 == b;
    } else if b >= 3 {
      assert (a + b) % 3 == a;
    } else {
      CombineExamples();
    }
  }

  /** Doubling a card of the 3 family gives the next one (the `card.combine(card)`
      step of the wildcard enumeration), and no card of the family lies strictly
      between them. */
  lemma NextOfThreeFamily(v: nat)
    requires IsValid3CardValue(v)
    ensures IsValid3CardValue(v + v)
    ensures forall w: nat :: v < w < v + v ==> !IsValid3CardValue(w)
  {
    Valid3Iff(v);
    var m: nat :| v == 3 * Pow2(m);
    assert v + v == 3 * Pow2(m + 1);
    Valid3Iff(v + v);
    forall w: nat | v < w < v + v
      ensures !IsValid3CardValue(w)
    {
      if IsValid3CardValue(w) {
        Valid3Iff(w);
        var k: nat :| w == 3 * Pow2(k);
        Pow2Between(m, k);
      }
    }
  }

  lemma {:induction false} Pow2Between(m: nat, k: nat)
    ensures !(Pow2(m) < Pow2(k) < Pow2(m + 1))
  {
    if m > 0 && k > 0 {
      Pow2Between(m - 1, k - 1);
    } else if k > 0 {
      assert Pow2(k) == 2 * Pow2(k - 1);
    }
  }
}
