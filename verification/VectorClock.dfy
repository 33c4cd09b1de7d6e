/** Vector clocks: the happens-before order and its relation to the sum of a clock. */
module VectorClocks {
  import opened Primitives

  type Clock = seq<u64>

  /** Componentwise at most, and strictly less somewhere. Clocks of different length are unrelated. */
  predicate HappensBefore(a: Clock, b: Clock) {
    && |a| == |b|
    && (forall i | 0 <= i < |a| :: a[i] <= b[i])
    && (exists i | 0 <= i < |a| :: a[i] < b[i])
  }

  method ComputeHappensBefore(a: Clock, b: Clock) returns (before: bool)
    ensures before <==> HappensBefore(a, b)
  {
    if |a| != |b| {
      return false;
    }
    var strict := false;
    for i := 0 to |a|
      invariant forall j | 0 <= j < i :: a[j] <= b[j]
      invariant strict <==> exists j | 0 <= j < i :: a[j] < b[j]
    {
      if a[i] > b[i] {
        return false;
      }
      if a[i] < b[i] {
        strict := true;
      }
    }
    before := strict;
  }

  predicate ConcurrentWith(a: Clock, b: Clock) {
    !HappensBefore(a, b) && !HappensBefore(b, a)
  }

  /** Happens-before is a strict partial order, and concurrency is exactly its incomparability. */
  lemma {:induction false} StrictPartialOrder(a: Clock, b: Clock, c: Clock)
    ensures !HappensBefore(a, a)
    ensures HappensBefore(a, b) ==> !HappensBefore(b, a)
    ensures HappensBefore(a, b) && HappensBefore(b, c) ==> HappensBefore(a, c)
    ensures ConcurrentWith(a, b) <==> ConcurrentWith(b, a)
    ensures ConcurrentWith(a, a) && (HappensBefore(a, b) || HappensBefore(b, a) <==> !ConcurrentWith(a, b))
  {
    if HappensBefore(a, b) && HappensBefore(b, c) {
      var i :| 0 <= i < |a| && a[i] < b[i];
      assert a[i] < c[i];
    }
  }

  function Sum(clock: Clock): nat {
    if clock == [] then 0 else clock[0] + Sum(clock[1..])
  }

  /** The sum as the code computes it: `u64` addition, which wraps. */
  function WrappedSum(clock: Clock): u64 {
    Sum(clock) % U64_LIMIT
  }

  lemma {:induction false} SumMonotone(a: Clock, b: Clock)
    requires |a| == |b| && forall i | 0 <= i < |a| :: a[i] <= b[i]
    ensures Sum(a) <= Sum(b)
    ensures (exists i | 0 <= i < |a| :: a[i] < b[i]) ==> Sum(a) < Sum(b)
  {
    if a != [] {
      SumMonotone(a[1..], b[1..]);
      if i :| 0 < i < |a| && a[i] < b[i] {
        assert a[1..][i - 1] < b[1..][i - 1];
      }
    }
  }

  /** Causally later clocks have larger sums. */
  lemma {:induction false} HappensBeforeSum(a: Clock, b: Clock)
    requires HappensBefore(a, b)
    ensures Sum(a) < Sum(b)
  {
    SumMonotone(a, b);
  }

  /** The sums the code compares increase exactly when no carry out of 64 bits separates them. */
  lemma {:induction false} WrappedSumIncreases(a: Clock, b: Clock)
    requires HappensBefore(a, b) && Sum(b) - Sum(a) < U64_LIMIT
    ensures WrappedSum(a) < WrappedSum(b) <==> Sum(a) / U64_LIMIT == Sum(b) / U64_LIMIT
    ensures Sum(b) < U64_LIMIT ==> WrappedSum(a) < WrappedSum(b)
  {
    HappensBeforeSum(a, b);
  }

  /** Lower the entries of a clock, first ones last, until they add up to `target`. */
  function LowerTo(b: Clock, target: nat): (a: Clock)
    requires target <= Sum(b)
    ensures |a| == |b| && forall i | 0 <= i < |b| :: a[i] <= b[i]
    ensures Sum(a) == target
  {
    if b == [] then []
    else if target < Sum(b[1..]) then
      var rest := LowerTo(b[1..], target);
      assert ([0] + rest)[1..] == rest;
      [0] + rest
    else
      assert ([target - Sum(b[1..])] + b[1..])[1..] == b[1..];
      [target - Sum(b[1..])] + b[1..]
  }

  /** The greatest sum below that of an overflowing clock whose wrapped value is the largest `u64`. */
  lemma {:induction false} LargestBelow(n: nat)
    requires n >= U64_LIMIT
    ensures 0 <= n - n % U64_LIMIT - 1 < n && (n - n % U64_LIMIT - 1) % U64_LIMIT == U64_LIMIT - 1
  {
    var q := n / U64_LIMIT;
    assert n - n % U64_LIMIT == U64_LIMIT * q;
    assert U64_LIMIT * q - 1 == U64_LIMIT * (q - 1) + (U64_LIMIT - 1);
    QuotientRemainder(q - 1);
  }

  lemma {:induction false} QuotientRemainder(q: nat)
    ensures (U64_LIMIT * q + (U64_LIMIT - 1)) % U64_LIMIT == U64_LIMIT - 1
  {
    var n := U64_LIMIT * q + (U64_LIMIT - 1);
    assert U64_LIMIT * (n / U64_LIMIT - q) + n % U64_LIMIT == U64_LIMIT - 1;
    assert n / U64_LIMIT == q;
  }

  /** A cause of an overflowing clock whose wrapped sum is not below. */
  function OverflowingCause(b: Clock): (a: Clock)
    requires Sum(b) >= U64_LIMIT
    ensures HappensBefore(a, b) && WrappedSum(a) == U64_LIMIT - 1
  {
    LargestBelow(Sum(b));
    var a := LowerTo(b, Sum(b) - Sum(b) % U64_LIMIT - 1);
    SmallerSomewhere(a, b);
    a
  }

  lemma {:induction false} SmallerSomewhere(a: Clock, b: Clock)
    requires |a| == |b| && forall i | 0 <= i < |a| :: a[i] <= b[i]
    ensures HappensBefore(a, b) || a == b
  {
  }

  /** The wrapped sum of a clock exceeds those of all its causes if and only if the sum does not overflow. */
  lemma {:induction false} WrappedSumExceedsCausesIff(b: Clock)
    ensures (forall a | HappensBefore(a, b) :: WrappedSum(a) < WrappedSum(b)) <==> Sum(b) < U64_LIMIT
  {
    if Sum(b) < U64_LIMIT {
      forall a | HappensBefore(a, b) ensures WrappedSum(a) < WrappedSum(b) {
        WrappedSumIncreases(a, b);
      }
    } else {
      var a := OverflowingCause(b);
      assert HappensBefore(a, b) && WrappedSum(a) >= WrappedSum(b);
    }
  }

  /** An overflowing pair: the later clock has the smaller wrapped sum. */
  lemma {:induction false} WrappedSumMisorders()
    ensures HappensBefore([U64_LIMIT - 1, 0], [U64_LIMIT - 1, 1])
    ensures WrappedSum([U64_LIMIT - 1, 1]) < WrappedSum([U64_LIMIT - 1, 0])
  {
    var a: Clock, b: Clock := [U64_LIMIT - 1, 0], [U64_LIMIT - 1, 1];
    assert a[1] < b[1];
    assert a[1..] == [0] && b[1..] == [1];
    assert Sum([0]) == 0 && Sum([1]) == 1;
  }
}
