/**
 Spreading an average over whole star ratings. The rounded product of average and count is
 floating point in the program and a parameter here.
 */
module StarRatings {

  function Sum(s: seq<int>): int {
    if s == [] then 0 else s[0] + Sum(s[1..])
  }

  function Clamp(x: int, low: int, high: int): int
    requires low <= high
  {
    if x < low then low else if x > high then high else x
  }

  /** Never more than one apart, the larger ones first. */
  predicate Even(s: seq<int>) {
    forall i, j | 0 <= i <= j < |s| :: s[j] <= s[i] <= s[j] + 1
  }

  lemma {:induction false} SumBeside(a: seq<int>, b: seq<int>)
    ensures Sum(a + b) == Sum(a) + Sum(b)
  {
    if a == [] {
      assert a + b == b;
    } else {
      assert (a + b)[1..] == a[1..] + b;
      SumBeside(a[1..], b);
    }
  }

  lemma {:induction false} SumOfEqual(s: seq<int>, x: int)
    requires forall i | 0 <= i < |s| :: s[i] == x
    ensures Sum(s) == |s| * x
  {
    if s != [] {
      SumOfEqual(s[1..], x);
      assert |s| * x == x + |s[1..]| * x;
    }
  }

  /** `rounded` is the average times the count, to the nearest whole number. */
  method StarRatingsFor(rounded: int, count: int) returns (stars: seq<int>)
    ensures count <= 0 ==> stars == []
    ensures count > 0 ==> |stars| == count && forall i | 0 <= i < count :: 1 <= stars[i] <= 5
    ensures count > 0 ==> Sum(stars) == Clamp(rounded, count, count * 5) && Even(stars)
    ensures count > 0 && count <= rounded <= 5 * count ==> Sum(stars) == rounded
    ensures count > 0 && rounded < count ==> Sum(stars) == count
    ensures count > 0 && rounded > 5 * count ==> Sum(stars) == 5 * count
    ensures forall i, j | 0 <= i <= j < |stars| :: stars[j] <= stars[i] <= stars[j] + 1
  {
    if count <= 0 { return []; }
    var target := Clamp(rounded, count, count * 5);
    var base, remainder := target / count, target % count;
    BaseInRange(target, count);
    stars := seq(count, _ => base);
    for i := 0 to remainder
      invariant |stars| == count
      invariant forall k | 0 <= k < i :: stars[k] == base + 1
      invariant forall k | i <= k < count :: stars[k] == base
    {
      stars := stars[i := stars[i] + 1];
    }
    SumInTwoParts(stars, base, remainder);
  }

  lemma SumInTwoParts(stars: seq<int>, base: int, remainder: nat)
    requires remainder <= |stars|
    requires forall k | 0 <= k < remainder :: stars[k] == base + 1
    requires forall k | remainder <= k < |stars| :: stars[k] == base
    ensures Sum(stars) == base * |stars| + remainder
  {
    SumOfEqual(stars[..remainder], base + 1);
    SumOfEqual(stars[remainder..], base);
    SumBeside(stars[..remainder], stars[remainder..]);
    assert stars[..remainder] + stars[remainder..] == stars;
    Spread(|stars|, remainder, base);
  }

  lemma Spread(count: int, remainder: int, base: int)
    ensures remainder * (base + 1) + (count - remainder) * base == base * count + remainder
  {
  }

  lemma BaseInRange(target: int, count: int)
    requires 0 < count <= target <= count * 5
    ensures target == target / count * count + target % count
    ensures 1 <= target / count <= 5 && (target % count > 0 ==> target / count < 5)
  {
    var base := target / count;
    assert base < 1 ==> base * count <= 0;
    assert base >= 5 ==> base * count >= 5 * count;
    assert base >= 6 ==> base * count >= 6 * count;
  }

  /** What the contract fixes is one list: even, of that length and that sum. */
  lemma EvenSplitIsUnique(a: seq<int>, b: seq<int>)
    requires |a| == |b| && Sum(a) == Sum(b) && Even(a) && Even(b)
    ensures a == b
  {
    if i :| 0 <= i < |a| && a[i] != b[i] {
      if a[i] > b[i] { LargerSum(a, b, i); } else { LargerSum(b, a, i); }
    }
  }

  /** Two even lists are ordered at every place as they are at one. */
  lemma {:induction false} LargerSum(a: seq<int>, b: seq<int>, i: nat)
    requires |a| == |b| && Even(a) && Even(b) && i < |a| && a[i] > b[i]
    ensures Sum(a) > Sum(b)
  {
    forall k | 0 <= k < |a| ensures a[k] >= b[k] {
    }
    SumGrows(a, b, i);
  }

  lemma {:induction false} SumGrows(a: seq<int>, b: seq<int>, i: nat)
    requires |a| == |b| && i < |a| && a[i] > b[i] && forall k | 0 <= k < |a| :: a[k] >= b[k]
    ensures Sum(a) > Sum(b)
  {
    if i == 0 {
      SumAtLeast(a[1..], b[1..]);
    } else {
      SumGrows(a[1..], b[1..], i - 1);
    }
  }

  lemma {:induction false} SumAtLeast(a: seq<int>, b: seq<int>)
    requires |a| == |b| && forall k | 0 <= k < |a| :: a[k] >= b[k]
    ensures Sum(a) >= Sum(b)
  {
    if a != [] { SumAtLeast(a[1..], b[1..]); }
  }
}
