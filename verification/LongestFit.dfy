/** The binary search that the readers and projectors share: among sizes that fit a
    budget it looks for the largest. The budget test is not assumed to be monotone. */
module LongestFit {
  import opened Options

  function Middle(low: nat, high: int): (mid: nat)
    requires low <= high
    ensures low <= mid <= high
  {
    low + (high - low) / 2
  }

  /** The search over `[low, high]`, with `best` the last size that fitted. */
  function Search(fits: nat -> bool, low: nat, high: int, best: Option<nat>): (r: Option<nat>)
    requires best.Some? ==> fits(best.value) && best.value < low
    ensures r.Some? ==> fits(r.value) && (r == best || low <= r.value <= high)
    ensures best.Some? ==> r.Some? && r.value >= best.value
    decreases high - low + 1
  {
    if low > high then best
    else
      var mid := Middle(low, high);
      if fits(mid) then Search(fits, mid + 1, high, Some(mid)) else Search(fits, low, mid - 1, best)
  }

  method SearchLoop(fits: nat -> bool, low: nat, high: int) returns (best: Option<nat>)
    ensures best == Search(fits, low, high, None)
  {
    var l, h := low, high;
    best := None;
    while l <= h
      invariant 0 <= l && (best.Some? ==> fits(best.value) && best.value < l)
      invariant Search(fits, low, high, None) == Search(fits, l, h, best)
      decreases h - l + 1
    {
      var mid := l + (h - l) / 2;
      if fits(mid) {
        best, l := Some(mid), mid + 1;
      } else {
        h := mid - 1;
      }
    }
  }

  /** On this range larger sizes never fit where smaller ones do not. */
  ghost predicate Monotone(fits: nat -> bool, low: nat, high: int) {
    forall i: nat, j: nat :: low <= i <= j <= high && fits(j) ==> fits(i)
  }

  /** The search does not stop short of a size up to which everything fits. */
  lemma {:induction false} SearchReaches(fits: nat -> bool, low: nat, high: int, best: Option<nat>, k: nat)
    requires best.Some? ==> fits(best.value) && best.value < low
    requires low <= k <= high && forall i: nat :: low <= i <= k ==> fits(i)
    ensures var r := Search(fits, low, high, best); r.Some? && k <= r.value
    decreases high - low + 1
  {
    var mid := Middle(low, high);
    if !fits(mid) {
      SearchReaches(fits, low, mid - 1, best, k);
    } else if mid < k {
      SearchReaches(fits, mid + 1, high, Some(mid), k);
    }
  }

  /** Under a monotone test the search finds the largest size that fits. */
  lemma SearchIsLongest(fits: nat -> bool, low: nat, high: int, best: Option<nat>, k: nat)
    requires best.Some? ==> fits(best.value) && best.value < low
    requires Monotone(fits, low, high)
    requires low <= k <= high && fits(k)
    ensures Search(fits, low, high, best).Some? && k <= Search(fits, low, high, best).value
  {
    SearchReaches(fits, low, high, best, k);
  }

  /** Whatever the test is like, a search whose smallest size fits does not come back empty. */
  lemma {:induction false} SearchFindsSome(fits: nat -> bool, low: nat, high: int)
    requires low <= high && fits(low)
    ensures Search(fits, low, high, None).Some?
    decreases high - low + 1
  {
    var mid := Middle(low, high);
    if !fits(mid) { SearchFindsSome(fits, low, mid - 1); }
  }
}
