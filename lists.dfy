/** A list built by a loop that appends, for each item in turn, what the item yields, if
    anything. */
module Lists {
  import opened Wrappers

  /** The values `f` yields for the items of `xs`, in order; items yielding nothing add nothing. */
  function FilterMap<T, U>(xs: seq<T>, f: T -> Option<U>): (r: seq<U>)
    ensures |r| <= |xs|
    decreases |xs|
  {
    if |xs| == 0 then []
    else
      var init := FilterMap(xs[..|xs| - 1], f);
      match f(xs[|xs| - 1])
      case None => init
      case Some(u) => init + [u]
  }

  /** The list of two listings one after the other is the concatenation of their lists. */
  lemma {:induction false} FilterMapAppend<T, U>(xs: seq<T>, ys: seq<T>, f: T -> Option<U>)
    ensures FilterMap(xs + ys, f) == FilterMap(xs, f) + FilterMap(ys, f)
    decreases |ys|
  {
    if |ys| == 0 {
      assert xs + ys == xs;
    } else {
      var init := ys[..|ys| - 1];
      FilterMapAppend(xs, init, f);
      assert (xs + ys)[..|xs + ys| - 1] == xs + init;
      assert (xs + ys)[|xs + ys| - 1] == ys[|ys| - 1];
    }
  }

  /** Every value in the list is yielded by some item. */
  lemma {:induction false} FilterMapSound<T, U>(xs: seq<T>, f: T -> Option<U>, u: U)
    requires u in FilterMap(xs, f)
    ensures exists k :: 0 <= k < |xs| && f(xs[k]) == Some(u)
    decreases |xs|
  {
    var n := |xs|;
    var init := xs[..n - 1];
    if u in FilterMap(init, f) {
      FilterMapSound(init, f, u);
      var k :| 0 <= k < |init| && f(init[k]) == Some(u);
      assert xs[k] == init[k];
    } else {
      assert f(xs[n - 1]) == Some(u);
    }
  }

  /** Every value an item yields is in the list. */
  lemma {:induction false} FilterMapComplete<T, U>(xs: seq<T>, f: T -> Option<U>, k: nat, u: U)
    requires k < |xs| && f(xs[k]) == Some(u)
    ensures u in FilterMap(xs, f)
    decreases |xs|
  {
    var n := |xs|;
    var init := xs[..n - 1];
    if k < n - 1 {
      assert init[k] == xs[k];
      FilterMapComplete(init, f, k, u);
    }
  }
}
