/** Python's `None`-or-value results, and the last-wins choice among them. */
module Common {

  datatype Option<+T> = None | Some(value: T)

  /** The value list an optional value stands for: empty or one element. */
  function AsSeq<T>(o: Option<T>): (r: seq<T>)
    ensures o.None? ==> r == []
    ensures o.Some? ==> r == [o.value]
  {
    if o.Some? then [o.value] else []
  }

  /** A variable overwritten by each of `xs` in turn: the last of them, or `prev` when there is none. */
  function Latest<T>(prev: Option<T>, xs: seq<T>): Option<T> {
    if xs == [] then prev else Some(xs[|xs| - 1])
  }

  /** Overwriting with `a` and then with `b` is overwriting with `a + b`. */
  lemma LatestAppend<T>(prev: Option<T>, a: seq<T>, b: seq<T>)
    ensures Latest(Latest(prev, a), b) == Latest(prev, a + b)
  {
    if b == [] {
      assert a + b == a;
    }
  }

  /** The positions of the elements of `xs` that `keep` accepts, in increasing order. */
  function Positions<T>(xs: seq<T>, keep: T -> bool): (idx: seq<nat>)
    ensures forall k :: 0 <= k < |idx| ==> idx[k] < |xs|
    ensures forall k, l :: 0 <= k < l < |idx| ==> idx[k] < idx[l]
    ensures forall j :: 0 <= j < |xs| ==> (j in idx <==> keep(xs[j]))
  {
    if xs == [] then []
    else
      var n := |xs| - 1;
      var init := Positions(xs[..n], keep);
      assert forall j :: 0 <= j < n ==> xs[..n][j] == xs[j];
      init + (if keep(xs[n]) then [n] else [])
  }

  /** The list a loop builds by extending it with `f(x)` for every `x` of `xs` in turn. */
  function FlatMap<T, U>(xs: seq<T>, f: T -> seq<U>): seq<U> {
    if xs == [] then [] else FlatMap(xs[..|xs| - 1], f) + f(xs[|xs| - 1])
  }

  lemma {:induction false} FlatMapAppend<T, U>(a: seq<T>, b: seq<T>, f: T -> seq<U>)
    ensures FlatMap(a + b, f) == FlatMap(a, f) + FlatMap(b, f)
    decreases |b|
  {
    if b == [] {
      assert a + b == a;
    } else {
      assert (a + b)[..|a + b| - 1] == a + b[..|b| - 1];
      FlatMapAppend(a, b[..|b| - 1], f);
    }
  }

  /** The loop builds nothing exactly when every element contributes nothing. */
  lemma {:induction false} FlatMapEmpty<T, U>(xs: seq<T>, f: T -> seq<U>)
    ensures FlatMap(xs, f) == [] <==> forall k :: 0 <= k < |xs| ==> f(xs[k]) == []
  {
    if xs != [] {
      var init := xs[..|xs| - 1];
      FlatMapEmpty(init, f);
      if FlatMap(xs, f) == [] {
        forall k | 0 <= k < |xs| ensures f(xs[k]) == [] {
          if k < |init| {
            assert xs[k] == init[k];
          }
        }
      } else if f(xs[|xs| - 1]) == [] {
        var k :| 0 <= k < |init| && f(init[k]) != [];
        assert xs[k] == init[k];
      }
    }
  }

  /** When nothing after position `k` contributes, the list ends with what `xs[k]` contributed. */
  lemma {:induction false} FlatMapEndsWith<T, U>(xs: seq<T>, f: T -> seq<U>, k: nat)
    requires k < |xs| && forall k2 :: k < k2 < |xs| ==> f(xs[k2]) == []
    ensures FlatMap(xs, f) == FlatMap(xs[..k], f) + f(xs[k])
    decreases |xs|
  {
    var init := xs[..|xs| - 1];
    if k < |init| {
      assert f(xs[|xs| - 1]) == [];
      assert FlatMap(xs, f) == FlatMap(init, f) + [];
      forall k2 | k < k2 < |init| ensures f(init[k2]) == [] {
        assert init[k2] == xs[k2];
      }
      FlatMapEndsWith(init, f, k);
      assert init[..k] == xs[..k];
      assert init[k] == xs[k];
    }
  }
}
