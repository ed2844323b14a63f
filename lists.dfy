// Generic sequence shapes that the scripts' loops share: a list comprehension, and a
// loop that appends a value only for the elements it accepts.
module Lists {
  import opened Wrappers

  /** `g` applied to every element of `xs`, in order: a list comprehension. */
  function Map<T, U>(g: T -> U, xs: seq<T>): (r: seq<U>)
    ensures |r| == |xs|
    ensures forall k :: 0 <= k < |xs| ==> r[k] == g(xs[k])
  {
    seq(|xs|, k requires 0 <= k < |xs| => g(xs[k]))
  }

  lemma MapAppend<T, U>(g: T -> U, a: seq<T>, b: seq<T>)
    ensures Map(g, a + b) == Map(g, a) + Map(g, b)
  {
  }

  /** One more step of a loop that appends `g(x)` for every `x`. */
  lemma MapStep<T, U>(g: T -> U, xs: seq<T>, i: nat)
    requires i < |xs|
    ensures Map(g, xs[..i + 1]) == Map(g, xs[..i]) + [g(xs[i])]
  {
  }

  /** A value is in the comprehension exactly when some element of `xs` gives it. */
  lemma MapMembers<T, U>(g: T -> U, xs: seq<T>, y: U)
    ensures y in Map(g, xs) <==> exists x :: x in xs && g(x) == y
  {
    if y in Map(g, xs) {
      var k :| 0 <= k < |xs| && Map(g, xs)[k] == y;
      assert xs[k] in xs;
    }
    if exists x :: x in xs && g(x) == y {
      var x :| x in xs && g(x) == y;
      var k :| 0 <= k < |xs| && xs[k] == x;
      assert Map(g, xs)[k] == y;
    }
  }

  /**
   * A loop over `xs` that appends `v` whenever `f(x)` gives `Some(v)` and skips `x`
   * otherwise: the accepted values, in the order of `xs`.
   */
  function Pick<T, U>(f: T -> Option<U>, xs: seq<T>): (r: seq<U>)
    ensures |r| <= |xs|
  {
    if xs == [] then []
    else
      var x := xs[|xs| - 1];
      Pick(f, xs[..|xs| - 1]) + (if f(x).Some? then [f(x).value] else [])
  }

  /** One more step of the loop: the prefix grows by one element. */
  lemma PickStep<T, U>(f: T -> Option<U>, xs: seq<T>, i: nat)
    requires i < |xs|
    ensures Pick(f, xs[..i + 1]) == Pick(f, xs[..i]) + if f(xs[i]).Some? then [f(xs[i]).value] else []
  {
    assert xs[..i + 1][..i] == xs[..i];
  }

  /** The value a single element contributes. */
  lemma PickOne<T, U>(f: T -> Option<U>, x: T)
    ensures Pick(f, [x]) == if f(x).Some? then [f(x).value] else []
  {
    assert [x][..0] == [];
  }

  /** Picking distributes over concatenation: the loop keeps the input's order. */
  lemma {:induction false} PickAppend<T, U>(f: T -> Option<U>, a: seq<T>, b: seq<T>)
    ensures Pick(f, a + b) == Pick(f, a) + Pick(f, b)
    decreases |b|
  {
    if b == [] {
      assert a + b == a;
    } else {
      var init := b[..|b| - 1];
      assert (a + b)[..|a + b| - 1] == a + init;
      assert (a + b)[|a + b| - 1] == b[|b| - 1];
      PickAppend(f, a, init);
    }
  }

  /** A value is picked exactly when some element of `xs` gives it. */
  lemma {:induction false} PickMembers<T, U>(f: T -> Option<U>, xs: seq<T>, y: U)
    ensures y in Pick(f, xs) <==> exists x :: x in xs && f(x) == Some(y)
    decreases |xs|
  {
    if xs != [] {
      var init, x := xs[..|xs| - 1], xs[|xs| - 1];
      assert xs == init + [x];
      PickMembers(f, init, y);
      if y in Pick(f, xs) && y !in Pick(f, init) {
        assert f(x) == Some(y);
      }
      if f(x) == Some(y) {
        assert y in Pick(f, xs);
      }
    }
  }

  /** When every element is accepted, picking is the list comprehension over the accepted values. */
  lemma {:induction false} PickAll<T, U>(f: T -> Option<U>, g: T -> U, xs: seq<T>)
    requires forall k :: 0 <= k < |xs| ==> f(xs[k]) == Some(g(xs[k]))
    ensures Pick(f, xs) == Map(g, xs)
    decreases |xs|
  {
    if xs != [] {
      PickAll(f, g, xs[..|xs| - 1]);
    }
  }

  /** `g(x)` for every `x` of `xs`, concatenated in the order of `xs`. */
  function Concat<T, U>(g: T -> seq<U>, xs: seq<T>): (r: seq<U>)
    ensures xs == [] ==> r == []
  {
    if xs == [] then [] else Concat(g, xs[..|xs| - 1]) + g(xs[|xs| - 1])
  }

  /** One more step of a loop that appends `g(x)` for every `x`. */
  lemma ConcatStep<T, U>(g: T -> seq<U>, xs: seq<T>, i: nat)
    requires i < |xs|
    ensures Concat(g, xs[..i + 1]) == Concat(g, xs[..i]) + g(xs[i])
  {
    assert xs[..i + 1][..i] == xs[..i];
  }

  lemma ConcatOne<T, U>(g: T -> seq<U>, x: T)
    ensures Concat(g, [x]) == g(x)
  {
    assert [x][..0] == [];
  }

  /** Concatenation distributes over the runs of the input: the input's order is kept. */
  lemma {:induction false} ConcatAppend<T, U>(g: T -> seq<U>, a: seq<T>, b: seq<T>)
    ensures Concat(g, a + b) == Concat(g, a) + Concat(g, b)
    decreases |b|
  {
    if b == [] {
      assert a + b == a;
    } else {
      var init := b[..|b| - 1];
      assert (a + b)[..|a + b| - 1] == a + init;
      assert (a + b)[|a + b| - 1] == b[|b| - 1];
      ConcatAppend(g, a, init);
    }
  }

  /** A value is in the concatenation exactly when some element of `xs` gives it. */
  lemma {:induction false} ConcatMembers<T, U>(g: T -> seq<U>, xs: seq<T>, y: U)
    ensures y in Concat(g, xs) <==> exists x :: x in xs && y in g(x)
    decreases |xs|
  {
    if xs != [] {
      var init, x := xs[..|xs| - 1], xs[|xs| - 1];
      assert xs == init + [x];
      ConcatMembers(g, init, y);
      if y in g(x) {
        assert x in xs;
      }
    }
  }

  /** The elements of `xs` that `keep` accepts, in order. */
  function Filter<T>(keep: T -> bool, xs: seq<T>): (r: seq<T>)
    ensures |r| <= |xs|
    ensures forall k :: 0 <= k < |r| ==> keep(r[k])
  {
    if xs == [] then []
    else
      var x := xs[|xs| - 1];
      Filter(keep, xs[..|xs| - 1]) + (if keep(x) then [x] else [])
  }

  /** When `f` accepts exactly the elements `keep` keeps, the picked values are those of the kept elements, in order. */
  lemma {:induction false} PickFiltered<T, U>(f: T -> Option<U>, keep: T -> bool, xs: seq<T>)
    requires forall x :: f(x).Some? <==> keep(x)
    ensures |Pick(f, xs)| == |Filter(keep, xs)|
    ensures forall k :: 0 <= k < |Pick(f, xs)| ==> f(Filter(keep, xs)[k]) == Some(Pick(f, xs)[k])
    decreases |xs|
  {
    if xs != [] {
      var init, x := xs[..|xs| - 1], xs[|xs| - 1];
      PickFiltered(f, keep, init);
      var picked, kept := Pick(f, init), Filter(keep, init);
      if keep(x) {
        var picked', kept' := picked + [f(x).value], kept + [x];
        assert Pick(f, xs) == picked' && Filter(keep, xs) == kept';
        assert forall k :: 0 <= k < |picked| ==> picked'[k] == picked[k] && kept'[k] == kept[k];
        assert picked'[|picked|] == f(x).value && kept'[|picked|] == x;
      } else {
        assert Pick(f, xs) == picked && Filter(keep, xs) == kept;
      }
    }
  }

  lemma RemoveOne<T>(init: seq<T>, x: T, before: seq<T>, after: seq<T>, ys: seq<T>)
    requires multiset(init + [x]) == multiset(ys) && ys == before + [x] + after
    ensures multiset(init) == multiset(before + after)
  {
    var a, b := multiset(init), multiset(before + after);
    assert multiset(init + [x]) == a + multiset{x};
    assert multiset(ys) == b + multiset{x};
    forall z
      ensures a[z] == b[z]
    {
      assert (a + multiset{x})[z] == (b + multiset{x})[z];
    }
  }

  /** Picking from a reordering of `xs` picks a reordering of the same values. */
  lemma {:induction false} PickPermutation<T, U>(f: T -> Option<U>, xs: seq<T>, ys: seq<T>)
    requires multiset(xs) == multiset(ys)
    ensures multiset(Pick(f, xs)) == multiset(Pick(f, ys))
    decreases |xs|
  {
    if xs == [] {
      assert |ys| == |multiset(ys)| == 0;
    } else {
      var init, x := xs[..|xs| - 1], xs[|xs| - 1];
      assert xs == init + [x];
      assert x in multiset(ys);
      var j :| 0 <= j < |ys| && ys[j] == x;
      var before, after := ys[..j], ys[j + 1..];
      assert ys == before + [x] + after;
      RemoveOne(init, x, before, after, ys);
      PickPermutation(f, init, before + after);
      PickAppend(f, init, [x]);
      PickAppend(f, before + [x], after);
      PickAppend(f, before, [x]);
      PickAppend(f, before, after);
      PickOne(f, x);
    }
  }

  /** The list comprehension over a reordering of `xs` is a reordering of the comprehension. */
  lemma MapPermutation<T, U>(g: T -> U, xs: seq<T>, ys: seq<T>)
    requires multiset(xs) == multiset(ys)
    ensures multiset(Map(g, xs)) == multiset(Map(g, ys))
  {
    var f := (x: T) => Some(g(x));
    PickAll(f, g, xs);
    PickAll(f, g, ys);
    PickPermutation(f, xs, ys);
  }
}
