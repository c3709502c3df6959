/** Selecting from a sequence and tallying what its elements contribute. */
module Sequences {

  /** The elements on which `f` agrees with `want`, in order. */
  function Select<T>(xs: seq<T>, f: T -> bool, want: bool): (r: seq<T>)
    ensures |r| <= |xs|
  {
    if xs == [] then []
    else
      var last := xs[|xs|-1];
      Select(xs[..|xs|-1], f, want) + if f(last) == want then [last] else []
  }

  lemma SelectStep<T>(xs: seq<T>, f: T -> bool, want: bool, lo: nat, n: nat)
    requires lo <= n < |xs|
    ensures Select(xs[lo..n+1], f, want) == Select(xs[lo..n], f, want) + if f(xs[n]) == want then [xs[n]] else []
  {
    assert xs[lo..n+1][..n-lo] == xs[lo..n];
  }

  lemma {:induction false} SelectMember<T>(xs: seq<T>, f: T -> bool, want: bool, x: T)
    ensures x in Select(xs, f, want) <==> x in xs && f(x) == want
  {
    if xs != [] {
      SelectMember(xs[..|xs|-1], f, want, x);
      assert xs == xs[..|xs|-1] + [xs[|xs|-1]];
    }
  }

  lemma SelectMembers<T>(xs: seq<T>, f: T -> bool, want: bool)
    ensures forall x :: x in Select(xs, f, want) <==> x in xs && f(x) == want
  {
    forall x ensures x in Select(xs, f, want) <==> x in xs && f(x) == want {
      SelectMember(xs, f, want, x);
    }
  }

  lemma {:induction false} SelectNone<T>(xs: seq<T>, f: T -> bool, want: bool)
    requires forall x | x in xs :: f(x) != want
    ensures Select(xs, f, want) == []
  {
    if xs != [] {
      SelectNone(xs[..|xs|-1], f, want);
      assert xs[|xs|-1] in xs;
    }
  }

  /** When the selected elements come first, selection and rest, put together, are the whole sequence. */
  lemma {:induction false} SelectPrefix<T>(xs: seq<T>, f: T -> bool)
    requires forall i, j | 0 <= i < j < |xs| :: f(xs[j]) ==> f(xs[i])
    ensures Select(xs, f, true) + Select(xs, f, false) == xs
  {
    if xs != [] {
      var init, last := xs[..|xs|-1], xs[|xs|-1];
      SelectPrefix(init, f);
      if f(last) {
        forall x | x in init ensures f(x) {
          var i :| 0 <= i < |init| && init[i] == x;
          assert f(xs[|xs|-1]) ==> f(xs[i]);
        }
        SelectNone(init, f, false);
        assert Select(xs, f, true) == init + [last] && Select(xs, f, false) == [];
      } else {
        assert Select(xs, f, true) == Select(init, f, true);
        assert Select(xs, f, false) == Select(init, f, false) + [last];
      }
      assert xs == init + [last];
    }
  }

  predicate SortedBy<T>(xs: seq<T>, key: T -> int) {
    forall i, j | 0 <= i < j < |xs| :: key(xs[i]) <= key(xs[j])
  }

  lemma {:induction false} SelectSorted<T>(xs: seq<T>, f: T -> bool, want: bool, key: T -> int)
    requires SortedBy(xs, key)
    ensures SortedBy(Select(xs, f, want), key)
  {
    if xs != [] {
      var init, last := xs[..|xs|-1], xs[|xs|-1];
      SelectSorted(init, f, want, key);
      var r := Select(init, f, want);
      forall i | 0 <= i < |r| ensures key(r[i]) <= key(last) {
        SelectMember(init, f, want, r[i]);
        var j :| 0 <= j < |init| && init[j] == r[i];
        assert xs[j] == r[i];
      }
    }
  }

  function Map<S, T>(xs: seq<S>, f: S -> T): (r: seq<T>)
    ensures |r| == |xs| && forall i | 0 <= i < |xs| :: r[i] == f(xs[i])
  {
    seq(|xs|, i requires 0 <= i < |xs| => f(xs[i]))
  }

  lemma {:induction false} SelectMap<S, T>(xs: seq<S>, g: S -> T, f: S -> bool, want: bool, h: T -> bool, hold: bool)
    requires forall x | x in xs :: (f(x) == want) == (h(g(x)) == hold)
    ensures Map(Select(xs, f, want), g) == Select(Map(xs, g), h, hold)
  {
    if xs != [] {
      var init, last := xs[..|xs|-1], xs[|xs|-1];
      assert last in xs;
      SelectMap(init, g, f, want, h, hold);
      assert Map(xs, g)[..|xs|-1] == Map(init, g);
      if f(last) == want {
        MapSnoc(Select(init, f, want), last, g);
      }
    }
  }

  lemma MapConcat<S, T>(xs: seq<S>, ys: seq<S>, f: S -> T)
    ensures Map(xs + ys, f) == Map(xs, f) + Map(ys, f)
    ensures Map([], f) == []
  {
  }

  lemma MapSnoc<S, T>(xs: seq<S>, x: S, f: S -> T)
    ensures Map(xs + [x], f) == Map(xs, f) + [f(x)]
  {
  }

  // ---------------------------------------------------------------------------------------------

  /** How many elements satisfy `f`. */
  function Count<T>(xs: seq<T>, f: T -> bool): nat {
    if xs == [] then 0 else Count(xs[..|xs|-1], f) + if f(xs[|xs|-1]) then 1 else 0
  }

  lemma CountSnoc<T>(xs: seq<T>, x: T, f: T -> bool)
    ensures Count(xs + [x], f) == Count(xs, f) + if f(x) then 1 else 0
  {
    assert (xs + [x])[..|xs|] == xs;
  }

  lemma {:induction false} CountConcat<T>(xs: seq<T>, ys: seq<T>, f: T -> bool)
    ensures Count(xs + ys, f) == Count(xs, f) + Count(ys, f)
  {
    if ys == [] {
      assert xs + ys == xs;
    } else {
      var init := ys[..|ys|-1];
      CountConcat(xs, init, f);
      assert (xs + ys)[..|xs + ys|-1] == xs + init;
    }
  }

  lemma {:induction false} CountUpdate<T>(xs: seq<T>, i: nat, x: T, f: T -> bool)
    requires i < |xs|
    ensures Count(xs[i := x], f) + (if f(xs[i]) then 1 else 0) == Count(xs, f) + if f(x) then 1 else 0
  {
    var pre, post := xs[..i], xs[i+1..];
    assert xs == pre + [xs[i]] + post && xs[i := x] == pre + [x] + post;
    CountConcat(pre + [xs[i]], post, f);
    CountConcat(pre + [x], post, f);
    CountSnoc(pre, xs[i], f);
    CountSnoc(pre, x, f);
  }

  /** A selection and its complement share out the elements. */
  lemma {:induction false} CountSelect<T>(xs: seq<T>, s: T -> bool, f: T -> bool)
    ensures Count(Select(xs, s, true), f) + Count(Select(xs, s, false), f) == Count(xs, f)
  {
    if xs != [] {
      var init, last := xs[..|xs|-1], xs[|xs|-1];
      CountSelect(init, s, f);
      var chosen, rest := Select(init, s, true), Select(init, s, false);
      if s(last) {
        assert Select(xs, s, true) == chosen + [last] && Select(xs, s, false) == rest;
        CountSnoc(chosen, last, f);
      } else {
        assert Select(xs, s, true) == chosen && Select(xs, s, false) == rest + [last];
        CountSnoc(rest, last, f);
      }
    }
  }

  lemma {:induction false} CountMap<S, T>(xs: seq<S>, g: S -> T, f: T -> bool, h: S -> bool)
    requires forall x | x in xs :: f(g(x)) == h(x)
    ensures Count(Map(xs, g), f) == Count(xs, h)
  {
    if xs != [] {
      var init := xs[..|xs|-1];
      CountMap(init, g, f, h);
      assert Map(xs, g)[..|xs|-1] == Map(init, g);
      assert xs[|xs|-1] in xs;
    }
  }

  lemma {:induction false} CountNone<T>(xs: seq<T>, f: T -> bool)
    ensures Count(xs, f) == 0 <==> forall x | x in xs :: !f(x)
  {
    if xs != [] {
      CountNone(xs[..|xs|-1], f);
      assert xs == xs[..|xs|-1] + [xs[|xs|-1]];
    }
  }

  lemma {:induction false} CountAgrees<T>(xs: seq<T>, f: T -> bool, g: T -> bool)
    requires forall x | x in xs :: f(x) == g(x)
    ensures Count(xs, f) == Count(xs, g)
  {
    if xs != [] {
      CountAgrees(xs[..|xs|-1], f, g);
      assert xs[|xs|-1] in xs;
    }
  }

  lemma CountUnique<T>(xs: seq<T>, f: T -> bool, k: nat)
    requires k < |xs| && f(xs[k]) && Count(xs, f) <= 1
    ensures forall i | 0 <= i < |xs| && i != k :: !f(xs[i])
    ensures Count(xs, f) == 1
  {
    var pre, post := xs[..k], xs[k+1..];
    assert xs == pre + [xs[k]] + post;
    CountConcat(pre + [xs[k]], post, f);
    CountSnoc(pre, xs[k], f);
    CountNone(pre, f);
    CountNone(post, f);
    forall i | 0 <= i < |xs| && i != k ensures !f(xs[i]) {
      assert xs[i] in if i < k then pre else post by {
        if i > k { assert post[i-k-1] == xs[i]; } else { assert pre[i] == xs[i]; }
      }
    }
  }
}
