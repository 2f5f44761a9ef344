/** Option and Result, the two small wrappers the model uses for absent values and errors. */
module Wrappers {

  datatype Option<+T> = None | Some(value: T)

  datatype Result<+R, +E> = Success(value: R) | Failure(error: E)

  /** The values of the `Some` entries of `xs`, in order. */
  function Somes<T>(xs: seq<Option<T>>): seq<T> {
    if |xs| == 0 then []
    else Somes(xs[..|xs| - 1]) + (if xs[|xs| - 1].Some? then [xs[|xs| - 1].value] else [])
  }

  lemma SomesSnoc<T>(xs: seq<Option<T>>, x: Option<T>)
    ensures Somes(xs + [x]) == Somes(xs) + (if x.Some? then [x.value] else [])
  {
    assert (xs + [x])[..|xs|] == xs;
  }

  /** Extending a prefix by one entry adds that entry's value, if it has one. */
  lemma SomesPrefixStep<T>(xs: seq<Option<T>>, i: nat, next: nat)
    requires next == i + 1 && next <= |xs|
    ensures Somes(xs[..next]) == Somes(xs[..i]) + (if xs[i].Some? then [xs[i].value] else [])
  {
    assert xs[..next] == xs[..i] + [xs[i]];
    SomesSnoc(xs[..i], xs[i]);
  }

  /** A value is kept exactly when it was one of the `Some` entries. */
  lemma {:induction false} SomesMembers<T>(xs: seq<Option<T>>, y: T)
    ensures y in Somes(xs) <==> Some(y) in xs
  {
    if |xs| > 0 {
      var init := xs[..|xs| - 1];
      SomesMembers(init, y);
      assert xs == init + [xs[|xs| - 1]];
    }
  }

  /** The values kept from the first `n` entries are those of the `Some` entries among them. */
  lemma SomesPrefixMembers<T>(xs: seq<Option<T>>, n: nat, y: T)
    requires n <= |xs|
    ensures y in Somes(xs[..n]) <==> exists i :: 0 <= i < n && xs[i] == Some(y)
  {
    SomesMembers(xs[..n], y);
    if Some(y) in xs[..n] {
      var i :| 0 <= i < n && xs[..n][i] == Some(y);
      assert xs[i] == Some(y);
    }
    if exists i :: 0 <= i < n && xs[i] == Some(y) {
      var i :| 0 <= i < n && xs[i] == Some(y);
      assert xs[..n][i] == Some(y);
    }
  }

  /**
   * Values whose keys differ between any two `Some` entries still have different keys
   * once the `None` entries are dropped.
   */
  lemma {:induction false} SomesDistinct<T, K>(xs: seq<Option<T>>, key: T -> K)
    requires forall i, j :: 0 <= i < j < |xs| && xs[i].Some? && xs[j].Some? ==> key(xs[i].value) != key(xs[j].value)
    ensures forall p, q :: 0 <= p < q < |Somes(xs)| ==> key(Somes(xs)[p]) != key(Somes(xs)[q])
  {
    if |xs| > 0 {
      var init := xs[..|xs| - 1];
      var last := xs[|xs| - 1];
      SomesDistinct(init, key);
      if last.Some? {
        var before := Somes(init);
        assert Somes(xs) == before + [last.value];
        forall p | 0 <= p < |before|
          ensures key(before[p]) != key(last.value)
        {
          SomesMembers(init, before[p]);
          var i :| 0 <= i < |init| && init[i] == Some(before[p]);
          assert xs[i] == init[i];
        }
      }
    }
  }
}
