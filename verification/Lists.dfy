/** Lists and their images. */
module Lists {

  function Map<A, B>(f: A -> B, xs: seq<A>): (ys: seq<B>)
    ensures |ys| == |xs| && forall i :: 0 <= i < |xs| ==> ys[i] == f(xs[i])
  {
    seq(|xs|, i requires 0 <= i < |xs| => f(xs[i]))
  }

  /** A list without element k. */
  function Without<A>(xs: seq<A>, k: nat): (ys: seq<A>)
    requires k < |xs|
    ensures |ys| == |xs| - 1
  {
    xs[..k] + xs[k + 1..]
  }

  lemma WithoutContents<A>(xs: seq<A>, k: nat)
    requires k < |xs|
    ensures multiset(xs) == multiset(Without(xs, k)) + multiset{xs[k]}
  {
    assert xs == xs[..k] + [xs[k]] + xs[k + 1..];
  }

  lemma MapWithout<A, B>(f: A -> B, xs: seq<A>, k: nat)
    requires k < |xs|
    ensures Map(f, Without(xs, k)) == Without(Map(f, xs), k)
  {
  }

  lemma Found<A>(x: A, xs: seq<A>) returns (k: nat)
    requires x in multiset(xs)
    ensures k < |xs| && xs[k] == x
  {
    k :| k < |xs| && xs[k] == x;
  }

  /** Rearranging a list rearranges its images. */
  lemma {:induction false} MapContents<A, B>(f: A -> B, xs: seq<A>, ys: seq<A>)
    requires multiset(xs) == multiset(ys)
    ensures multiset(Map(f, xs)) == multiset(Map(f, ys))
    decreases |xs|
  {
    if xs == [] {
      assert |multiset(ys)| == 0;
    } else {
      assert xs[0] in multiset(xs);
      var k := Found(xs[0], ys);
      WithoutContents(xs, 0);
      WithoutContents(ys, k);
      assert multiset(Without(xs, 0)) == multiset(xs) - multiset{xs[0]};
      MapContents(f, Without(xs, 0), Without(ys, k));
      MapWithout(f, xs, 0);
      MapWithout(f, ys, k);
      WithoutContents(Map(f, xs), 0);
      WithoutContents(Map(f, ys), k);
    }
  }
}
