/** Sequence helpers shared by the loaders: a line-by-line loop that appends what each
    line yields. */
module Lists {

  /** The concatenation of what `f` yields for each element, in order. */
  function FlatMap<A, B>(f: A -> seq<B>, xs: seq<A>): (r: seq<B>)
    ensures (forall i :: 0 <= i < |xs| ==> |f(xs[i])| <= 1) ==> |r| <= |xs|
    decreases |xs|
  {
    if |xs| == 0 then [] else f(xs[0]) + FlatMap(f, xs[1..])
  }

  /** Running the loop over two inputs one after the other yields the two outputs one
      after the other. */
  lemma {:induction false} FlatMapAppend<A, B>(f: A -> seq<B>, a: seq<A>, b: seq<A>)
    ensures FlatMap(f, a + b) == FlatMap(f, a) + FlatMap(f, b)
    decreases |a|
  {
    if |a| == 0 {
      assert a + b == b;
    } else {
      calc {
        FlatMap(f, a + b);
        { assert (a + b)[0] == a[0] && (a + b)[1..] == a[1..] + b; }
        f(a[0]) + FlatMap(f, a[1..] + b);
        { FlatMapAppend(f, a[1..], b); }
        f(a[0]) + (FlatMap(f, a[1..]) + FlatMap(f, b));
        (f(a[0]) + FlatMap(f, a[1..])) + FlatMap(f, b);
        FlatMap(f, a) + FlatMap(f, b);
      }
    }
  }
}
