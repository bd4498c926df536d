/** Kotlin's `mapNotNull` over lists, and the facts about it that the decoders share. */
module Seqs {
  import opened Wrappers

  /** `xs.mapNotNull(f)`: the non-null results of `f`, in the order of `xs`. */
  function MapNotNull<A, B>(xs: seq<A>, f: A -> Option<B>): (r: seq<B>)
    ensures |r| <= |xs|
    ensures |r| == CountSome(xs, f)
  {
    if |xs| == 0 then [] else OptionToSeq(f(xs[0])) + MapNotNull(xs[1..], f)
  }

  function OptionToSeq<B>(o: Option<B>): (r: seq<B>)
    ensures |r| <= 1
  {
    match o
    case Some(b) => [b]
    case None => []
  }

  /** How many elements of `xs` `f` maps to a value. */
  function CountSome<A, B>(xs: seq<A>, f: A -> Option<B>): (n: nat)
    ensures n <= |xs|
  {
    if |xs| == 0 then 0 else (if f(xs[0]).Some? then 1 else 0) + CountSome(xs[1..], f)
  }

  /** `mapNotNull` distributes over concatenation: no element affects another's result. */
  lemma {:induction false} MapNotNullAppend<A, B>(a: seq<A>, b: seq<A>, f: A -> Option<B>)
    ensures MapNotNull(a + b, f) == MapNotNull(a, f) + MapNotNull(b, f)
  {
    if |a| == 0 {
      assert a + b == b;
    } else {
      var h := OptionToSeq(f(a[0]));
      assert (a + b)[0] == a[0];
      assert (a + b)[1..] == a[1..] + b;
      calc {
        MapNotNull(a + b, f);
        h + MapNotNull(a[1..] + b, f);
        { MapNotNullAppend(a[1..], b, f); }
        h + (MapNotNull(a[1..], f) + MapNotNull(b, f));
        (h + MapNotNull(a[1..], f)) + MapNotNull(b, f);
      }
    }
  }

  /** Exactly one result per element that maps to a value. */
  lemma {:induction false} MapNotNullLength<A, B>(xs: seq<A>, f: A -> Option<B>)
    ensures |MapNotNull(xs, f)| == CountSome(xs, f)
    ensures CountSome(xs, f) == |xs| <==> forall i :: 0 <= i < |xs| ==> f(xs[i]).Some?
  {
    if |xs| > 0 {
      MapNotNullLength(xs[1..], f);
      if CountSome(xs, f) == |xs| {
        forall i | 0 <= i < |xs|
          ensures f(xs[i]).Some?
        {
          if i > 0 {
            assert xs[i] == xs[1..][i - 1];
          }
        }
      }
      if forall i :: 0 <= i < |xs| ==> f(xs[i]).Some? {
        forall i | 0 <= i < |xs[1..]|
          ensures f(xs[1..][i]).Some?
        {
          assert xs[1..][i] == xs[i + 1];
        }
      }
    }
  }

  /** Every result comes from some element of the input. */
  lemma {:induction false} MapNotNullOrigin<A, B>(xs: seq<A>, f: A -> Option<B>, y: B)
    requires y in MapNotNull(xs, f)
    ensures exists i :: 0 <= i < |xs| && f(xs[i]) == Some(y)
  {
    if y !in OptionToSeq(f(xs[0])) {
      MapNotNullOrigin(xs[1..], f, y);
      var i :| 0 <= i < |xs[1..]| && f(xs[1..][i]) == Some(y);
      assert xs[1..][i] == xs[i + 1];
    }
  }

  /** An element that maps to null contributes nothing wherever it stands. */
  lemma MapNotNullSkips<A, B>(a: seq<A>, x: A, b: seq<A>, f: A -> Option<B>)
    requires f(x).None?
    ensures MapNotNull(a + [x] + b, f) == MapNotNull(a, f) + MapNotNull(b, f)
  {
    var xb := [x] + b;
    assert a + [x] + b == a + xb;
    MapNotNullAppend(a, xb, f);
    assert xb[0] == x && xb[1..] == b;
  }

  /**
   * A relation that holds between the results of every two inputs, taken in
   * order, holds between every two outputs in order: filter-map never reorders.
   */
  lemma {:induction false} MapNotNullPairwise<A, B>(xs: seq<A>, f: A -> Option<B>, rel: (B, B) -> bool)
    requires forall i, j :: 0 <= i < j < |xs| && f(xs[i]).Some? && f(xs[j]).Some? ==> rel(f(xs[i]).value, f(xs[j]).value)
    ensures forall i, j :: 0 <= i < j < |MapNotNull(xs, f)| ==> rel(MapNotNull(xs, f)[i], MapNotNull(xs, f)[j])
  {
    if |xs| > 0 {
      var tail := xs[1..];
      forall i, j | 0 <= i < j < |tail| && f(tail[i]).Some? && f(tail[j]).Some?
        ensures rel(f(tail[i]).value, f(tail[j]).value)
      {
        assert tail[i] == xs[i + 1] && tail[j] == xs[j + 1];
      }
      MapNotNullPairwise(tail, f, rel);
      var rest := MapNotNull(tail, f);
      var r := MapNotNull(xs, f);
      assert r == OptionToSeq(f(xs[0])) + rest;
      if f(xs[0]).Some? {
        forall j | 0 < j < |r|
          ensures rel(r[0], r[j])
        {
          assert r[j] == rest[j - 1];
          MapNotNullOrigin(tail, f, r[j]);
          var k :| 0 <= k < |tail| && f(tail[k]) == Some(r[j]);
          assert tail[k] == xs[k + 1];
        }
        forall i, j | 0 < i < j < |r|
          ensures rel(r[i], r[j])
        {
          assert r[i] == rest[i - 1] && r[j] == rest[j - 1];
        }
      }
    }
  }
}
