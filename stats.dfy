/** Column reductions used by the enricher and the merger: the minimum and
    maximum of a non-empty column, the sum of a column, and the minimum and
    maximum of the values present in a nullable column (missing values
    skipped, as pandas' min/max do). */
module Stats {
  import opened Wrappers

  /** The smallest element of a non-empty column. */
  function Min(xs: seq<int>): (m: int)
    requires |xs| > 0
    ensures m in xs
    ensures forall i :: 0 <= i < |xs| ==> m <= xs[i]
  {
    if |xs| == 1 then xs[0]
    else
      var rest := Min(xs[1..]);
      if xs[0] <= rest then xs[0] else rest
  }

  /** The largest element of a non-empty column. */
  function Max(xs: seq<int>): (m: int)
    requires |xs| > 0
    ensures m in xs
    ensures forall i :: 0 <= i < |xs| ==> xs[i] <= m
  {
    if |xs| == 1 then xs[0]
    else
      var rest := Max(xs[1..]);
      if xs[0] >= rest then xs[0] else rest
  }

  /** The sum of a column. */
  function Sum(xs: seq<int>): int
  {
    if xs == [] then 0 else xs[0] + Sum(xs[1..])
  }

  /** Summing is additive over concatenated columns. */
  lemma {:induction false} SumAppend(a: seq<int>, b: seq<int>)
    ensures Sum(a + b) == Sum(a) + Sum(b)
  {
    if a == [] {
      assert a + b == b;
    } else {
      assert (a + b)[1..] == a[1..] + b;
      SumAppend(a[1..], b);
    }
  }

  /** The values present in a nullable column, in column order. */
  function Present(xs: seq<Option<int>>): (r: seq<int>)
    ensures |r| <= |xs|
    ensures forall v :: v in r <==> Some(v) in xs
  {
    if xs == [] then []
    else
      var rest := Present(xs[1..]);
      assert forall o :: o in xs <==> o == xs[0] || o in xs[1..];
      if xs[0].Some? then [xs[0].value] + rest else rest
  }

  /** The smallest present value of a nullable column; missing when no value is present. */
  function MinPresent(xs: seq<Option<int>>): (r: Option<int>)
    ensures r.None? <==> forall i :: 0 <= i < |xs| ==> xs[i].None?
    ensures r.Some? ==> Some(r.value) in xs
    ensures r.Some? ==> forall i :: 0 <= i < |xs| && xs[i].Some? ==> r.value <= xs[i].value
  {
    var vs := Present(xs);
    assert forall i :: 0 <= i < |xs| && xs[i].Some? ==> xs[i].value in vs by {
      forall i | 0 <= i < |xs| && xs[i].Some? ensures xs[i].value in vs {
        assert xs[i] == Some(xs[i].value);
      }
    }
    if vs == [] then None
    else
      var m := Min(vs);
      Some(m)
  }

  /** The largest present value of a nullable column; missing when no value is present. */
  function MaxPresent(xs: seq<Option<int>>): (r: Option<int>)
    ensures r.None? <==> forall i :: 0 <= i < |xs| ==> xs[i].None?
    ensures r.Some? ==> Some(r.value) in xs
    ensures r.Some? ==> forall i :: 0 <= i < |xs| && xs[i].Some? ==> xs[i].value <= r.value
  {
    var vs := Present(xs);
    assert forall i :: 0 <= i < |xs| && xs[i].Some? ==> xs[i].value in vs by {
      forall i | 0 <= i < |xs| && xs[i].Some? ensures xs[i].value in vs {
        assert xs[i] == Some(xs[i].value);
      }
    }
    if vs == [] then None
    else
      var m := Max(vs);
      Some(m)
  }
}
