/** Python's ordering of str values, code point by code point with a proper
    prefix first. pandas' groupby sorts its group keys with it, so it fixes
    the row order of the merged table. */
module Lexicographic {

  predicate Less(a: string, b: string)
  {
    if a == [] then b != []
    else if b == [] then false
    else a[0] < b[0] || (a[0] == b[0] && Less(a[1..], b[1..]))
  }

  lemma {:induction false} LessIrreflexive(a: string)
    ensures !Less(a, a)
  {
    if a != [] {
      LessIrreflexive(a[1..]);
    }
  }

  lemma {:induction false} LessTransitive(a: string, b: string, c: string)
    requires Less(a, b) && Less(b, c)
    ensures Less(a, c)
  {
    if a != [] && a[0] == b[0] && b[0] == c[0] {
      LessTransitive(a[1..], b[1..], c[1..]);
    }
  }

  lemma {:induction false} LessTotal(a: string, b: string)
    requires a != b
    ensures Less(a, b) || Less(b, a)
  {
    if a != [] && b != [] && a[0] == b[0] {
      assert a == [a[0]] + a[1..] && b == [b[0]] + b[1..];
      LessTotal(a[1..], b[1..]);
    }
  }

  predicate StrictlySorted(us: seq<string>)
  {
    forall i, j :: 0 <= i < j < |us| ==> Less(us[i], us[j])
  }

  /** Adds a key to a strictly sorted list of distinct keys, where it belongs,
      unless it is there already. */
  function Insert(us: seq<string>, u: string): (r: seq<string>)
    requires StrictlySorted(us)
    ensures StrictlySorted(r)
    ensures forall x :: x in r <==> x in us || x == u
  {
    if us == [] then [u]
    else if u == us[0] then us
    else if Less(u, us[0]) then
      assert forall j :: 0 <= j < |us| ==> Less(u, us[j]) by {
        forall j | 0 < j < |us| ensures Less(u, us[j]) {
          LessTransitive(u, us[0], us[j]);
        }
      }
      [u] + us
    else
      LessTotal(u, us[0]);
      var rest := Insert(us[1..], u);
      assert forall x :: x in us <==> x == us[0] || x in us[1..];
      assert forall j :: 0 <= j < |rest| ==> Less(us[0], rest[j]) by {
        forall j | 0 <= j < |rest| ensures Less(us[0], rest[j]) {
          if rest[j] != u {
            assert rest[j] in rest && rest[j] in us[1..];
            var i :| 0 <= i < |us[1..]| && us[1..][i] == rest[j];
            assert us[i + 1] == rest[j];
          }
        }
      }
      [us[0]] + rest
  }

  /** A strictly sorted list is determined by the set of its elements. */
  lemma {:induction false} SortedUnique(a: seq<string>, b: seq<string>)
    requires StrictlySorted(a) && StrictlySorted(b)
    requires forall x :: x in a <==> x in b
    ensures a == b
  {
    assert a == [] <==> b == [] by {
      if a != [] { assert a[0] in b; }
      if b != [] { assert b[0] in a; }
    }
    if a != [] {
      assert a[0] in b && b[0] in a;
      if a[0] != b[0] {
        var i :| 0 <= i < |b| && b[i] == a[0];
        var j :| 0 <= j < |a| && a[j] == b[0];
        assert i > 0 && j > 0;
        assert Less(b[0], a[0]) && Less(a[0], b[0]);
        LessTransitive(a[0], b[0], a[0]);
        LessIrreflexive(a[0]);
        assert false;
      }
      forall x ensures x in a[1..] <==> x in b[1..] {
        if x in a[1..] {
          var i :| 0 <= i < |a[1..]| && a[1..][i] == x;
          assert a[i + 1] == x && Less(a[0], x);
          if x == a[0] { LessIrreflexive(x); }
          assert x in b;
        }
        if x in b[1..] {
          var i :| 0 <= i < |b[1..]| && b[1..][i] == x;
          assert b[i + 1] == x && Less(b[0], x);
          if x == b[0] { LessIrreflexive(x); }
          assert x in a;
        }
      }
      SortedUnique(a[1..], b[1..]);
      assert a == [a[0]] + a[1..] && b == [b[0]] + b[1..];
    }
  }

  function Elements(us: seq<string>): set<string>
  {
    set x | x in us
  }

  /** A strictly sorted list has no repeated element, so it has as many
      elements as the set of its elements. */
  lemma {:induction false} SortedCardinality(a: seq<string>)
    requires StrictlySorted(a)
    ensures |Elements(a)| == |a|
  {
    if a != [] {
      SortedCardinality(a[1..]);
      assert a[0] !in a[1..] by {
        if a[0] in a[1..] {
          var i :| 0 <= i < |a[1..]| && a[1..][i] == a[0];
          assert Less(a[0], a[i + 1]);
          LessIrreflexive(a[0]);
        }
      }
      assert Elements(a) == Elements(a[1..]) + {a[0]};
    }
  }
}
