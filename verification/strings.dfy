/** Python's ordering of `str` values and the sorted list of distinct strings, as used by
    pandas when it sorts group labels and by scikit-learn's `LabelEncoder` when it fits classes. */
module Strings {

  /** `a < b` on Python strings: lexicographic by code point, a proper prefix first. */
  predicate Less(a: string, b: string)
  {
    if a == [] then b != []
    else if b == [] then false
    else if a[0] != b[0] then a[0] < b[0]
    else Less(a[1..], b[1..])
  }

  lemma {:induction false} LessIrreflexive(a: string)
    ensures !Less(a, a)
  {
    if a != [] {
      LessIrreflexive(a[1..]);
    }
  }

  lemma {:induction false} LessAsymmetric(a: string, b: string)
    requires Less(a, b)
    ensures !Less(b, a)
  {
    if a != [] && b != [] && a[0] == b[0] {
      LessAsymmetric(a[1..], b[1..]);
    }
  }

  lemma {:induction false} LessTransitive(a: string, b: string, c: string)
    requires Less(a, b) && Less(b, c)
    ensures Less(a, c)
  {
    if a != [] && b != [] && c != [] && a[0] == b[0] && b[0] == c[0] {
      LessTransitive(a[1..], b[1..], c[1..]);
    }
  }

  lemma {:induction false} LessTotal(a: string, b: string)
    ensures a == b || Less(a, b) || Less(b, a)
  {
    if a != [] && b != [] && a[0] == b[0] {
      LessTotal(a[1..], b[1..]);
      if a[1..] == b[1..] {
        assert a == [a[0]] + a[1..] && b == [b[0]] + b[1..];
      }
    }
  }

  predicate StrictlySorted(s: seq<string>)
  {
    forall i, j | 0 <= i < j < |s| :: Less(s[i], s[j])
  }

  lemma SortedIsDistinct(s: seq<string>, i: nat, j: nat)
    requires StrictlySorted(s)
    requires i < |s| && j < |s| && i != j
    ensures s[i] != s[j]
  {
    if i < j {
      LessIrreflexive(s[i]);
    } else {
      LessIrreflexive(s[j]);
    }
  }

  /** Adds `x` to a strictly sorted list at its place, unless it is already there. */
  function Insert(s: seq<string>, x: string): (r: seq<string>)
    requires StrictlySorted(s)
    ensures StrictlySorted(r)
    ensures forall y :: y in r <==> y in s || y == x
  {
    if s == [] then [x]
    else if x == s[0] then s
    else if Less(x, s[0]) then
      (forall j | 0 <= j < |s| ensures Less(x, s[j]) {
         if j > 0 { LessTransitive(x, s[0], s[j]); }
       }
       [x] + s)
    else
      (LessTotal(x, s[0]);
       var rest := Insert(s[1..], x);
       assert forall y | y in rest :: Less(s[0], y);
       [s[0]] + rest)
  }

  /** The distinct strings of `xs` in ascending order. */
  function SortedDistinct(xs: seq<string>): (r: seq<string>)
    ensures StrictlySorted(r)
    ensures forall y :: y in r <==> y in xs
  {
    if xs == [] then []
    else
      var r := Insert(SortedDistinct(xs[..|xs| - 1]), xs[|xs| - 1]);
      assert xs == xs[..|xs| - 1] + [xs[|xs| - 1]];
      r
  }

  /** The position of `x` in `s`. */
  function IndexOf(s: seq<string>, x: string): (i: nat)
    requires x in s
    ensures i < |s| && s[i] == x
  {
    if s[0] == x then 0 else 1 + IndexOf(s[1..], x)
  }

  /** In a strictly sorted list, positions follow the order of the strings. */
  lemma IndexOfMonotonic(s: seq<string>, x: string, y: string)
    requires StrictlySorted(s) && x in s && y in s
    ensures Less(x, y) <==> IndexOf(s, x) < IndexOf(s, y)
    ensures x == y <==> IndexOf(s, x) == IndexOf(s, y)
  {
    var i, j := IndexOf(s, x), IndexOf(s, y);
    LessIrreflexive(x);
    if j < i {
      LessAsymmetric(y, x);
    }
    if i != j {
      SortedIsDistinct(s, i, j);
    }
  }
}
