/** Go's string order and sort.Strings, on strings of code points. */
module StringOrder {
  predicate Less(a: string, b: string) {
    b != [] && (a == [] || a[0] < b[0] || (a[0] == b[0] && Less(a[1..], b[1..])))
  }

  /** The strings are the same up to `i`, where `a` has the smaller character. */
  predicate SmallerAt(a: string, b: string, i: nat) {
    i < |a| && i < |b| && a[..i] == b[..i] && a[i] < b[i]
  }

  lemma SameStart(a: string, b: string, i: nat)
    requires 0 < i <= |a| && i <= |b| && a[..i] == b[..i]
    ensures a[0] == b[0]
  {
    assert a[0] == a[..i][0];
  }

  /** Dictionary order: a proper prefix comes first, otherwise the first difference decides. */
  lemma {:induction false} LessIff(a: string, b: string)
    ensures Less(a, b) <==> a < b || exists i: nat :: SmallerAt(a, b, i)
  {
    if a != [] && b != [] && a[0] == b[0] {
      var a', b' := a[1..], b[1..];
      LessIff(a', b');
      assert a == [a[0]] + a' && b == [b[0]] + b';
      assert a < b <==> a' < b';
      if i: nat :| SmallerAt(a', b', i) {
        assert a[..i + 1] == [a[0]] + a'[..i] && b[..i + 1] == [b[0]] + b'[..i];
        assert SmallerAt(a, b, i + 1);
      }
      if i: nat :| SmallerAt(a, b, i) {
        assert a'[..i - 1] == a[..i][1..] && b'[..i - 1] == b[..i][1..];
        assert SmallerAt(a', b', i - 1);
      }
    } else if a != [] && b != [] {
      if a[0] < b[0] { assert SmallerAt(a, b, 0); }
      forall i: nat | SmallerAt(a, b, i) ensures i == 0 {
        if i > 0 { SameStart(a, b, i); }
      }
    }
  }

  predicate LessEq(a: string, b: string) {
    a == b || Less(a, b)
  }

  lemma {:induction false} Total(a: string, b: string)
    ensures a == b || Less(a, b) || Less(b, a)
    ensures Less(a, b) ==> a != b && !Less(b, a)
  {
    if a != [] && b != [] && a[0] == b[0] {
      Total(a[1..], b[1..]);
      assert a == [a[0]] + a[1..] && b == [b[0]] + b[1..];
    }
  }

  lemma {:induction false} Transitive(a: string, b: string, c: string)
    requires Less(a, b) && Less(b, c)
    ensures Less(a, c)
  {
    if a != [] && a[0] == b[0] == c[0] {
      Transitive(a[1..], b[1..], c[1..]);
    }
  }

  predicate StrictlyAscending(xs: seq<string>) {
    forall i, j | 0 <= i < j < |xs| :: Less(xs[i], xs[j])
  }

  /** Places `x` before the first greater element. */
  function Insert(x: string, xs: seq<string>): seq<string> {
    if xs == [] then [x]
    else if LessEq(x, xs[0]) then [x] + xs
    else [xs[0]] + Insert(x, xs[1..])
  }

  /** sort.Strings. */
  function SortStrings(xs: seq<string>): seq<string> {
    if xs == [] then [] else Insert(xs[0], SortStrings(xs[1..]))
  }

  lemma {:induction false} InsertMembers(x: string, xs: seq<string>, y: string)
    ensures y in Insert(x, xs) <==> y == x || y in xs
  {
    if xs != [] {
      InsertMembers(x, xs[1..], y);
      assert y in xs <==> y == xs[0] || y in xs[1..];
    }
  }

  lemma PrependSorted(x: string, xs: seq<string>)
    requires StrictlyAscending(xs) && forall y | y in xs :: Less(x, y)
    ensures StrictlyAscending([x] + xs)
  {
  }

  lemma {:induction false} InsertSorted(x: string, xs: seq<string>)
    requires StrictlyAscending(xs) && x !in xs
    ensures StrictlyAscending(Insert(x, xs))
  {
    if xs != [] {
      if LessEq(x, xs[0]) {
        forall y | y in xs ensures Less(x, y) {
          if y != xs[0] { Transitive(x, xs[0], y); }
        }
        PrependSorted(x, xs);
      } else {
        Total(x, xs[0]);
        InsertSorted(x, xs[1..]);
        forall y | y in Insert(x, xs[1..]) ensures Less(xs[0], y) { InsertMembers(x, xs[1..], y); }
        PrependSorted(xs[0], Insert(x, xs[1..]));
      }
    }
  }

  /** `xs` lists each element of `s` once. */
  ghost predicate Enumerates(xs: seq<string>, s: set<string>) {
    (forall x :: x in xs <==> x in s) && forall i, j | 0 <= i < j < |xs| :: xs[i] != xs[j]
  }

  /** Sorting an enumeration of a set gives a strictly ascending one. */
  lemma {:induction false} SortEnumerates(xs: seq<string>, s: set<string>)
    requires Enumerates(xs, s)
    ensures Enumerates(SortStrings(xs), s) && StrictlyAscending(SortStrings(xs))
  {
    if xs != [] {
      EnumeratesTail(xs, s);
      SortEnumerates(xs[1..], s - {xs[0]});
      InsertSorted(xs[0], SortStrings(xs[1..]));
      assert xs[0] in s;
      forall y ensures y in SortStrings(xs) <==> y in s { InsertMembers(xs[0], SortStrings(xs[1..]), y); }
      forall i, j | 0 <= i < j < |SortStrings(xs)| ensures SortStrings(xs)[i] != SortStrings(xs)[j] {
        Total(SortStrings(xs)[i], SortStrings(xs)[j]);
      }
    }
  }

  /** There is only one strictly ascending enumeration of a set. */
  lemma {:induction false} SortedUnique(xs: seq<string>, ys: seq<string>, s: set<string>)
    requires Enumerates(xs, s) && Enumerates(ys, s)
    requires StrictlyAscending(xs) && StrictlyAscending(ys)
    ensures xs == ys
    decreases |xs|
  {
    if ys != [] { assert ys[0] in s; }
    if xs != [] {
      assert xs[0] in s;
      var j :| 0 <= j < |ys| && ys[j] == xs[0];
      var i :| 0 <= i < |xs| && xs[i] == ys[0];
      Total(xs[0], ys[0]);
      EnumeratesTail(xs, s);
      EnumeratesTail(ys, s);
      SortedUnique(xs[1..], ys[1..], s - {xs[0]});
      assert xs == [xs[0]] + xs[1..] && ys == [ys[0]] + ys[1..];
    }
  }

  lemma EnumeratesTail(xs: seq<string>, s: set<string>)
    requires Enumerates(xs, s) && xs != []
    ensures Enumerates(xs[1..], s - {xs[0]})
  {
  }

  /** Collects a set's elements in arbitrary order, as ranging over a Go map does, and sorts them. */
  method SortedKeys(s: set<string>) returns (xs: seq<string>)
    ensures Enumerates(xs, s) && StrictlyAscending(xs)
  {
    xs := [];
    var rest := s;
    while rest != {}
      invariant rest <= s && Enumerates(xs, s - rest)
      decreases rest
    {
      var x :| x in rest;
      xs := xs + [x];
      rest := rest - {x};
    }
    assert s - rest == s;
    SortEnumerates(xs, s);
    xs := SortStrings(xs);
  }
}
