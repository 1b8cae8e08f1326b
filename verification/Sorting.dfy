/** The order of strings, and Python's `sorted` with a string key. */
module Sorting {

  /** The lexicographic order of code sequences. */
  predicate Before(a: seq<int>, b: seq<int>) {
    b != [] && (a == [] || a[0] < b[0] || (a[0] == b[0] && Before(a[1..], b[1..])))
  }

  /** `a` is a proper prefix of `b`, or is smaller in the first code that differs. */
  ghost predicate Precedes(a: seq<int>, b: seq<int>) {
    exists k :: DiffersAt(a, b, k)
  }

  /** The sequences agree on their first `k` codes, and there `a` ends or is smaller. */
  predicate DiffersAt(a: seq<int>, b: seq<int>, k: int) {
    0 <= k <= |a| && k < |b| && a[..k] == b[..k] && (k == |a| || a[k] < b[k])
  }

  lemma {:induction false} FirstDifference(a: seq<int>, b: seq<int>) returns (k: nat)
    requires Before(a, b)
    ensures DiffersAt(a, b, k)
  {
    if a == [] || a[0] < b[0] {
      k := 0;
    } else {
      k := FirstDifference(a[1..], b[1..]);
      k := k + 1;
      assert a[..k] == [a[0]] + a[1..][..k - 1] && b[..k] == [b[0]] + b[1..][..k - 1];
    }
  }

  lemma {:induction false} DifferenceIsBefore(a: seq<int>, b: seq<int>, k: nat)
    requires DiffersAt(a, b, k)
    ensures Before(a, b)
  {
    if k > 0 {
      assert a[..k][0] == b[..k][0];
      assert a[1..][..k - 1] == a[..k][1..] && b[1..][..k - 1] == b[..k][1..];
      DifferenceIsBefore(a[1..], b[1..], k - 1);
    }
  }

  /** The order is decided by the first code that differs. */
  lemma BeforeIsFirstDifference(a: seq<int>, b: seq<int>)
    ensures Before(a, b) <==> Precedes(a, b)
  {
    hide Before, DiffersAt;
    if Before(a, b) { var k := FirstDifference(a, b); }
    if k: int :| DiffersAt(a, b, k) {
      DifferenceAt(a, b, k);
      DifferenceIsBefore(a, b, k);
    }
  }

  lemma DifferenceAt(a: seq<int>, b: seq<int>, k: int)
    requires DiffersAt(a, b, k)
    ensures k >= 0
  {
  }

  lemma {:induction false} BeforeTransitive(a: seq<int>, b: seq<int>, c: seq<int>)
    requires Before(a, b) && Before(b, c)
    ensures Before(a, c)
  {
    if a != [] && a[0] == b[0] == c[0] { BeforeTransitive(a[1..], b[1..], c[1..]); }
  }

  lemma {:induction false} BeforeTotal(a: seq<int>, b: seq<int>)
    ensures a == b || Before(a, b) || Before(b, a)
    ensures !(Before(a, b) && Before(b, a)) && !Before(a, a)
    decreases |a| + |b|
  {
    if a != [] { BeforeIrreflexive(a); }
    if a != [] && b != [] && a[0] == b[0] {
      BeforeTotal(a[1..], b[1..]);
      if a[1..] == b[1..] { assert a == [a[0]] + a[1..] == [b[0]] + b[1..] == b; }
    }
  }

  lemma {:induction false} BeforeIrreflexive(a: seq<int>)
    ensures !Before(a, a)
  {
    if a != [] { BeforeIrreflexive(a[1..]); }
  }

  function Codes(s: string): seq<int> { seq(|s|, i requires 0 <= i < |s| => s[i] as int) }

  /** The order of strings, character by character. */
  predicate Below(a: string, b: string) { Before(Codes(a), Codes(b)) }

  function InsertBy<T>(x: T, xs: seq<T>, key: T -> string): seq<T> {
    if xs == [] || !Below(key(xs[0]), key(x)) then [x] + xs else [xs[0]] + InsertBy(x, xs[1..], key)
  }

  /** The elements in the order of their keys. */
  function SortBy<T>(xs: seq<T>, key: T -> string): seq<T> {
    if xs == [] then [] else InsertBy(xs[0], SortBy(xs[1..], key), key)
  }

  predicate InOrder<T>(xs: seq<T>, key: T -> string) {
    forall i, j | 0 <= i < j < |xs| :: !Below(key(xs[j]), key(xs[i]))
  }

  lemma BelowOrders(a: string, b: string, c: string)
    ensures !(Below(a, b) && Below(b, a)) && !Below(a, a)
    ensures !Below(b, a) && !Below(c, b) ==> !Below(c, a)
  {
    BeforeTotal(Codes(a), Codes(b));
    BeforeTotal(Codes(b), Codes(c));
    if Before(Codes(c), Codes(a)) && Before(Codes(a), Codes(b)) { BeforeTransitive(Codes(c), Codes(a), Codes(b)); }
  }

  lemma {:induction false} InsertAdds<T>(x: T, xs: seq<T>, key: T -> string)
    ensures multiset(InsertBy(x, xs, key)) == multiset(xs) + multiset{x}
    ensures forall y | y in InsertBy(x, xs, key) :: y == x || y in xs
  {
    if xs == [] || !Below(key(xs[0]), key(x)) {
    } else {
      InsertAdds(x, xs[1..], key);
      assert xs == [xs[0]] + xs[1..];
    }
  }

  lemma {:induction false} InsertOrders<T>(x: T, xs: seq<T>, key: T -> string)
    requires InOrder(xs, key)
    ensures InOrder(InsertBy(x, xs, key), key)
  {
    if xs == [] {
    } else if !Below(key(xs[0]), key(x)) {
      forall j | 0 <= j < |xs| ensures !Below(key(xs[j]), key(x)) {
        BelowOrders(key(x), key(xs[0]), key(xs[j]));
      }
    } else {
      InsertOrders(x, xs[1..], key);
      InsertAdds(x, xs[1..], key);
      var rest := InsertBy(x, xs[1..], key);
      forall j | 0 <= j < |rest| ensures !Below(key(rest[j]), key(xs[0])) {
        BelowOrders(key(xs[0]), key(x), key(x));
        if rest[j] != x { assert rest[j] in xs[1..]; }
      }
    }
  }

  /** Sorting loses nothing, adds nothing, and puts the keys in order. */
  lemma {:induction false} SortByOrders<T>(xs: seq<T>, key: T -> string)
    ensures InOrder(SortBy(xs, key), key) && multiset(SortBy(xs, key)) == multiset(xs)
  {
    if xs != [] {
      SortByOrders(xs[1..], key);
      InsertOrders(xs[0], SortBy(xs[1..], key), key);
      InsertAdds(xs[0], SortBy(xs[1..], key), key);
      assert xs == [xs[0]] + xs[1..];
    }
  }

  /** Sorted keys are equal or increase in their first differing character. */
  lemma SortedKeysIncrease<T>(xs: seq<T>, key: T -> string, i: nat, j: nat)
    requires i < j < |xs|
    ensures |SortBy(xs, key)| == |xs|
    ensures var a, b := key(SortBy(xs, key)[i]), key(SortBy(xs, key)[j]);
            a == b || Precedes(Codes(a), Codes(b))
  {
    SortByOrders(xs, key);
    var sorted := SortBy(xs, key);
    assert |multiset(sorted)| == |multiset(xs)|;
    var a, b := key(sorted[i]), key(sorted[j]);
    BeforeTotal(Codes(a), Codes(b));
    BeforeIsFirstDifference(Codes(a), Codes(b));
    if Codes(a) == Codes(b) { SameCodes(a, b); }
  }

  lemma SameCodes(a: string, b: string)
    requires Codes(a) == Codes(b)
    ensures a == b
  {
    forall i | 0 <= i < |a| ensures a[i] == b[i] { assert Codes(a)[i] == Codes(b)[i]; }
  }
}
