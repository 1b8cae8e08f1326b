/** `split` and `join` on a separator, as the readers of append-only logs use them. */
module Lines {

  /** Python's `s.split(sep)`: one part more than there are separators. */
  function Split<T(==)>(s: seq<T>, sep: T): (parts: seq<seq<T>>)
    ensures |parts| >= 1
    ensures forall i | 0 <= i < |parts| :: sep !in parts[i]
  {
    if s == [] then [[]]
    else if s[0] == sep then [[]] + Split(s[1..], sep)
    else
      var rest := Split(s[1..], sep);
      [[s[0]] + rest[0]] + rest[1..]
  }

  /** Python's `sep.join(parts)`. */
  function Join<T>(parts: seq<seq<T>>, sep: T): seq<T> {
    if |parts| == 0 then []
    else if |parts| == 1 then parts[0]
    else parts[0] + [sep] + Join(parts[1..], sep)
  }

  lemma {:induction false} JoinSplit<T>(s: seq<T>, sep: T)
    ensures Join(Split(s, sep), sep) == s
  {
    if s == [] {
    } else {
      JoinSplit(s[1..], sep);
      var rest := Split(s[1..], sep);
      if s[0] == sep {
        assert Split(s, sep)[1..] == rest;
        assert s == [sep] + s[1..];
      } else {
        assert Split(s, sep) == [[s[0]] + rest[0]] + rest[1..];
        assert s == [s[0]] + s[1..];
      }
    }
  }

  /** A part without separators in front of `[sep] + s` is exactly the first part of the split. */
  lemma {:induction false} SplitCons<T>(part: seq<T>, s: seq<T>, sep: T)
    requires sep !in part
    ensures Split(part + [sep] + s, sep) == [part] + Split(s, sep)
  {
    var t := part + [sep] + s;
    if part == [] {
      assert t[1..] == s;
    } else {
      assert t[1..] == part[1..] + [sep] + s;
      SplitCons(part[1..], s, sep);
      var rest := Split(t[1..], sep);
      assert rest == [part[1..]] + Split(s, sep);
      assert Split(t, sep) == [[t[0]] + rest[0]] + rest[1..];
      assert [t[0]] + rest[0] == part;
      assert rest[1..] == Split(s, sep);
    }
  }

  lemma {:induction false} SplitWhole<T>(part: seq<T>, sep: T)
    requires sep !in part
    ensures Split(part, sep) == [part]
  {
    if part == [] {
    } else {
      SplitWhole(part[1..], sep);
      assert [part[0]] + part[1..] == part;
    }
  }

  lemma {:induction false} SplitJoin<T>(parts: seq<seq<T>>, sep: T)
    requires |parts| >= 1
    requires forall i | 0 <= i < |parts| :: sep !in parts[i]
    ensures Split(Join(parts, sep), sep) == parts
  {
    if |parts| == 1 {
      SplitWhole(parts[0], sep);
    } else {
      SplitJoin(parts[1..], sep);
      SplitCons(parts[0], Join(parts[1..], sep), sep);
      assert [parts[0]] + parts[1..] == parts;
    }
  }

  lemma {:induction false} JoinConcat<T>(a: seq<seq<T>>, b: seq<seq<T>>, sep: T)
    requires a != [] && b != []
    ensures Join(a + b, sep) == Join(a, sep) + [sep] + Join(b, sep)
  {
    if |a| == 1 {
      assert (a + b)[1..] == b;
    } else {
      assert (a + b)[1..] == a[1..] + b;
      JoinConcat(a[1..], b, sep);
    }
  }

  /** The parts one after the other, a separator after each: a file of complete lines. */
  function Unlines<T>(parts: seq<seq<T>>, sep: T): seq<T> {
    if parts == [] then [] else parts[0] + [sep] + Unlines(parts[1..], sep)
  }

  lemma {:induction false} UnlinesConcat<T>(a: seq<seq<T>>, b: seq<seq<T>>, sep: T)
    ensures Unlines(a + b, sep) == Unlines(a, sep) + Unlines(b, sep)
  {
    if a == [] {
      assert a + b == b;
    } else {
      UnlinesConcat(a[1..], b, sep);
      assert (a + b)[1..] == a[1..] + b;
      var first, rest, more := a[0] + [sep], Unlines(a[1..], sep), Unlines(b, sep);
      assert first + (rest + more) == first + rest + more;
    }
  }

  lemma UnlinesOne<T>(part: seq<T>, sep: T)
    ensures Unlines([part], sep) == part + [sep]
  {
    assert [part][1..] == [];
    assert part + [sep] + [] == part + [sep];
  }

  /** Complete lines without separators are read back, with an empty part behind the last one. */
  lemma {:induction false} UnlinesSplits<T>(parts: seq<seq<T>>, sep: T)
    requires forall i | 0 <= i < |parts| :: sep !in parts[i]
    ensures Split(Unlines(parts, sep), sep) == parts + [[]]
  {
    if parts == [] {
    } else {
      UnlinesSplits(parts[1..], sep);
      SplitCons(parts[0], Unlines(parts[1..], sep), sep);
      assert [parts[0]] + (parts[1..] + [[]]) == parts + [[]];
    }
  }

  /** A join is the complete lines of all parts but the last, and the last. */
  lemma {:induction false} JoinIsUnlines<T>(parts: seq<seq<T>>, sep: T)
    requires parts != []
    ensures Join(parts, sep) == Unlines(parts[..|parts| - 1], sep) + parts[|parts| - 1]
  {
    var n := |parts| - 1;
    if n == 0 {
      assert [] + parts[0] == parts[0];
    } else {
      var rest := parts[1..];
      JoinIsUnlines(rest, sep);
      assert parts[..n][1..] == rest[..n - 1];
      Associate(parts[0] + [sep], Unlines(rest[..n - 1], sep), parts[n]);
    }
  }

  lemma Associate<T>(a: seq<T>, b: seq<T>, c: seq<T>)
    ensures a + b + c == a + (b + c)
  {
  }

  /** What ends with a separator, or is empty, is its complete lines. */
  lemma UnlinesOfSplit<T>(s: seq<T>, sep: T)
    ensures var parts := Split(s, sep);
            Unlines(parts[..|parts| - 1], sep) + parts[|parts| - 1] == s
  {
    hide Split, Join, Unlines;
    JoinSplit(s, sep);
    JoinIsUnlines(Split(s, sep), sep);
  }

  lemma {:induction false} UnlinesLength<T>(parts: seq<seq<T>>, sep: T, limit: nat)
    requires forall i | 0 <= i < |parts| :: |parts[i]| + 1 <= limit
    ensures |Unlines(parts, sep)| <= |parts| * limit
  {
    if parts == [] {
    } else {
      UnlinesLength(parts[1..], sep, limit);
      assert |parts| * limit == limit + (|parts| - 1) * limit;
    }
  }
}
