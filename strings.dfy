/**
 * The operations on Python `str` values that the dataset relies on:
 * the `<` order on strings, `sorted(np.unique(...))` over a list of
 * strings, and `str.split(' ')`.
 */
module Strings {

  /** Python's `a < b` on `str`: lexicographic comparison by code point. */
  predicate Less(a: string, b: string)
    decreases |a|
  {
    if |a| == 0 then |b| > 0
    else if |b| == 0 then false
    else if a[0] != b[0] then a[0] < b[0]
    else Less(a[1..], b[1..])
  }

  lemma {:induction false} LessIrreflexive(a: string)
    ensures !Less(a, a)
    decreases |a|
  {
    if |a| > 0 {
      LessIrreflexive(a[1..]);
    }
  }

  lemma {:induction false} LessAsymmetric(a: string, b: string)
    requires Less(a, b)
    ensures !Less(b, a)
    decreases |a|
  {
    if |a| > 0 && |b| > 0 && a[0] == b[0] {
      LessAsymmetric(a[1..], b[1..]);
    }
  }

  lemma {:induction false} LessTransitive(a: string, b: string, c: string)
    requires Less(a, b) && Less(b, c)
    ensures Less(a, c)
    decreases |a|
  {
    if |a| > 0 && a[0] == b[0] && b[0] == c[0] {
      LessTransitive(a[1..], b[1..], c[1..]);
    }
  }

  lemma {:induction false} LessTotal(a: string, b: string)
    requires a != b
    ensures Less(a, b) || Less(b, a)
    decreases |a|
  {
    if |a| > 0 && |b| > 0 && a[0] == b[0] {
      assert a == [a[0]] + a[1..] && b == [b[0]] + b[1..];
      LessTotal(a[1..], b[1..]);
    }
  }

  /** Strictly increasing under `Less`: sorted, and therefore free of duplicates. */
  predicate StrictlySorted(xs: seq<string>)
  {
    forall i, j :: 0 <= i < j < |xs| ==> Less(xs[i], xs[j])
  }

  lemma ConsSorted(h: string, t: seq<string>)
    requires StrictlySorted(t)
    requires forall y :: y in t ==> Less(h, y)
    ensures StrictlySorted([h] + t)
  {
    forall i, j | 0 <= i < j < |[h] + t| ensures Less(([h] + t)[i], ([h] + t)[j]) {
      if i > 0 {
        assert ([h] + t)[i] == t[i - 1] && ([h] + t)[j] == t[j - 1];
      } else {
        assert ([h] + t)[j] == t[j - 1] && t[j - 1] in t;
      }
    }
  }

  lemma BelowHead(x: string, xs: seq<string>)
    requires StrictlySorted(xs) && |xs| > 0 && Less(x, xs[0])
    ensures forall y :: y in xs ==> Less(x, y)
  {
    forall y | y in xs ensures Less(x, y) {
      var j :| 0 <= j < |xs| && xs[j] == y;
      if j > 0 {
        LessTransitive(x, xs[0], y);
      }
    }
  }

  lemma HeadBelow(xs: seq<string>, x: string, r: seq<string>)
    requires StrictlySorted(xs) && |xs| > 0 && Less(xs[0], x)
    requires forall y :: y in r <==> y in xs[1..] || y == x
    ensures forall y :: y in r ==> Less(xs[0], y)
  {
    forall y | y in r ensures Less(xs[0], y) {
      if y in xs[1..] {
        var j :| 0 <= j < |xs[1..]| && xs[1..][j] == y;
        assert xs[j + 1] == y;
      }
    }
  }

  lemma TailMembers(xs: seq<string>, y: string)
    requires StrictlySorted(xs) && |xs| > 0
    ensures y in xs[1..] <==> y in xs && y != xs[0]
  {
    if y in xs[1..] {
      var j :| 0 <= j < |xs[1..]| && xs[1..][j] == y;
      assert xs[j + 1] == y;
      LessIrreflexive(xs[0]);
    }
    if y in xs && y != xs[0] {
      var j :| 0 <= j < |xs| && xs[j] == y;
      assert xs[1..][j - 1] == y;
    }
  }

  /** Places `x` into the strictly sorted `xs` unless it is already there. */
  function Insert(xs: seq<string>, x: string): (r: seq<string>)
    requires StrictlySorted(xs)
    ensures StrictlySorted(r)
    ensures forall y :: y in r <==> y in xs || y == x
    decreases |xs|
  {
    if xs == [] then [x]
    else if x == xs[0] then xs
    else if Less(x, xs[0]) then
      BelowHead(x, xs);
      ConsSorted(x, xs);
      [x] + xs
    else
      LessTotal(x, xs[0]);
      var rest := Insert(xs[1..], x);
      HeadBelow(xs, x, rest);
      ConsSorted(xs[0], rest);
      assert xs == [xs[0]] + xs[1..];
      [xs[0]] + rest
  }

  /**
   * `sorted(np.unique(xs))`: the distinct strings of `xs` in increasing order.
   * `SortedUniqueDetermined` shows that no other sequence has both properties.
   */
  function SortedUnique(xs: seq<string>): (r: seq<string>)
    ensures StrictlySorted(r)
    ensures forall y :: y in r <==> y in xs
    decreases |xs|
  {
    if xs == [] then []
    else
      assert xs == xs[..|xs| - 1] + [xs[|xs| - 1]];
      Insert(SortedUnique(xs[..|xs| - 1]), xs[|xs| - 1])
  }

  /** Two strictly sorted sequences with the same elements are equal. */
  lemma {:induction false} SortedUniqueDetermined(a: seq<string>, b: seq<string>)
    requires StrictlySorted(a) && StrictlySorted(b)
    requires forall y :: y in a <==> y in b
    ensures a == b
    decreases |a|
  {
    if a != [] {
      assert a[0] in a;
    }
    if b != [] {
      assert b[0] in b;
    }
    if a != [] && b != [] {
      if a[0] != b[0] {
        var i :| 0 <= i < |a| && a[i] == b[0];
        var j :| 0 <= j < |b| && b[j] == a[0];
        assert i > 0 && j > 0;
        LessAsymmetric(a[0], b[0]);
        assert false;
      }
      forall y ensures y in a[1..] <==> y in b[1..] {
        TailMembers(a, y);
        TailMembers(b, y);
      }
      SortedUniqueDetermined(a[1..], b[1..]);
      assert a == [a[0]] + a[1..] && b == [b[0]] + b[1..];
    }
  }

  /** Python's `s.split(' ')`: the pieces between single spaces, never an empty list. */
  function SplitOnSpace(s: string): (parts: seq<string>)
    ensures |parts| >= 1
    ensures forall p :: p in parts ==> ' ' !in p
    decreases |s|
  {
    if s == [] then [""]
    else
      var rest := SplitOnSpace(s[1..]);
      if s[0] == ' ' then [""] + rest
      else [[s[0]] + rest[0]] + rest[1..]
  }

  /** Python's `' '.join(parts)`. */
  function JoinWithSpace(parts: seq<string>): string
    requires |parts| >= 1
    decreases |parts|
  {
    if |parts| == 1 then parts[0] else parts[0] + " " + JoinWithSpace(parts[1..])
  }

  /** Splitting on spaces loses nothing: joining the pieces gives back the string. */
  lemma {:induction false} JoinAfterSplit(s: string)
    ensures JoinWithSpace(SplitOnSpace(s)) == s
    decreases |s|
  {
    if s != [] {
      JoinAfterSplit(s[1..]);
      var rest := SplitOnSpace(s[1..]);
      if s[0] == ' ' {
        assert ([""] + rest)[1..] == rest;
        assert s == [' '] + s[1..];
      } else {
        var parts := [[s[0]] + rest[0]] + rest[1..];
        if |rest| > 1 {
          assert parts[1..] == rest[1..];
        }
        assert s == [s[0]] + s[1..];
      }
    }
  }

  lemma {:induction false} SplitWithPrefix(p: string, t: string)
    requires ' ' !in p
    ensures SplitOnSpace(p + t) == [p + SplitOnSpace(t)[0]] + SplitOnSpace(t)[1..]
    decreases |p|
  {
    if p != [] {
      assert (p + t)[1..] == p[1..] + t;
      assert ' ' !in p[1..];
      SplitWithPrefix(p[1..], t);
      assert [p[0]] + (p[1..] + SplitOnSpace(t)[0]) == p + SplitOnSpace(t)[0];
    } else {
      var st := SplitOnSpace(t);
      assert p + t == t;
      assert p + st[0] == st[0];
      assert st == [st[0]] + st[1..];
    }
  }

  /** Joining space-free pieces and splitting again gives back the pieces. */
  lemma {:induction false} SplitAfterJoin(parts: seq<string>)
    requires |parts| >= 1
    requires forall p :: p in parts ==> ' ' !in p
    ensures SplitOnSpace(JoinWithSpace(parts)) == parts
    decreases |parts|
  {
    assert parts[0] in parts;
    if |parts| == 1 {
      SplitWithPrefix(parts[0], "");
      assert parts[0] + "" == parts[0];
    } else {
      var tail := JoinWithSpace(parts[1..]);
      assert forall p :: p in parts[1..] ==> p in parts;
      SplitAfterJoin(parts[1..]);
      assert parts[0] + " " + tail == parts[0] + (" " + tail);
      SplitWithPrefix(parts[0], " " + tail);
      assert (" " + tail)[1..] == tail;
      assert SplitOnSpace(" " + tail) == [""] + parts[1..];
      assert parts[0] + "" == parts[0];
      assert parts == [parts[0]] + parts[1..];
    }
  }
}
