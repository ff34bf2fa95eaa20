/**
 * Helpers on sequences and strings shared by the modules of this model:
 * duplicate-free lists, removal of one value, and the `split`/`join` pair of
 * JavaScript strings.
 */
module Sequences {

  /** No value occurs twice. */
  predicate Distinct<T(==)>(s: seq<T>) {
    forall i, j :: 0 <= i < j < |s| ==> s[i] != s[j]
  }

  /** `s` without `x`, the others in order. */
  function Without<T(==,!new)>(s: seq<T>, x: T): (r: seq<T>)
    ensures forall y :: y in r <==> y in s && y != x
    ensures x !in s ==> r == s
    ensures Distinct(s) ==> Distinct(r)
  {
    if s == [] then []
    else
      var rest := Without(s[1..], x);
      assert forall y :: y in s <==> y == s[0] || y in s[1..];
      assert Distinct(s) ==> Distinct(s[1..]) && s[0] !in s[1..];
      assert s == [s[0]] + s[1..];
      if s[0] == x then rest else [s[0]] + rest
  }

  // ---------------------------------------------------------------------------
  // subsequences

  /** `a` can be obtained from `b` by deleting elements. */
  predicate IsSubsequence<T(==)>(a: seq<T>, b: seq<T>)
    decreases |b|
  {
    if a == [] then true
    else if b == [] then false
    else (a[0] == b[0] && IsSubsequence(a[1..], b[1..])) || IsSubsequence(a, b[1..])
  }

  /** Deleting elements adds none, and keeps a sequence without repeats
      without repeats. */
  lemma {:induction false} SubsequenceOf<T>(a: seq<T>, b: seq<T>)
    requires IsSubsequence(a, b)
    ensures forall x :: x in a ==> x in b
    ensures Distinct(b) ==> Distinct(a)
    decreases |b|
  {
    if a != [] {
      if a[0] == b[0] && IsSubsequence(a[1..], b[1..]) {
        SubsequenceOf(a[1..], b[1..]);
        assert forall x :: x in a <==> x == a[0] || x in a[1..];
        if Distinct(b) {
          assert Distinct(b[1..]) && b[0] !in b[1..];
          forall i, j | 0 <= i < j < |a| ensures a[i] != a[j] {
            if i == 0 {
              assert a[j] == a[1..][j - 1];
            } else {
              assert a[i] == a[1..][i - 1] && a[j] == a[1..][j - 1];
            }
          }
        }
      } else {
        SubsequenceOf(a, b[1..]);
        assert Distinct(b) ==> Distinct(b[1..]);
      }
    }
  }

  /** In a sequence without repeats, a subsequence is fixed by which values
      it keeps: the in-order selection of a set of values is unique. */
  lemma {:induction false} SubsequenceUnique<T>(a1: seq<T>, a2: seq<T>, b: seq<T>)
    requires Distinct(b) && IsSubsequence(a1, b) && IsSubsequence(a2, b)
    requires forall x :: x in a1 <==> x in a2
    ensures a1 == a2
    decreases |b|
  {
    if b != [] {
      assert Distinct(b[1..]) && b[0] !in b[1..];
      var rest1 := SkipHead(a1, b);
      var rest2 := SkipHead(a2, b);
      forall x ensures x in rest1 <==> x in rest2 {
        if b[0] in a1 {
          assert x in rest1 <==> x in a1 && x != b[0];
          assert x in rest2 <==> x in a2 && x != b[0];
        }
      }
      SubsequenceUnique(rest1, rest2, b[1..]);
      if b[0] in a1 {
        assert a1 == [b[0]] + rest1 && a2 == [b[0]] + rest2;
      }
    }
  }

  /** What a subsequence of a repeat-free `b` keeps of `b[1..]`: all of it
      when it skips `b[0]`, the rest after `b[0]` otherwise. */
  lemma SkipHead<T>(a: seq<T>, b: seq<T>) returns (rest: seq<T>)
    requires b != [] && Distinct(b) && IsSubsequence(a, b)
    ensures IsSubsequence(rest, b[1..])
    ensures b[0] in a ==> a == [b[0]] + rest
    ensures b[0] !in a ==> rest == a
    ensures forall x :: x in rest <==> x in a && x != b[0]
  {
    assert Distinct(b[1..]) && b[0] !in b[1..];
    if a != [] && a[0] == b[0] && IsSubsequence(a[1..], b[1..]) {
      rest := a[1..];
      SubsequenceOf(a[1..], b[1..]);
      assert a == [b[0]] + rest;
    } else {
      rest := a;
      SubsequenceOf(a, b[1..]);
    }
  }

  // ---------------------------------------------------------------------------
  // split and join

  /** Splits at every occurrence of `sep`, as `String.prototype.split` with a
      one-character separator; an empty string gives one empty part. */
  function Split(s: string, sep: char): (parts: seq<string>)
    ensures |parts| >= 1
    ensures forall p :: p in parts ==> sep !in p
  {
    if |s| == 0 then [""]
    else if s[0] == sep then [""] + Split(s[1..], sep)
    else
      var rest := Split(s[1..], sep);
      [[s[0]] + rest[0]] + rest[1..]
  }

  /** Concatenates the parts with `sep` between neighbours, as
      `Array.prototype.join`. */
  function Join(parts: seq<string>, sep: string): string {
    if |parts| == 0 then ""
    else if |parts| == 1 then parts[0]
    else parts[0] + sep + Join(parts[1..], sep)
  }

  /** Joining what a split produced gives back the original string. */
  lemma {:induction false} JoinSplit(s: string, sep: char)
    ensures Join(Split(s, sep), [sep]) == s
  {
    if |s| == 0 {
    } else if s[0] == sep {
      var rest := Split(s[1..], sep);
      JoinSplit(s[1..], sep);
      var parts := [""] + rest;
      assert parts[1..] == rest;
      assert Join(parts, [sep]) == "" + [sep] + Join(rest, [sep]);
      assert s == [sep] + s[1..];
    } else {
      var rest := Split(s[1..], sep);
      JoinSplit(s[1..], sep);
      var head := [s[0]] + rest[0];
      var parts := [head] + rest[1..];
      assert s == [s[0]] + s[1..];
      if |rest| == 1 {
        assert parts == [head];
        assert Join(rest, [sep]) == rest[0];
      } else {
        assert parts[1..] == rest[1..];
        assert Join(parts, [sep]) == head + [sep] + Join(rest[1..], [sep]);
        assert Join(rest, [sep]) == rest[0] + [sep] + Join(rest[1..], [sep]);
      }
    }
  }

  /** The first part of a split is the whole string iff it has no separator,
      and empty iff the string is empty or starts with the separator. */
  lemma {:induction false} SplitHead(s: string, sep: char)
    ensures Split(s, sep)[0] == s <==> sep !in s
    ensures Split(s, sep)[0] == "" <==> |s| == 0 || s[0] == sep
  {
    if |s| > 0 && s[0] != sep {
      SplitHead(s[1..], sep);
    }
  }

  /** The first part of a split ends at the first separator. */
  lemma {:induction false} SplitFirst(s: string, sep: char, i: nat)
    requires i < |s| && s[i] == sep && sep !in s[..i]
    ensures Split(s, sep)[0] == s[..i]
  {
    if i > 0 {
      assert s[0] in s[..i];
      assert s[1..][..i - 1] == s[1..i];
      assert sep !in s[1..][..i - 1];
      SplitFirst(s[1..], sep, i - 1);
      assert s[..i] == [s[0]] + s[1..i];
    }
  }

  /** A part without the separator, the separator, then the rest: the part
      comes first and the rest is split on its own. */
  lemma {:induction false} SplitAfterPart(p: string, sep: char, t: string)
    requires sep !in p
    ensures Split(p + [sep] + t, sep) == [p] + Split(t, sep)
  {
    var s := p + [sep] + t;
    if p == [] {
      assert s == [sep] + t;
      assert s[1..] == t;
    } else {
      assert p[0] in p;
      assert sep !in p[1..] by { assert forall x :: x in p[1..] ==> x in p; }
      assert s[1..] == p[1..] + [sep] + t;
      SplitAfterPart(p[1..], sep, t);
      assert p == [p[0]] + p[1..];
    }
  }

  /** A string without the separator splits into itself alone. */
  lemma {:induction false} SplitNoSeparator(p: string, sep: char)
    requires sep !in p
    ensures Split(p, sep) == [p]
  {
    if p != [] {
      assert p[0] in p;
      assert sep !in p[1..] by { assert forall x :: x in p[1..] ==> x in p; }
      SplitNoSeparator(p[1..], sep);
      assert p == [p[0]] + p[1..];
    }
  }

  /** Splitting joined parts at the separator gives the parts back, as long
      as no part contains the separator. */
  lemma {:induction false} SplitJoin(parts: seq<string>, sep: char)
    requires parts != [] && forall i :: 0 <= i < |parts| ==> sep !in parts[i]
    ensures Split(Join(parts, [sep]), sep) == parts
  {
    if |parts| == 1 {
      SplitNoSeparator(parts[0], sep);
    } else {
      var rest := parts[1..];
      SplitJoin(rest, sep);
      SplitAfterPart(parts[0], sep, Join(rest, [sep]));
      assert parts == [parts[0]] + rest;
    }
  }

  /** A character in neither the parts nor the separator is not in the
      joined string. */
  lemma {:induction false} NotInJoin(parts: seq<string>, sep: string, c: char)
    requires c !in sep && forall i :: 0 <= i < |parts| ==> c !in parts[i]
    ensures c !in Join(parts, sep)
  {
    if |parts| > 1 {
      NotInJoin(parts[1..], sep, c);
    }
  }
}
