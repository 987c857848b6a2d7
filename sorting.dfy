/** `Array.prototype.sort()` with no comparator on an array of strings: the strings in
    ascending `Strings.Less` order. */
module Sorting {
  import opened Strings

  predicate Sorted(s: seq<string>) {
    forall i, j :: 0 <= i < j < |s| ==> LessEq(s[i], s[j])
  }

  lemma SortedTail(s: seq<string>)
    requires Sorted(s) && s != []
    ensures Sorted(s[1..])
  {
  }

  /** Places `x` before the first element that is not smaller than it. */
  function InsertSorted(s: seq<string>, x: string): (r: seq<string>)
    requires Sorted(s)
    ensures Sorted(r)
    ensures multiset(r) == multiset(s) + multiset{x}
  {
    if s == [] then [x]
    else if !Less(s[0], x) then
      assert LessEq(x, s[0]) by { LessTotalEq(s[0], x); }
      forall k | 0 <= k < |s| ensures LessEq(x, s[k]) {
        LessEqTransitive(x, s[0], s[k]);
      }
      [x] + s
    else
      SortedTail(s);
      var rest := InsertSorted(s[1..], x);
      assert s == [s[0]] + s[1..];
      forall k | 0 <= k < |rest| ensures LessEq(s[0], rest[k]) {
        assert rest[k] in multiset(rest);
        if rest[k] != x {
          assert rest[k] in multiset(s[1..]);
          var m :| 0 <= m < |s[1..]| && s[1..][m] == rest[k];
          assert s[m + 1] == rest[k];
        }
      }
      [s[0]] + rest
  }

  lemma LessTotalEq(a: string, b: string)
    requires !Less(a, b)
    ensures LessEq(b, a)
  {
    if a != b {
      LessTotal(a, b);
    }
  }

  /** The sorted copy of `s`. */
  function Sort(s: seq<string>): (r: seq<string>)
    ensures Sorted(r)
    ensures multiset(r) == multiset(s)
  {
    if s == [] then []
    else
      assert s == s[..|s| - 1] + [s[|s| - 1]];
      InsertSorted(Sort(s[..|s| - 1]), s[|s| - 1])
  }

  /** A sorted arrangement of a multiset of strings is unique: whatever algorithm the
      JavaScript engine uses, `sort()` returns `Sort(s)`. */
  lemma {:induction false} SortedUnique(a: seq<string>, b: seq<string>)
    requires Sorted(a) && Sorted(b)
    requires multiset(a) == multiset(b)
    ensures a == b
    decreases |a|
  {
    if a != [] {
      assert |b| == |a| by { assert |multiset(a)| == |multiset(b)|; }
      SortedHeads(a, b);
      TailMultiset(a);
      TailMultiset(b);
      SortedUnique(a[1..], b[1..]);
      assert a == [a[0]] + a[1..] && b == [b[0]] + b[1..];
    }
  }

  lemma SortedHeads(a: seq<string>, b: seq<string>)
    requires Sorted(a) && Sorted(b) && a != [] && b != []
    requires multiset(a) == multiset(b)
    ensures a[0] == b[0]
  {
    assert a[0] in multiset(b) && b[0] in multiset(a);
    var ia :| 0 <= ia < |b| && b[ia] == a[0];
    var ib :| 0 <= ib < |a| && a[ib] == b[0];
    assert LessEq(b[0], a[0]) by { assert ia == 0 || LessEq(b[0], b[ia]); }
    assert LessEq(a[0], b[0]) by { assert ib == 0 || LessEq(a[0], a[ib]); }
    if a[0] != b[0] {
      LessAsymmetric(a[0], b[0]);
    }
  }

  lemma TailMultiset(a: seq<string>)
    requires a != []
    ensures multiset(a[1..]) == multiset(a) - multiset{a[0]}
  {
    assert a == [a[0]] + a[1..];
  }
}
