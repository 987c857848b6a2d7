/** Insertion-ordered sets of keys: what a JavaScript `Set` of strings holds, and the key order
    of a JavaScript object whose keys are assigned one after another. */
module KeySet {

  predicate Distinct(s: seq<string>) {
    forall i, j :: 0 <= i < j < |s| ==> s[i] != s[j]
  }

  /** `set.add(k)`: a new key goes last, a key already present keeps its place. */
  function Insert(ks: seq<string>, k: string): seq<string> {
    if k in ks then ks else ks + [k]
  }

  /** The set after `add(k)` holds `k` and what it held before, and nothing else. */
  lemma InsertMembers(ks: seq<string>, k: string)
    ensures k in Insert(ks, k) && ks <= Insert(ks, k)
    ensures forall x :: x in Insert(ks, k) <==> x in ks || x == k
  {
  }

  /** Adds the keys of `s` in order, as `s.forEach(k => set.add(k))` does. */
  function InsertAll(ks: seq<string>, s: seq<string>): seq<string>
    decreases |s|
  {
    if s == [] then ks else InsertAll(Insert(ks, s[0]), s[1..])
  }

  /** After adding the keys of `s`, the set holds what it held before and the keys of `s`. */
  lemma {:induction false} InsertAllMembers(ks: seq<string>, s: seq<string>)
    ensures ks <= InsertAll(ks, s)
    ensures forall x :: x in InsertAll(ks, s) <==> x in ks || x in s
    decreases |s|
  {
    if s != [] {
      InsertMembers(ks, s[0]);
      InsertAllMembers(Insert(ks, s[0]), s[1..]);
      assert forall x :: x in s <==> x == s[0] || x in s[1..];
    }
  }

  /** A set never holds a key twice. */
  lemma InsertDistinct(ks: seq<string>, k: string)
    requires Distinct(ks)
    ensures Distinct(Insert(ks, k))
  {
  }

  lemma {:induction false} InsertAllDistinct(ks: seq<string>, s: seq<string>)
    requires Distinct(ks)
    ensures Distinct(InsertAll(ks, s))
    decreases |s|
  {
    if s != [] {
      InsertDistinct(ks, s[0]);
      InsertAllDistinct(Insert(ks, s[0]), s[1..]);
    }
  }

  /** Position of the first occurrence of `k`. */
  function FirstIndex(s: seq<string>, k: string): (i: nat)
    requires k in s
    ensures i < |s| && s[i] == k && k !in s[..i]
  {
    if s[0] == k then 0 else 1 + FirstIndex(s[1..], k)
  }

  lemma {:induction false} FirstIndexUnique(s: seq<string>, k: string, i: nat)
    requires i < |s| && s[i] == k && k !in s[..i]
    ensures FirstIndex(s, k) == i
  {
    if i > 0 {
      assert s[..i][0] == s[0];
      var t := s[1..][..i - 1];
      assert forall m :: 0 <= m < |t| ==> t[m] == s[..i][m + 1];
      FirstIndexUnique(s[1..], k, i - 1);
    }
  }

  lemma FirstIndexAfterPrefix(ks: seq<string>, s: seq<string>, k: string)
    requires k in ks
    ensures FirstIndex(ks + s, k) == FirstIndex(ks, k)
  {
    var i := FirstIndex(ks, k);
    assert (ks + s)[..i] == ks[..i];
    FirstIndexUnique(ks + s, k, i);
  }

  lemma {:induction false} InsertAllSnoc(ks: seq<string>, s: seq<string>, x: string)
    ensures InsertAll(ks, s + [x]) == Insert(InsertAll(ks, s), x)
    decreases |s|
  {
    if s == [] {
      assert s + [x] == [x];
    } else {
      assert (s + [x])[1..] == s[1..] + [x];
      InsertAllSnoc(Insert(ks, s[0]), s[1..], x);
    }
  }

  lemma InsertAllThree(ks: seq<string>, a: string, b: string, c: string)
    ensures InsertAll(ks, [a, b, c]) == Insert(Insert(Insert(ks, a), b), c)
  {
    var k1 := Insert(ks, a);
    var k2 := Insert(k1, b);
    assert [c][1..] == [];
    assert InsertAll(k2, [c]) == Insert(k2, c);
    assert [b, c][1..] == [c];
    assert InsertAll(k1, [b, c]) == InsertAll(k2, [c]);
    assert [a, b, c][1..] == [b, c];
  }

  /** Adding `s + t` is adding `s`, then `t`. */
  lemma {:induction false} InsertAllConcat(ks: seq<string>, s: seq<string>, t: seq<string>)
    ensures InsertAll(ks, s + t) == InsertAll(InsertAll(ks, s), t)
    decreases |s|
  {
    if s == [] {
      assert s + t == t;
    } else {
      assert (s + t)[0] == s[0] && (s + t)[1..] == s[1..] + t;
      InsertAllConcat(Insert(ks, s[0]), s[1..], t);
    }
  }

  /** Adding `t` to the keys `prev` that adding `s` gave is adding `s + t`. */
  lemma InsertAllThen(ks: seq<string>, s: seq<string>, prev: seq<string>, t: seq<string>)
    requires prev == InsertAll(ks, s)
    ensures InsertAll(prev, t) == InsertAll(ks, s + t)
  {
    InsertAllConcat(ks, s, t);
  }

  /** The keys come out in the order in which each was first added. */
  lemma {:induction false} InsertAllFirstSeen(ks: seq<string>, s: seq<string>, i: nat, j: nat)
    requires Distinct(ks)
    requires i < j < |InsertAll(ks, s)|
    ensures InsertAll(ks, s)[i] in ks + s && InsertAll(ks, s)[j] in ks + s
    ensures FirstIndex(ks + s, InsertAll(ks, s)[i]) < FirstIndex(ks + s, InsertAll(ks, s)[j])
    decreases |s|
  {
    InsertAllMembers(ks, s);
    if s == [] {
      assert ks + s == ks;
      FirstIndexUnique(ks, ks[i], i);
      FirstIndexUnique(ks, ks[j], j);
    } else {
      var init, x := s[..|s| - 1], s[|s| - 1];
      SplitLast(s);
      InsertAllSnoc(ks, init, x);
      if j < |InsertAll(ks, init)| {
        InsertAllFirstSeen(ks, init, i, j);
      }
      FirstSeenStep(ks, init, x, i, j);
    }
  }

  lemma SplitLast(s: seq<string>)
    requires s != []
    ensures s == s[..|s| - 1] + [s[|s| - 1]]
  {
  }

  lemma FirstSeenStep(ks: seq<string>, init: seq<string>, x: string, i: nat, j: nat)
    requires i < j < |Insert(InsertAll(ks, init), x)|
    requires j < |InsertAll(ks, init)| ==>
      InsertAll(ks, init)[i] in ks + init && InsertAll(ks, init)[j] in ks + init
      && FirstIndex(ks + init, InsertAll(ks, init)[i]) < FirstIndex(ks + init, InsertAll(ks, init)[j])
    ensures Insert(InsertAll(ks, init), x)[i] in ks + (init + [x])
    ensures Insert(InsertAll(ks, init), x)[j] in ks + (init + [x])
    ensures FirstIndex(ks + (init + [x]), Insert(InsertAll(ks, init), x)[i])
          < FirstIndex(ks + (init + [x]), Insert(InsertAll(ks, init), x)[j])
  {
    var r0 := InsertAll(ks, init);
    var seen := ks + init;
    InsertAllMembers(ks, init);
    assert ks + (init + [x]) == seen + [x];
    assert i < |r0| && Insert(r0, x)[i] == r0[i];
    KeepsFirstIndex(seen, x, r0[i]);
    if j < |r0| {
      assert Insert(r0, x)[j] == r0[j];
      KeepsFirstIndex(seen, x, r0[j]);
    } else {
      assert Insert(r0, x)[j] == x && x !in seen;
      NewFirstIndex(seen, x);
    }
  }

  lemma KeepsFirstIndex(seen: seq<string>, x: string, k: string)
    requires k in seen
    ensures FirstIndex(seen + [x], k) == FirstIndex(seen, k) < |seen|
  {
    FirstIndexAfterPrefix(seen, [x], k);
  }

  lemma NewFirstIndex(seen: seq<string>, x: string)
    requires x !in seen
    ensures FirstIndex(seen + [x], x) == |seen|
  {
    assert (seen + [x])[..|seen|] == seen;
    FirstIndexUnique(seen + [x], x, |seen|);
  }

  /** Keys that are all new and all different are simply appended. */
  lemma {:induction false} InsertAllFresh(ks: seq<string>, s: seq<string>)
    requires Distinct(s)
    requires forall x :: x in s ==> x !in ks
    ensures InsertAll(ks, s) == ks + s
    decreases |s|
  {
    if s != [] {
      var x0, more := s[0], ks + [s[0]];
      DistinctTail(s);
      assert x0 in s && Insert(ks, x0) == more;
      forall x | x in s[1..] ensures x !in more {
        assert x in s;
      }
      InsertAllFresh(more, s[1..]);
      assert more + s[1..] == ks + s;
    }
  }

  lemma DistinctTail(s: seq<string>)
    requires s != [] && Distinct(s)
    ensures Distinct(s[1..]) && s[0] !in s[1..]
  {
    forall i, j | 0 <= i < j < |s[1..]| ensures s[1..][i] != s[1..][j] {
      assert s[i + 1] != s[j + 1];
    }
    forall i | 0 <= i < |s[1..]| ensures s[1..][i] != s[0] {
      assert s[i + 1] != s[0];
    }
  }
}
