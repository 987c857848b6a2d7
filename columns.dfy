/** The column list of the report (`baseOrder`, `allKeys`, `weeklyKeys`, `otherKeys`,
    `columns`): the twelve base names, then any other key in the order the rows first show it,
    then the weekly keys sorted. */
module Columns {
  import opened Strings
  import opened KeySet
  import opened Sorting
  import opened JsValue
  import opened Calendar
  import opened Weeks
  import opened Enrichment
  import opened Rows
  import opened RowFacts
  import opened Remote
  import opened Usage

  /** The keys of the rows, row after row, each row's keys in its own order. */
  function KeyStream(rows: seq<Row>): seq<string> {
    if rows == [] then [] else Keys(rows[0]) + KeyStream(rows[1..])
  }

  /** `allKeys`: the keys added one by one to a `Set`, which keeps the order of first insertion. */
  function AllKeys(rows: seq<Row>): seq<string> {
    InsertAll([], KeyStream(rows))
  }

  /** The keys the route treats as weekly ones. */
  predicate IsWeeklyKey(k: string) {
    StartsWith(k, "usedData_") || StartsWith(k, "resellerCost_") || StartsWith(k, "subscriberCost_")
  }

  /** `ks.filter(keep)` */
  function Filter(ks: seq<string>, keep: string -> bool): (r: seq<string>)
    ensures forall k :: k in r <==> k in ks && keep(k)
  {
    if ks == [] then []
    else (if keep(ks[0]) then [ks[0]] else []) + Filter(ks[1..], keep)
  }

  /** `weeklyKeys`: the keys with a weekly prefix, sorted. */
  function WeeklyKeys(rows: seq<Row>): seq<string> {
    Sort(Filter(AllKeys(rows), IsWeeklyKey))
  }

  /** `otherKeys`: neither a base name nor one of the weekly keys. */
  function OtherKeys(rows: seq<Row>): seq<string> {
    var weekly := WeeklyKeys(rows);
    Filter(AllKeys(rows), k => k !in BaseOrder && k !in weekly)
  }

  /** `columns`: `[...baseOrder, ...otherKeys, ...weeklyKeys]`. */
  function Columns(rows: seq<Row>): seq<string> {
    BaseOrder + OtherKeys(rows) + WeeklyKeys(rows)
  }

  // ---------------------------------------------------------------------------
  // the keys of the rows

  /** The key stream holds exactly the keys of the rows. */
  lemma {:induction false} KeyStreamMembers(rows: seq<Row>, k: string)
    ensures k in KeyStream(rows) <==> exists i :: 0 <= i < |rows| && k in Keys(rows[i])
    decreases |rows|
  {
    if rows != [] {
      KeyStreamMembers(rows[1..], k);
      if k in Keys(rows[0]) {
        assert 0 < |rows| && k in Keys(rows[0]);
      }
      if exists i :: 1 <= i < |rows| && k in Keys(rows[i]) {
        var i :| 1 <= i < |rows| && k in Keys(rows[i]);
        assert k in Keys(rows[1..][i - 1]);
      }
      if exists i :: 0 <= i < |rows[1..]| && k in Keys(rows[1..][i]) {
        var i :| 0 <= i < |rows[1..]| && k in Keys(rows[1..][i]);
        assert k in Keys(rows[i + 1]);
      }
    }
  }

  lemma AllKeysShape(rows: seq<Row>)
    ensures Distinct(AllKeys(rows))
    ensures forall k :: k in AllKeys(rows) <==> k in KeyStream(rows)
  {
    InsertAllDistinct([], KeyStream(rows));
    InsertAllMembers([], KeyStream(rows));
  }

  // ---------------------------------------------------------------------------
  // filters

  lemma {:induction false} FilterDistinct(ks: seq<string>, keep: string -> bool)
    requires Distinct(ks)
    ensures Distinct(Filter(ks, keep))
    decreases |ks|
  {
    if ks != [] {
      assert Distinct(ks[1..]) by {
        forall i, j | 0 <= i < j < |ks[1..]| ensures ks[1..][i] != ks[1..][j] {
          assert ks[i + 1] != ks[j + 1];
        }
      }
      FilterDistinct(ks[1..], keep);
      var rest := Filter(ks[1..], keep);
      if keep(ks[0]) {
        assert ks[0] !in rest by {
          forall m | 0 <= m < |ks[1..]| ensures ks[1..][m] != ks[0] {
            assert ks[m + 1] != ks[0];
          }
        }
        var r := [ks[0]] + rest;
        forall i, j | 0 <= i < j < |r| ensures r[i] != r[j] {
          if i == 0 {
            assert r[j] == rest[j - 1];
          } else {
            assert r[i] == rest[i - 1] && r[j] == rest[j - 1];
          }
        }
      }
    }
  }

  /** A filter that keeps nothing of a list leaves an empty list. */
  lemma {:induction false} FilterNone(ks: seq<string>, keep: string -> bool)
    requires forall k :: k in ks ==> !keep(k)
    ensures Filter(ks, keep) == []
    decreases |ks|
  {
    if ks != [] {
      FilterNone(ks[1..], keep);
    }
  }

  /** Keys listed in the order in which `stream` first shows them. */
  predicate FirstSeenOrder(ks: seq<string>, stream: seq<string>) {
    (forall k :: k in ks ==> k in stream)
    && forall i, j :: 0 <= i < j < |ks| ==>
         ks[i] in stream && ks[j] in stream && FirstIndex(stream, ks[i]) < FirstIndex(stream, ks[j])
  }

  /** A filter keeps the order of what it keeps. */
  lemma {:induction false} FilterKeepsOrder(ks: seq<string>, keep: string -> bool, stream: seq<string>)
    requires FirstSeenOrder(ks, stream)
    ensures FirstSeenOrder(Filter(ks, keep), stream)
    decreases |ks|
  {
    if ks != [] {
      assert FirstSeenOrder(ks[1..], stream) by {
        forall i, j | 0 <= i < j < |ks[1..]|
          ensures ks[1..][i] in stream && ks[1..][j] in stream
               && FirstIndex(stream, ks[1..][i]) < FirstIndex(stream, ks[1..][j])
        {
          assert ks[1..][i] == ks[i + 1] && ks[1..][j] == ks[j + 1];
        }
      }
      FilterKeepsOrder(ks[1..], keep, stream);
      var rest := Filter(ks[1..], keep);
      if keep(ks[0]) {
        var r := [ks[0]] + rest;
        forall i, j | 0 <= i < j < |r|
          ensures r[i] in stream && r[j] in stream && FirstIndex(stream, r[i]) < FirstIndex(stream, r[j])
        {
          if i == 0 {
            assert r[j] in ks[1..] by { assert r[j] == rest[j - 1]; }
            var m :| 0 <= m < |ks[1..]| && ks[1..][m] == r[j];
            assert ks[m + 1] == r[j];
          } else {
            assert r[i] == rest[i - 1] && r[j] == rest[j - 1];
          }
        }
      }
    }
  }

  // ---------------------------------------------------------------------------
  // distinct lists and multisets

  lemma {:induction false} DistinctCounts(a: seq<string>, x: string)
    requires Distinct(a)
    ensures multiset(a)[x] <= 1
    decreases |a|
  {
    if a != [] {
      assert a == [a[0]] + a[1..];
      assert Distinct(a[1..]) by {
        forall i, j | 0 <= i < j < |a[1..]| ensures a[1..][i] != a[1..][j] {
          assert a[i + 1] != a[j + 1];
        }
      }
      DistinctCounts(a[1..], x);
      if x == a[0] {
        assert x !in a[1..] by {
          forall m | 0 <= m < |a[1..]| ensures a[1..][m] != x {
            assert a[m + 1] != a[0];
          }
        }
      }
    }
  }

  /** A rearrangement of a list without repeats has none either. */
  lemma PermutationDistinct(a: seq<string>, b: seq<string>)
    requires Distinct(a) && multiset(a) == multiset(b)
    ensures Distinct(b)
  {
    forall i, j | 0 <= i < j < |b| ensures b[i] != b[j] {
      DistinctCounts(a, b[i]);
      RepeatCounts(b, i, j);
    }
  }

  /** An element found at two places is counted at least twice. */
  lemma RepeatCounts(b: seq<string>, i: nat, j: nat)
    requires i < j < |b|
    ensures b[i] == b[j] ==> multiset(b)[b[i]] >= 2
  {
    assert b == b[..j] + [b[j]] + b[j + 1..];
    assert b[i] in multiset(b[..j]) by { assert b[..j][i] == b[i]; }
  }

  lemma DistinctConcat(a: seq<string>, b: seq<string>)
    requires Distinct(a) && Distinct(b)
    requires forall k :: k in a ==> k !in b
    ensures Distinct(a + b)
  {
    var c := a + b;
    forall i, j | 0 <= i < j < |c| ensures c[i] != c[j] {
      if j < |a| {
        assert c[i] == a[i] && c[j] == a[j];
      } else if i >= |a| {
        assert c[i] == b[i - |a|] && c[j] == b[j - |a|];
      } else {
        assert c[i] == a[i] && c[j] == b[j - |a|];
        assert a[i] in a && b[j - |a|] in b;
      }
    }
  }

  /** A weekly key holds '_', which no base name does. */
  lemma WeeklyKeyNotBase(k: string)
    requires IsWeeklyKey(k)
    ensures '_' in k && k !in BaseOrder
  {
    if StartsWith(k, "usedData_") {
      assert k[8] == "usedData_"[8];
    } else if StartsWith(k, "resellerCost_") {
      assert k[12] == "resellerCost_"[12];
    } else {
      assert k[14] == "subscriberCost_"[14];
    }
    BaseOrderShape();
  }

  // ---------------------------------------------------------------------------
  // what the column list promises

  /** The weekly part is sorted, and holds exactly the weekly keys of the rows, each once. */
  lemma WeeklyColumns(rows: seq<Row>)
    ensures Sorted(WeeklyKeys(rows)) && Distinct(WeeklyKeys(rows))
    ensures forall k :: k in WeeklyKeys(rows) <==> k in KeyStream(rows) && IsWeeklyKey(k)
  {
    var weekly := Filter(AllKeys(rows), IsWeeklyKey);
    AllKeysShape(rows);
    FilterDistinct(AllKeys(rows), IsWeeklyKey);
    PermutationDistinct(weekly, Sort(weekly));
    forall k ensures k in Sort(weekly) <==> k in weekly {
      assert k in Sort(weekly) <==> k in multiset(Sort(weekly));
      assert k in weekly <==> k in multiset(weekly);
    }
  }

  /** The middle part holds exactly the keys of the rows that are neither base names nor weekly
      keys, each once, in the order in which the rows first show them. */
  lemma OtherColumns(rows: seq<Row>)
    ensures Distinct(OtherKeys(rows))
    ensures forall k :: k in OtherKeys(rows) <==> k in KeyStream(rows) && k !in BaseOrder && !IsWeeklyKey(k)
    ensures FirstSeenOrder(OtherKeys(rows), KeyStream(rows))
  {
    var stream := KeyStream(rows);
    var weekly := WeeklyKeys(rows);
    var keep := k => k !in BaseOrder && k !in weekly;
    AllKeysShape(rows);
    WeeklyColumns(rows);
    FilterDistinct(AllKeys(rows), keep);
    assert FirstSeenOrder(AllKeys(rows), stream) by {
      forall i, j | 0 <= i < j < |AllKeys(rows)|
        ensures AllKeys(rows)[i] in stream && AllKeys(rows)[j] in stream
             && FirstIndex(stream, AllKeys(rows)[i]) < FirstIndex(stream, AllKeys(rows)[j])
      {
        InsertAllFirstSeen([], stream, i, j);
        assert [] + stream == stream;
      }
    }
    FilterKeepsOrder(AllKeys(rows), keep, stream);
  }

  /** The column list starts with the twelve base names, names every key of every row, names
      nothing else, and names nothing twice. */
  lemma ColumnsCover(rows: seq<Row>)
    ensures |Columns(rows)| >= 12 && Columns(rows)[..12] == BaseOrder
    ensures forall k :: k in Columns(rows) <==> k in BaseOrder || k in KeyStream(rows)
    ensures Distinct(Columns(rows))
  {
    BaseOrderShape();
    WeeklyColumns(rows);
    OtherColumns(rows);
    var others, weekly := OtherKeys(rows), WeeklyKeys(rows);
    assert Columns(rows) == BaseOrder + others + weekly;
    assert (BaseOrder + others + weekly)[..12] == BaseOrder;
    forall k | k in weekly ensures k !in BaseOrder && k !in others {
      WeeklyKeyNotBase(k);
    }
    DistinctConcat(BaseOrder, others);
    DistinctConcat(BaseOrder + others, weekly);
  }

  /** Every key of every row has a column. */
  lemma RowKeyHasColumn(rows: seq<Row>, i: nat, k: string)
    requires i < |rows| && k in Keys(rows[i])
    ensures k in Columns(rows)
  {
    KeyStreamMembers(rows, k);
    ColumnsCover(rows);
  }

  /** Without rows the columns are the twelve base names. */
  lemma NoRowsColumns()
    ensures Columns([]) == BaseOrder
  {
    assert AllKeys([]) == [];
    assert Filter([], IsWeeklyKey) == [];
    assert WeeklyKeys([]) == [];
  }

  // ---------------------------------------------------------------------------
  // the order of the weekly columns

  /** Where a weekly metric sorts: `resellerCost_` keys first, then `subscriberCost_`, then
      `usedData_`. */
  function Rank(m: Metric): int {
    match m
    case Reseller => 0
    case Subscriber => 1
    case Used => 2
  }

  lemma LessFirstChar(a: string, b: string)
    requires a != [] && b != [] && a[0] < b[0]
    ensures Less(a, b)
  {
  }

  /** Keys of different metrics sort by metric, whatever their weeks. */
  lemma MetricOrder(m1: Metric, w1: Label, m2: Metric, w2: Label)
    requires Rank(m1) < Rank(m2)
    ensures Less(WeekKey(Prefix(m1), w1), WeekKey(Prefix(m2), w2))
  {
    var p1, p2 := Prefix(m1), Prefix(m2);
    assert WeekKey(p1, w1)[0] == p1[0] && WeekKey(p2, w2)[0] == p2[0];
    LessFirstChar(WeekKey(p1, w1), WeekKey(p2, w2));
  }

  lemma WeekKeyParts(p: string, w: Label)
    ensures WeekKey(p, w) == (p + "_") + (w.from + ("_to_" + w.to))
  {
  }

  /** Keys of one metric sort by their weeks' first days, written with one length. */
  lemma SameMetricOrder(p: string, a: Label, b: Label)
    requires |a.from| == |b.from| && a.from != b.from
    ensures Less(WeekKey(p, a), WeekKey(p, b)) <==> Less(a.from, b.from)
  {
    var ra, rb := "_to_" + a.to, "_to_" + b.to;
    WeekKeyParts(p, a);
    WeekKeyParts(p, b);
    LessCommonPrefix(p + "_", a.from + ra, b.from + rb);
    LessAppendIff(a.from, b.from, ra, rb);
  }

  /** The order of two weekly keys: by metric first (reseller cost, subscriber cost, used data),
      then by the first day of the week, when the years have four digits. */
  lemma WeekKeyOrder(m1: Metric, a: Week, m2: Metric, b: Week)
    requires FourDigitYear(a.first) && FourDigitYear(b.first)
    requires m1 != m2 || a.first != b.first
    ensures Less(WeekKey(Prefix(m1), LabelOf(a)), WeekKey(Prefix(m2), LabelOf(b)))
        <==> Rank(m1) < Rank(m2) || (m1 == m2 && a.first < b.first)
  {
    var ka, kb := WeekKey(Prefix(m1), LabelOf(a)), WeekKey(Prefix(m2), LabelOf(b));
    if Rank(m1) < Rank(m2) {
      MetricOrder(m1, LabelOf(a), m2, LabelOf(b));
    } else if Rank(m2) < Rank(m1) {
      MetricOrder(m2, LabelOf(b), m1, LabelOf(a));
      LessAsymmetric(kb, ka);
    } else {
      assert m1 == m2;
      IsoDateOrder(a.first, b.first);
      SameMetricOrder(Prefix(m1), LabelOf(a), LabelOf(b));
    }
  }

  /** In a sorted list without repeats, the keys of the weeks of one range are grouped by
      metric and run in calendar order within a metric. */
  lemma SortedWeekKeys(ks: seq<string>, s: int, e: int, i: nat, j: nat,
                       m1: Metric, x: nat, m2: Metric, y: nat)
    requires Sorted(ks) && Distinct(ks) && i < j < |ks|
    requires FourDigitYear(s) && FourDigitYear(e)
    requires x < |Weeks.Weeks(s, e)| && y < |Weeks.Weeks(s, e)|
    requires ks[i] == WeekKey(Prefix(m1), LabelOf(Weeks.Weeks(s, e)[x]))
    requires ks[j] == WeekKey(Prefix(m2), LabelOf(Weeks.Weeks(s, e)[y]))
    ensures Rank(m1) < Rank(m2) || (m1 == m2 && x < y)
  {
    var ws := Weeks.Weeks(s, e);
    WeeksClosedForm(s, e);
    var a, b := ws[x], ws[y];
    assert a == WeekAt(s, e, x) && b == WeekAt(s, e, y);
    FourDigitBetween(s, e, a.first);
    FourDigitBetween(s, e, b.first);
    assert ks[i] != ks[j];
    assert Less(ks[i], ks[j]);
    assert a.first == b.first ==> a == b;
    DifferentWeekKeys(m1, a, m2, b);
    WeekKeyOrder(m1, a, m2, b);
  }

  lemma DifferentWeekKeys(m1: Metric, a: Week, m2: Metric, b: Week)
    requires WeekKey(Prefix(m1), LabelOf(a)) != WeekKey(Prefix(m2), LabelOf(b))
    requires a.first == b.first ==> a == b
    ensures m1 != m2 || a.first != b.first
  {
  }

  /** The weekly columns of a report whose rows carry the weeks of one range are grouped by
      metric (reseller cost, subscriber cost, used data) and, within a metric, run in calendar
      order of the weeks. */
  lemma WeeklyColumnsOrder(rows: seq<Row>, s: int, e: int, i: nat, j: nat,
                           m1: Metric, x: nat, m2: Metric, y: nat)
    requires i < j < |WeeklyKeys(rows)|
    requires FourDigitYear(s) && FourDigitYear(e)
    requires x < |Weeks.Weeks(s, e)| && y < |Weeks.Weeks(s, e)|
    requires WeeklyKeys(rows)[i] == WeekKey(Prefix(m1), LabelOf(Weeks.Weeks(s, e)[x]))
    requires WeeklyKeys(rows)[j] == WeekKey(Prefix(m2), LabelOf(Weeks.Weeks(s, e)[y]))
    ensures Rank(m1) < Rank(m2) || (m1 == m2 && x < y)
  {
    WeeklyColumns(rows);
    SortedWeekKeys(WeeklyKeys(rows), s, e, i, j, m1, x, m2, y);
  }

  // ---------------------------------------------------------------------------
  // the columns of the report's own rows

  /** A week key of one of the three metrics is a weekly key. */
  lemma WeekKeyIsWeekly(m: Metric, w: Label)
    ensures IsWeeklyKey(WeekKey(Prefix(m), w))
  {
    WeekKeyParts(Prefix(m), w);
    var head := Prefix(m) + "_";
    assert (head + (w.from + ("_to_" + w.to)))[..|head|] == head;
  }

  /** Every key of `weekly` is a weekly key. */
  lemma WeeklyKeysAreWeekly(subId: Value, weeks: seq<Label>, api: Api)
    ensures forall k :: k in Keys(Weekly(subId, weeks, api)) ==> IsWeeklyKey(k)
  {
    FillKeys(weeks, WeeklyFigures(subId, weeks, api), |weeks|);
    InsertAllMembers([], WeekKeyStream(weeks, |weeks|));
    WeekKeyStreamWeekly(weeks, |weeks|);
  }

  lemma {:induction false} WeekKeyStreamWeekly(weeks: seq<Label>, n: nat)
    requires n <= |weeks|
    ensures forall k :: k in WeekKeyStream(weeks, n) ==> IsWeeklyKey(k)
  {
    if n > 0 {
      var w := weeks[n - 1];
      WeekKeyStreamWeekly(weeks, n - 1);
      WeekKeyIsWeekly(Used, w);
      WeekKeyIsWeekly(Reseller, w);
      WeekKeyIsWeekly(Subscriber, w);
    }
  }

  lemma {:induction false} KeyStreamConcat(a: seq<Row>, b: seq<Row>)
    ensures KeyStream(a + b) == KeyStream(a) + KeyStream(b)
    decreases |a|
  {
    if a == [] {
      assert a + b == b;
    } else {
      assert (a + b)[1..] == a[1..] + b;
      KeyStreamConcat(a[1..], b);
    }
  }

  /** The rows of one subscriber hold base names and weekly keys only. */
  lemma SubscriberKeys(sub: Value, weeks: seq<Label>, api: Api, k: string)
    requires k in KeyStream(SubscriberRows(sub, weeks, api))
    ensures k in BaseOrder || IsWeeklyKey(k)
  {
    var subId := Member(sub, "subscriberId");
    var who, packages, weekly := Identity(sub, api), PackagesOf(subId, api), Weekly(subId, weeks, api);
    var fan := FanOut(who, packages, weekly);
    KeyStreamMembers(fan, k);
    var i :| 0 <= i < |fan| && k in Keys(fan[i]);
    WeeklyKeysShape(subId, weeks, api);
    WeeklyKeysAreWeekly(subId, weeks, api);
    FanOutKeys(who, packages, weekly, i);
  }

  /** The rows of the report hold base names and weekly keys only. */
  lemma {:induction false} ReportKeys(subscribers: seq<Value>, weeks: seq<Label>, api: Api, k: string)
    requires k in KeyStream(ReportRows(subscribers, weeks, api))
    ensures k in BaseOrder || IsWeeklyKey(k)
    decreases |subscribers|
  {
    var n := |subscribers| - 1;
    var init := ReportRows(subscribers[..n], weeks, api);
    var last := SubscriberRows(subscribers[n], weeks, api);
    KeyStreamConcat(init, last);
    if k in KeyStream(init) {
      ReportKeys(subscribers[..n], weeks, api, k);
    } else {
      SubscriberKeys(subscribers[n], weeks, api, k);
    }
  }

  /** The report's own rows leave `otherKeys` empty: its columns are the base names followed by
      the sorted weekly keys. */
  lemma ReportColumns(subscribers: seq<Value>, weeks: seq<Label>, api: Api)
    ensures var rows := ReportRows(subscribers, weeks, api);
      OtherKeys(rows) == [] && Columns(rows) == BaseOrder + WeeklyKeys(rows)
  {
    var rows := ReportRows(subscribers, weeks, api);
    forall k | k in KeyStream(rows) ensures k in BaseOrder || IsWeeklyKey(k) {
      ReportKeys(subscribers, weeks, api, k);
    }
    var weekly := WeeklyKeys(rows);
    WeeklyColumns(rows);
    AllKeysShape(rows);
    FilterNone(AllKeys(rows), k => k !in BaseOrder && k !in weekly);
    assert BaseOrder + [] == BaseOrder;
  }
}
