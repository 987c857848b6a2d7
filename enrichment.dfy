/** The per-subscriber enrichment: three figures per week gathered into `weekly`, the packages,
    the ICCID and the last usage date, and the rows they fan out to. */
module Enrichment {
  import opened Strings
  import opened KeySet
  import opened JsValue
  import opened Path
  import opened Remote
  import opened Usage
  import opened Weeks
  import opened Calendar

  /** A row is an object: fields in insertion order. */
  type Row = seq<Field>

  /** The three figures a week is measured by. */
  datatype Metric = Used | Reseller | Subscriber

  /** The prefix of a metric's weekly keys. */
  function Prefix(m: Metric): string {
    match m
    case Used => "usedData"
    case Reseller => "resellerCost"
    case Subscriber => "subscriberCost"
  }

  /** The figure of metric `m` in one week's figures. */
  function FigureOf(f: Figures, m: Metric): Value {
    match m
    case Used => f.used
    case Reseller => f.resellerCost
    case Subscriber => f.subscriberCost
  }

  /** `${prefix}_${ws}_to_${we}` */
  function WeekKey(prefix: string, w: Label): string {
    prefix + "_" + w.from + "_to_" + w.to
  }

  /** Week labels that name their weeks apart: no label holds '_', and no week comes twice. */
  predicate Separable(weeks: seq<Label>) {
    (forall i :: 0 <= i < |weeks| ==> '_' !in weeks[i].from && '_' !in weeks[i].to)
    && (forall i, j :: 0 <= i < j < |weeks| ==> weeks[i] != weeks[j])
  }

  /** The labels of the weeks of a range name their weeks apart when the range's years have
      four digits, as every `YYYY-MM-DD` date does: a date holds no '_', and distinct first days
      are written differently. */
  lemma WeekLabelsSeparable(s: int, e: int)
    requires FourDigitYear(s) && FourDigitYear(e)
    ensures Separable(Labels(Weeks.Weeks(s, e)))
  {
    var ws := Weeks.Weeks(s, e);
    var ls := Labels(ws);
    WeeksClosedForm(s, e);
    assert forall i :: 0 <= i < |ls| ==> '_' !in ls[i].from && '_' !in ls[i].to;
    forall i, j | 0 <= i < j < |ls| ensures ls[i] != ls[j] {
      assert ws[i] == WeekAt(s, e, i) && ws[j] == WeekAt(s, e, j);
      FourDigitBetween(s, e, ws[i].first);
      FourDigitBetween(s, e, ws[j].first);
      IsoDateOrder(ws[i].first, ws[j].first);
    }
  }

  lemma WeekKeyIsJoin(prefix: string, w: Label)
    ensures WeekKey(prefix, w) == Join([prefix, w.from, "to", w.to], '_')
  {
    var parts := [prefix, w.from, "to", w.to];
    assert parts[1..] == [w.from, "to", w.to];
    assert parts[1..][1..] == ["to", w.to];
    assert parts[1..][1..][1..] == [w.to];
    assert Join(["to", w.to], '_') == "to" + "_" + w.to;
    assert Join([w.from, "to", w.to], '_') == w.from + "_" + ("to" + "_" + w.to);
    assert WeekKey(prefix, w) == prefix + "_" + (w.from + "_" + ("to" + "_" + w.to));
  }

  /** A week key gives back its prefix and its week when neither holds '_'. */
  lemma WeekKeyInjective(p1: string, w1: Label, p2: string, w2: Label)
    requires '_' !in p1 && '_' !in w1.from && '_' !in w1.to
    requires '_' !in p2 && '_' !in w2.from && '_' !in w2.to
    requires WeekKey(p1, w1) == WeekKey(p2, w2)
    ensures p1 == p2 && w1 == w2
  {
    WeekKeyIsJoin(p1, w1);
    WeekKeyIsJoin(p2, w2);
    SplitJoin([p1, w1.from, "to", w1.to], '_');
    SplitJoin([p2, w2.from, "to", w2.to], '_');
  }

  /** Every week key holds a '_'. */
  lemma WeekKeyHasUnderscore(prefix: string, w: Label)
    ensures '_' in WeekKey(prefix, w)
  {
    assert WeekKey(prefix, w)[|prefix|] == '_';
  }

  /** The request for one week's usage: `period: { start: ws, end: we }`. */
  function UsageCall(subId: Value, w: Label): Call {
    UsageOverPeriod(subId, w.from, w.to)
  }

  /** The three assignments of one week into `weekly`. */
  function PutFigures(weekly: Row, w: Label, f: Figures): Row {
    Put(Put(Put(weekly, WeekKey(Prefix(Used), w), f.used),
            WeekKey(Prefix(Reseller), w), f.resellerCost),
        WeekKey(Prefix(Subscriber), w), f.subscriberCost)
  }

  /** The figures of every week, each from that week's own usage request. */
  function WeeklyFigures(subId: Value, weeks: seq<Label>, api: Api): (figs: seq<Figures>)
    ensures |figs| == |weeks|
  {
    seq(|weeks|, i requires 0 <= i < |weeks| => WeekFigures(api(UsageCall(subId, weeks[i]))))
  }

  /** `weekly` once the first `n` weeks have been visited in order, week `j` measuring `figs[j]`. */
  function Fill(weeks: seq<Label>, figs: seq<Figures>, n: nat): Row
    requires n <= |weeks| && n <= |figs|
  {
    if n == 0 then [] else PutFigures(Fill(weeks, figs, n - 1), weeks[n - 1], figs[n - 1])
  }

  /** `weekly` once every week has been visited. */
  function Weekly(subId: Value, weeks: seq<Label>, api: Api): Row {
    Fill(weeks, WeeklyFigures(subId, weeks, api), |weeks|)
  }

  /** The `for (const [ws, we] of weeks)` loop that fills `weekly`. */
  method CollectWeekly(subId: Value, weeks: seq<Label>, api: Api) returns (weekly: Row)
    ensures weekly == Weekly(subId, weeks, api)
  {
    ghost var figs := WeeklyFigures(subId, weeks, api);
    weekly := [];
    for i := 0 to |weeks|
      invariant weekly == Fill(weeks, figs, i)
    {
      var w := weeks[i];
      var outcome := api(UsageCall(subId, w));
      var f := MeasureWeek(outcome);
      assert f == figs[i];
      weekly := PutFigures(weekly, w, f);
    }
  }

  lemma PrefixPlain(m: Metric)
    ensures '_' !in Prefix(m)
  {
  }

  /** One week's three keys, in the order of its assignments. */
  function WeekKeysOf(w: Label): seq<string> {
    [WeekKey(Prefix(Used), w), WeekKey(Prefix(Reseller), w), WeekKey(Prefix(Subscriber), w)]
  }

  /** The keys the first `n` weeks assign, one after the other. */
  function WeekKeyStream(weeks: seq<Label>, n: nat): seq<string>
    requires n <= |weeks|
  {
    if n == 0 then [] else WeekKeyStream(weeks, n - 1) + WeekKeysOf(weeks[n - 1])
  }

  /** After the first `n` weeks, `weekly`'s keys are the assigned ones in the order of their
      first assignment. */
  predicate KeysAssigned(weeks: seq<Label>, figs: seq<Figures>, n: nat)
    requires n <= |weeks| && n <= |figs|
  {
    Keys(Fill(weeks, figs, n)) == InsertAll([], WeekKeyStream(weeks, n))
  }

  /** `weekly`'s keys are the assigned ones in the order of their first assignment, whatever
      the usage requests answered. */
  lemma {:induction false} FillKeys(weeks: seq<Label>, figs: seq<Figures>, n: nat)
    requires n <= |weeks| && n <= |figs|
    ensures KeysAssigned(weeks, figs, n)
  {
    if n > 0 {
      FillKeys(weeks, figs, n - 1);
      FillKeysNext(weeks, figs, n);
    }
  }

  /** If the first `n - 1` weeks left the keys of their stream, the first `n` leave theirs. */
  lemma FillKeysNext(weeks: seq<Label>, figs: seq<Figures>, n: nat)
    requires 0 < n <= |weeks| && n <= |figs|
    requires KeysAssigned(weeks, figs, n - 1)
    ensures KeysAssigned(weeks, figs, n)
  {
    var before, added := WeekKeyStream(weeks, n - 1), WeekKeysOf(weeks[n - 1]);
    assert WeekKeyStream(weeks, n) == before + added;
    FillKeysStep(weeks, figs, n);
    InsertAllThen([], before, Keys(Fill(weeks, figs, n - 1)), added);
  }

  /** Visiting one more week adds its three keys. */
  lemma FillKeysStep(weeks: seq<Label>, figs: seq<Figures>, n: nat)
    requires 0 < n <= |weeks| && n <= |figs|
    ensures Keys(Fill(weeks, figs, n)) == InsertAll(Keys(Fill(weeks, figs, n - 1)), WeekKeysOf(weeks[n - 1]))
  {
    var prev := Fill(weeks, figs, n - 1);
    assert Fill(weeks, figs, n) == PutFigures(prev, weeks[n - 1], figs[n - 1]);
    PutFiguresKeys(prev, weeks[n - 1], figs[n - 1]);
  }

  /** `weekly` has no key twice, and each of its keys is a week key (so holds '_'). */
  lemma WeeklyKeysShape(subId: Value, weeks: seq<Label>, api: Api)
    ensures Distinct(Keys(Weekly(subId, weeks, api)))
    ensures forall k :: k in Keys(Weekly(subId, weeks, api)) ==> '_' in k
  {
    FillKeys(weeks, WeeklyFigures(subId, weeks, api), |weeks|);
    InsertAllDistinct([], WeekKeyStream(weeks, |weeks|));
    InsertAllMembers([], WeekKeyStream(weeks, |weeks|));
    WeekKeyStreamUnderscore(weeks, |weeks|);
  }

  /** Every key holds '_'. */
  predicate Underscored(ks: seq<string>) {
    forall k :: k in ks ==> '_' in k
  }

  lemma {:induction false} WeekKeyStreamUnderscore(weeks: seq<Label>, n: nat)
    requires n <= |weeks|
    ensures Underscored(WeekKeyStream(weeks, n))
  {
    if n > 0 {
      var before, added := WeekKeyStream(weeks, n - 1), WeekKeysOf(weeks[n - 1]);
      assert WeekKeyStream(weeks, n) == before + added;
      WeekKeyStreamUnderscore(weeks, n - 1);
      WeekKeysOfUnderscored(weeks[n - 1]);
      UnderscoredConcat(before, added);
    }
  }

  lemma WeekKeysOfUnderscored(w: Label)
    ensures Underscored(WeekKeysOf(w))
  {
    WeekKeyHasUnderscore(Prefix(Used), w);
    WeekKeyHasUnderscore(Prefix(Reseller), w);
    WeekKeyHasUnderscore(Prefix(Subscriber), w);
  }

  lemma UnderscoredConcat(a: seq<string>, b: seq<string>)
    requires Underscored(a) && Underscored(b)
    ensures Underscored(a + b)
  {
  }


  /** Each week's three keys read that week's figures: the ones its own usage request gives,
      and "" for all three when that request failed, whatever happened to the other weeks. */
  lemma WeeklyLookup(subId: Value, weeks: seq<Label>, api: Api, i: nat)
    requires Separable(weeks) && i < |weeks|
    ensures var weekly, f := Weekly(subId, weeks, api), WeekFigures(api(UsageCall(subId, weeks[i])));
      Lookup(weekly, WeekKey(Prefix(Used), weeks[i])) == Some(f.used)
      && Lookup(weekly, WeekKey(Prefix(Reseller), weeks[i])) == Some(f.resellerCost)
      && Lookup(weekly, WeekKey(Prefix(Subscriber), weeks[i])) == Some(f.subscriberCost)
  {
    var figs := WeeklyFigures(subId, weeks, api);
    FillLookup(weeks, figs, |weeks|, i, Used);
    FillLookup(weeks, figs, |weeks|, i, Reseller);
    FillLookup(weeks, figs, |weeks|, i, Subscriber);
  }

  /** After the first `n` weeks, week `i`'s key of metric `m` reads that week's figure. */
  predicate ReadsWeek(weeks: seq<Label>, figs: seq<Figures>, n: nat, i: nat, m: Metric)
    requires i < n <= |weeks| && n <= |figs|
  {
    Lookup(Fill(weeks, figs, n), WeekKey(Prefix(m), weeks[i])) == Some(FigureOf(figs[i], m))
  }

  /** Once visited, a week's keys keep reading its figures while the later weeks are visited. */
  lemma {:induction false} FillLookup(weeks: seq<Label>, figs: seq<Figures>, n: nat, i: nat, m: Metric)
    requires Separable(weeks) && i < n <= |weeks| && n <= |figs|
    ensures ReadsWeek(weeks, figs, n, i, m)
  {
    if i == n - 1 {
      FillReadsLast(weeks, figs, n, i, m);
    } else {
      FillLookup(weeks, figs, n - 1, i, m);
      FillKeepsEarlier(weeks, figs, n, i, m);
    }
  }

  /** Visiting a week leaves the keys of the earlier weeks untouched. */
  lemma FillKeepsEarlier(weeks: seq<Label>, figs: seq<Figures>, n: nat, i: nat, m: Metric)
    requires Separable(weeks) && i < n - 1 && n <= |weeks| && n <= |figs|
    requires ReadsWeek(weeks, figs, n - 1, i, m)
    ensures ReadsWeek(weeks, figs, n, i, m)
  {
    var w, v := weeks[n - 1], weeks[i];
    assert v != w && '_' !in v.from && '_' !in v.to && '_' !in w.from && '_' !in w.to;
    PrefixPlain(m);
    PrefixPlain(Used);
    PrefixPlain(Reseller);
    PrefixPlain(Subscriber);
    OtherWeekKeys(v, w, Prefix(m));
    FillKeepsOther(weeks, figs, n, WeekKey(Prefix(m), v));
  }

  /** The week visited last reads its own figures. */
  lemma FillReadsLast(weeks: seq<Label>, figs: seq<Figures>, n: nat, i: nat, m: Metric)
    requires i == n - 1 && n <= |weeks| && n <= |figs|
    ensures ReadsWeek(weeks, figs, n, i, m)
  {
    var prev := Fill(weeks, figs, i);
    assert Fill(weeks, figs, n) == PutFigures(prev, weeks[i], figs[i]);
    PutFiguresRead(prev, weeks[i], figs[i], m);
  }

  /** Visiting a week leaves every key outside its three untouched. */
  lemma FillKeepsOther(weeks: seq<Label>, figs: seq<Figures>, n: nat, k: string)
    requires 0 < n <= |weeks| && n <= |figs|
    requires k != WeekKey(Prefix(Used), weeks[n - 1]) && k != WeekKey(Prefix(Reseller), weeks[n - 1])
    requires k != WeekKey(Prefix(Subscriber), weeks[n - 1])
    ensures Lookup(Fill(weeks, figs, n), k) == Lookup(Fill(weeks, figs, n - 1), k)
  {
    var prev := Fill(weeks, figs, n - 1);
    assert Fill(weeks, figs, n) == PutFigures(prev, weeks[n - 1], figs[n - 1]);
    PutFiguresKeeps(prev, weeks[n - 1], figs[n - 1], k);
  }

  /** One week's assignments add its three keys, each at most once. */
  lemma PutFiguresKeys(weekly: Row, w: Label, f: Figures)
    ensures Keys(PutFigures(weekly, w, f)) == InsertAll(Keys(weekly), WeekKeysOf(w))
  {
    var ku, kr, ks := WeekKey(Prefix(Used), w), WeekKey(Prefix(Reseller), w), WeekKey(Prefix(Subscriber), w);
    var a := Put(weekly, ku, f.used);
    var b := Put(a, kr, f.resellerCost);
    PutKeys(weekly, ku, f.used);
    PutKeys(a, kr, f.resellerCost);
    PutKeys(b, ks, f.subscriberCost);
    InsertAllThree(Keys(weekly), ku, kr, ks);
  }

  /** After one week's assignments its three keys read its figures. */
  lemma PutFiguresRead(weekly: Row, w: Label, f: Figures, m: Metric)
    ensures Lookup(PutFigures(weekly, w, f), WeekKey(Prefix(m), w)) == Some(FigureOf(f, m))
  {
    var ku, kr, ks := WeekKey(Prefix(Used), w), WeekKey(Prefix(Reseller), w), WeekKey(Prefix(Subscriber), w);
    assert |ku| != |ks| && |kr| != |ks| && |ku| != |kr|;
    var a := Put(weekly, ku, f.used);
    var b := Put(a, kr, f.resellerCost);
    PutLookup(weekly, ku, f.used, WeekKey(Prefix(m), w));
    PutLookup(a, kr, f.resellerCost, WeekKey(Prefix(m), w));
    PutLookup(b, ks, f.subscriberCost, WeekKey(Prefix(m), w));
  }

  /** One week's assignments leave every other key as it was. */
  lemma PutFiguresKeeps(weekly: Row, w: Label, f: Figures, k: string)
    requires k != WeekKey(Prefix(Used), w) && k != WeekKey(Prefix(Reseller), w)
    requires k != WeekKey(Prefix(Subscriber), w)
    ensures Lookup(PutFigures(weekly, w, f), k) == Lookup(weekly, k)
  {
    var ku, kr, ks := WeekKey(Prefix(Used), w), WeekKey(Prefix(Reseller), w), WeekKey(Prefix(Subscriber), w);
    var a := Put(weekly, ku, f.used);
    var b := Put(a, kr, f.resellerCost);
    PutLookup(weekly, ku, f.used, k);
    PutLookup(a, kr, f.resellerCost, k);
    PutLookup(b, ks, f.subscriberCost, k);
  }

  /** Keys of different weeks differ, whatever their prefixes. */
  lemma OtherWeekKeys(v: Label, w: Label, p: string)
    requires v != w && '_' !in v.from && '_' !in v.to && '_' !in w.from && '_' !in w.to
    requires '_' !in p
    ensures WeekKey(p, v) != WeekKey(Prefix(Used), w)
    ensures WeekKey(p, v) != WeekKey(Prefix(Reseller), w)
    ensures WeekKey(p, v) != WeekKey(Prefix(Subscriber), w)
  {
    if WeekKey(p, v) == WeekKey(Prefix(Used), w) {
      WeekKeyInjective(p, v, Prefix(Used), w);
    }
    if WeekKey(p, v) == WeekKey(Prefix(Reseller), w) {
      WeekKeyInjective(p, v, Prefix(Reseller), w);
    }
    if WeekKey(p, v) == WeekKey(Prefix(Subscriber), w) {
      WeekKeyInjective(p, v, Prefix(Subscriber), w);
    }
  }
}
