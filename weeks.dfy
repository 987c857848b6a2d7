/** `buildWeeks(startStr, endStr)`: the reporting period cut into consecutive seven-day weeks,
    the last one cut short at the end date. Each week is reported as its first and last
    day in `YYYY-MM-DD` form. */
module Weeks {
  import opened Strings
  import opened Calendar
  import opened JsValue

  /** A week as the days (counted from 1970-01-01) of its first and last day. */
  datatype Week = Week(first: int, last: int)

  /** A week as the loop pushes it: `[sISO, eISO]`. */
  datatype Label = Label(from: string, to: string)

  /** What `new Date(str + "T00:00:00Z")` makes of a date argument. `Absent` is a missing or
      empty argument, `Unparsable` one that gives an Invalid Date, `On(z)` midnight UTC of day `z`. */
  datatype DateArg = Absent | Unparsable | On(day: int)

  function Min(a: int, b: int): int {
    if a <= b then a else b
  }

  /** The weeks from day `s` up to day `e`, as the loop visits them. */
  function Weeks(s: int, e: int): seq<Week>
    decreases e - s
  {
    if s > e then [] else [Week(s, Min(s + 6, e))] + Weeks(s + 7, e)
  }

  /** Number of weeks: ceil((e - s + 1) / 7), none for an inverted range. */
  function WeekCount(s: int, e: int): nat {
    if s > e then 0 else (e - s + 7) / 7
  }

  /** Week `i`: from `s + 7i` to six days later, or to `e` if that comes first. */
  function WeekAt(s: int, e: int, i: nat): Week {
    Week(s + 7 * i, Min(s + 7 * i + 6, e))
  }

  function LabelOf(w: Week): Label {
    Label(IsoDate(w.first), IsoDate(w.last))
  }

  /** The label of each week, in order. */
  function Labels(ws: seq<Week>): seq<Label> {
    seq(|ws|, i requires 0 <= i < |ws| => LabelOf(ws[i]))
  }

  /** Labelling one more week appends its label. */
  lemma LabelsSnoc(ws: seq<Week>, w: Week)
    ensures Labels(ws + [w]) == Labels(ws) + [LabelOf(w)]
  {
    var longer, appended := Labels(ws + [w]), Labels(ws) + [LabelOf(w)];
    forall i | 0 <= i < |ws| + 1 ensures longer[i] == appended[i] {
      if i < |ws| {
        assert (ws + [w])[i] == ws[i];
      }
    }
  }

  /** The days the loop runs over: `None` when the start or the end is an Invalid Date (every
      comparison with one is false, so the loop body never runs). A missing end is today. */
  function Range(start: DateArg, end: DateArg, today: int): (r: Option<(int, int)>)
  {
    var e := if end.Absent? then On(today) else end;
    if start.On? && e.On? then Some((start.day, e.day)) else None
  }

  /** The `while (cur <= end)` loop of `buildWeeks`. */
  method BuildWeeks(start: DateArg, end: DateArg, today: int) returns (weeks: seq<Label>)
    ensures weeks == match Range(start, end, today)
                     case None => []
                     case Some(r) => Labels(Weeks(r.0, r.1))
  {
    weeks := [];
    var range := Range(start, end, today);
    if range.None? {
      return;
    }
    var s, e := range.value.0, range.value.1;
    var cur := s;
    ghost var done: seq<Week> := [];
    while cur <= e
      invariant done + Weeks(cur, e) == Weeks(s, e)
      invariant weeks == Labels(done)
      decreases e - cur
    {
      var last := cur + 6;
      var ee := if last > e then e else last;
      var span := Label(IsoDate(cur), IsoDate(ee));
      WeeksStep(s, e, cur, done);
      LabelsSnoc(done, Week(cur, ee));
      weeks := weeks + [span];
      done := done + [Week(cur, ee)];
      cur := cur + 7;
    }
    assert done == Weeks(s, e);
  }

  lemma WeeksStep(s: int, e: int, cur: int, done: seq<Week>)
    requires cur <= e && done + Weeks(cur, e) == Weeks(s, e)
    ensures (done + [Week(cur, Min(cur + 6, e))]) + Weeks(cur + 7, e) == Weeks(s, e)
  {
    var w, rest := Week(cur, Min(cur + 6, e)), Weeks(cur + 7, e);
    assert Weeks(cur, e) == [w] + rest;
    assert (done + [w]) + rest == done + ([w] + rest);
  }

  /** The closed form: `ceil((e - s + 1) / 7)` weeks, week `i` from `s + 7i` to
      `min(s + 7i + 6, e)`. */
  lemma {:induction false} WeeksClosedForm(s: int, e: int)
    ensures |Weeks(s, e)| == WeekCount(s, e)
    ensures forall i :: 0 <= i < |Weeks(s, e)| ==> Weeks(s, e)[i] == WeekAt(s, e, i)
    decreases e - s
  {
    if s <= e {
      WeeksClosedForm(s + 7, e);
      var ws := Weeks(s, e);
      forall i | 0 <= i < |ws| ensures ws[i] == WeekAt(s, e, i) {
        if i > 0 {
          assert ws[i] == Weeks(s + 7, e)[i - 1];
          assert WeekAt(s + 7, e, i - 1) == WeekAt(s, e, i);
        }
      }
    }
  }

  /** The weeks cover the range without gap or overlap: the first begins at `s`, each next one
      the day after the previous one ends, the last ends at `e`; every week but the last has
      seven days and the last has one to seven. */
  lemma WeeksPartition(s: int, e: int)
    requires s <= e
    ensures var ws := Weeks(s, e);
      ws != []
      && ws[0].first == s
      && ws[|ws| - 1].last == e
      && (forall i :: 0 <= i < |ws| ==> 1 <= ws[i].last - ws[i].first + 1 <= 7)
      && (forall i :: 0 <= i < |ws| - 1 ==> ws[i].last - ws[i].first + 1 == 7)
      && (forall i :: 0 <= i < |ws| - 1 ==> ws[i + 1].first == ws[i].last + 1)
  {
    WeeksClosedForm(s, e);
    var ws := Weeks(s, e);
    var n := |ws|;
    assert n == (e - s + 7) / 7;
    assert s + 7 * (n - 1) <= e < s + 7 * n;
    forall i | 0 <= i < n - 1 ensures ws[i].last == s + 7 * i + 6 {
      assert s + 7 * i + 6 <= s + 7 * (n - 1) - 1;
    }
  }

  /** Day `d` of the range lies in week `(d - s) / 7`, and in no other. */
  lemma WeekOfDay(s: int, e: int, d: int)
    requires s <= d <= e
    ensures var ws := Weeks(s, e); var i := (d - s) / 7;
      i < |ws| && ws[i].first <= d <= ws[i].last
      && forall j :: 0 <= j < |ws| && ws[j].first <= d <= ws[j].last ==> j == i
  {
    WeeksClosedForm(s, e);
    var ws := Weeks(s, e);
    var i := (d - s) / 7;
    assert s + 7 * i <= d < s + 7 * i + 7;
    assert i < |ws| by {
      assert |ws| == (e - s + 7) / 7;
    }
    forall j | 0 <= j < |ws| && ws[j].first <= d <= ws[j].last ensures j == i {
      assert s + 7 * j <= d <= s + 7 * j + 6;
    }
  }
}
