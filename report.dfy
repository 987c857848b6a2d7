/** The report: the row list that every subscriber appends to, and the column list computed
    from the rows once all subscribers are done. */
module Report {
  import opened JsValue
  import opened Weeks
  import opened Remote
  import opened Enrichment
  import opened Rows
  import opened Builder
  import opened Columns

  /** Collects the rows of the report, subscriber after subscriber. */
  class ReportBuilder {
    var rows: seq<Row>

    constructor ()
      ensures rows == []
    {
      rows := [];
    }

    /** The enrichment callback given to `poolAll` for one subscriber: its rows are appended. */
    method Enrich(sub: Value, weeks: seq<Label>, api: Api)
      modifies this
      ensures rows == old(rows) + SubscriberRows(sub, weeks, api)
    {
      var subId := Member(sub, "subscriberId");
      var packages := FetchPackages(subId, api);
      var who := Identify(sub, api);
      var weekly := CollectWeekly(subId, weeks, api);
      var pushed := FanOutRows(who, packages, weekly);
      rows := rows + pushed;
    }
  
    /** `poolAll(subscribers, 4, enrich)`, with the subscribers visited one after the other. */
    method EnrichAll(subscribers: seq<Value>, weeks: seq<Label>, api: Api)
      modifies this
      ensures rows == old(rows) + ReportRows(subscribers, weeks, api)
    {
      ghost var before := rows;
      var i := 0;
      while i < |subscribers|
        invariant 0 <= i <= |subscribers|
        invariant rows == before + ReportRows(subscribers[..i], weeks, api)
      {
        ghost var done := ReportRows(subscribers[..i], weeks, api);
        ghost var pushed := SubscriberRows(subscribers[i], weeks, api);
        ReportRowsStep(subscribers, weeks, api, i);
        Enrich(subscribers[i], weeks, api);
        assert rows == (before + done) + pushed;
        AppendAssoc(before, done, pushed);
        i := i + 1;
      }
      assert subscribers[..i] == subscribers;
    }
  }

  lemma AppendAssoc(a: seq<Row>, b: seq<Row>, c: seq<Row>)
    ensures (a + b) + c == a + (b + c)
  {
  }

  lemma ReportRowsStep(subscribers: seq<Value>, weeks: seq<Label>, api: Api, i: nat)
    requires i < |subscribers|
    ensures ReportRows(subscribers[..i + 1], weeks, api)
         == ReportRows(subscribers[..i], weeks, api) + SubscriberRows(subscribers[i], weeks, api)
  {
    assert subscribers[..i + 1][..i] == subscribers[..i];
  }

  /** The body of the `POST` handler from `const rows = []` on: the rows of every subscriber, then the columns computed from them. */
  method Generate(subscribers: seq<Value>, weeks: seq<Label>, api: Api)
    returns (rows: seq<Row>, columns: seq<string>)
    ensures rows == ReportRows(subscribers, weeks, api)
    ensures columns == Columns.Columns(rows) == BaseOrder + WeeklyKeys(rows)
  {
    var report := new ReportBuilder();
    report.EnrichAll(subscribers, weeks, api);
    rows := report.rows;
    columns := Columns.Columns(rows);
    ReportColumns(subscribers, weeks, api);
  }
}
