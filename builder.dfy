/** The enrichment of one subscriber as the route performs it: its requests and the loop over
    its packages. */
module Builder {
  import opened JsValue
  import opened Path
  import opened Remote
  import opened Weeks
  import opened Enrichment
  import opened Rows
  import opened RowFacts

  /** The fan-out on `!Array.isArray(packages) || packages.length===0`: one row per package, or one row without a package. */
  method FanOutRows(who: seq<Value>, packages: Value, weekly: Row) returns (out: seq<Row>)
    requires |who| == 3
    ensures out == FanOut(who, packages, weekly)
  {
    if NoPackages(packages) {
      out := [MakeRow(who, NoPackage, weekly)];
    } else {
      out := PackageRowsLoop(who, packages.items, weekly);
    }
  }

  /** The `for (const pkg of packages)` loop: a row per package, in order. */
  method PackageRowsLoop(who: seq<Value>, items: seq<Value>, weekly: Row) returns (out: seq<Row>)
    requires |who| == 3
    ensures out == PackageRows(who, items, weekly)
  {
    out := [];
    var i := 0;
    while i < |items|
      invariant 0 <= i <= |items|
      invariant out == PackageRows(who, items[..i], weekly)
    {
      PackageRowsStep(who, items, i, weekly);
      out := out + [MakeRow(who, PackageValues(items[i]), weekly)];
      i := i + 1;
    }
    assert items[..i] == items;
  }

  lemma PackageRowsStep(who: seq<Value>, items: seq<Value>, i: nat, weekly: Row)
    requires |who| == 3 && i < |items|
    ensures PackageRows(who, items[..i + 1], weekly)
         == PackageRows(who, items[..i], weekly) + [MakeRow(who, PackageValues(items[i]), weekly)]
  {
    var longer, shorter := PackageRows(who, items[..i + 1], weekly), PackageRows(who, items[..i], weekly);
    var rhs := shorter + [MakeRow(who, PackageValues(items[i]), weekly)];
    forall j | 0 <= j <= i ensures longer[j] == rhs[j] {
      if j < i {
        assert items[..i + 1][j] == items[..i][j];
        assert longer[j] == shorter[j];
      } else {
        assert items[..i + 1][i] == items[i];
      }
    }
    assert |longer| == |rhs|;
  }

  /** The `listSubscriberPrepaidPackages` request, whose failure leaves `packages = []`. */
  method FetchPackages(subId: Value, api: Api) returns (packages: Value)
    ensures packages == PackagesOf(subId, api)
    ensures api(ListPackages(subId)).Fail? ==> packages == Arr([])
    ensures api(ListPackages(subId)).Ok? ==>
      packages == match At(api(ListPackages(subId)).json, ["listSubscriberPrepaidPackages", "packages"])
                  case Some(v) => if Nullish(v) then Arr([]) else v
                  case None => Arr([])
  {
    packages := Arr([]);
    var outcome := api(ListPackages(subId));
    if outcome.Ok? {
      packages := Get(outcome.json, "listSubscriberPrepaidPackages.packages", Arr([]));
    }
    PackagesMeaning(subId, api);
  }

  /** `subId`, `iccid` and the `getSingleSubscriber` request for `lastUsageDate`. */
  method Identify(sub: Value, api: Api) returns (who: seq<Value>)
    ensures who == Identity(sub, api)
    ensures who[0] == Member(sub, "subscriberId")
    ensures var list := Member(sub, "imsiList");
      who[1] == if list.Arr? && |list.items| > 0 && Truthy(Member(list.items[0], "iccid"))
                then Member(list.items[0], "iccid") else Str("")
    ensures !Truthy(who[1]) ==> who[2] == Str("")
    ensures Truthy(who[1]) && api(SingleSubscriber(who[1])).Fail? ==> who[2] == Str("")
    ensures Truthy(who[1]) && api(SingleSubscriber(who[1])).Ok? ==>
      who[2] == match At(api(SingleSubscriber(who[1])).json, ["getSingleSubscriber", "lastUsageDate"])
                case Some(v) => if Truthy(v) then v else Str("")
                case None => Str("")
  {
    var subId := Member(sub, "subscriberId");
    var iccid := IccidOf(sub);
    var lastUsageDate := Str("");
    if Truthy(iccid) {
      var outcome := api(SingleSubscriber(iccid));
      if outcome.Ok? {
        lastUsageDate := OrElse(Get(outcome.json, "getSingleSubscriber.lastUsageDate", Str("")), Str(""));
      }
    }
    who := [subId, iccid, lastUsageDate];
    IccidMeaning(sub);
    LastUsageMeaning(iccid, api);
  }
}
