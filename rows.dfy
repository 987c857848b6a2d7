/** The rows of one subscriber: one per prepaid package, or a single row with empty package
    fields when there is none; every row carries the subscriber's identity and `weekly`. */
module Rows {
  import opened Strings
  import opened KeySet
  import opened JsValue
  import opened Path
  import opened Remote
  import opened Usage
  import opened Weeks
  import opened Enrichment

  /** The twelve leading keys of every row, in the order of the row's object literal; the
      column list's `baseOrder` names the same keys in the same order. */
  const BaseOrder: seq<string> := [
    "subscriberId", "iccid", "lastUsageDate",
    "subscriberPrepaidPackageId", "prepaidPackageTemplateId", "templateName",
    "subscriberCost", "resellerCost", "usedDataByte", "pckDataByte",
    "activationDate", "expiryDate"
  ]

  /** Each name paired with its value, in order. */
  function Zip(names: seq<string>, values: seq<Value>): Row
    requires |names| == |values|
  {
    if names == [] then [] else [Field(names[0], values[0])] + Zip(names[1..], values[1..])
  }

  /** Field `i` pairs name `i` with value `i`. */
  lemma {:induction false} ZipAt(names: seq<string>, values: seq<Value>, i: nat)
    requires |names| == |values| && i < |names|
    ensures |Zip(names, values)| == |names| && Zip(names, values)[i] == Field(names[i], values[i])
    decreases |names|
  {
    if i > 0 {
      ZipAt(names[1..], values[1..], i - 1);
    } else if |names| > 1 {
      ZipAt(names[1..], values[1..], 0);
    }
  }

  /** The keys of the pairs are the names. */
  lemma {:induction false} ZipKeys(names: seq<string>, values: seq<Value>)
    requires |names| == |values|
    ensures Keys(Zip(names, values)) == names
    decreases |names|
  {
    if names != [] {
      ZipKeys(names[1..], values[1..]);
    }
  }

  /** The leading fields of a row: each name of `BaseOrder` with its value. */
  function Head(values: seq<Value>): (r: Row)
    requires |values| == |BaseOrder|
    ensures Keys(r) == BaseOrder
  {
    ZipKeys(BaseOrder, values);
    Zip(BaseOrder, values)
  }

  /** `{ subscriberId, iccid, lastUsageDate, <nine package fields>, ...weekly }` */
  function MakeRow(who: seq<Value>, package: seq<Value>, weekly: Row): Row
    requires |who| == 3 && |package| == 9
  {
    Spread(Head(who + package), weekly)
  }

  /** The nine package fields of a row without a package. */
  const NoPackage: seq<Value> := [Str(""), Str(""), Str(""), Str(""), Str(""), Str(""), Str(""), Str(""), Str("")]

  /** The nine package fields read from one package in the `rows.push` of the package loop. */
  function PackageValues(pkg: Value): (r: seq<Value>)
    ensures |r| == 9
  {
    var tpl := OrElse(Member(pkg, "packageTemplate"), Obj([]));
    [ Coalesce(Coalesce(Member(pkg, "subscriberprepaidpackageid"),
                        Member(pkg, "subscriberPrepaidPackageId")), Str("")),
      Coalesce(Member(tpl, "prepaidpackagetemplateid"), Str("")),
      Coalesce(Member(tpl, "prepaidpackagetemplatename"), Str("")),
      Coalesce(Member(pkg, "cost"), Str("")),
      Coalesce(Coalesce(Member(pkg, "resellercost"), Member(pkg, "resellerCost")), Str("")),
      Coalesce(Member(pkg, "useddatabyte"), Str("")),
      Coalesce(Member(pkg, "pckdatabyte"), Str("")),
      Coalesce(Member(pkg, "tstartactivationutc"), Str("")),
      Coalesce(Member(pkg, "tsexpirationutc"), Str("")) ]
  }

  /** `Array.isArray(sub?.imsiList) ? (sub.imsiList[0]?.iccid || "") : ""` */
  function IccidOf(sub: Value): Value {
    var list := Member(sub, "imsiList");
    if list.Arr? then OrElse(Member(Member(list, "0"), "iccid"), Str("")) else Str("")
  }

  /** The packages: the answer's `listSubscriberPrepaidPackages.packages`, or `[]` when the
      request fails or the answer has none. */
  function PackagesOf(subId: Value, api: Api): Value {
    match api(ListPackages(subId))
    case Fail => Arr([])
    case Ok(json) => Get(json, "listSubscriberPrepaidPackages.packages", Arr([]))
  }

  /** The last usage date: asked for only when the ICCID is truthy; "" when not asked, when the
      request fails, and when the answer has none. */
  function LastUsageOf(iccid: Value, api: Api): Value {
    if !Truthy(iccid) then Str("")
    else match api(SingleSubscriber(iccid))
      case Fail => Str("")
      case Ok(json) => OrElse(Get(json, "getSingleSubscriber.lastUsageDate", Str("")), Str(""))
  }

  /** `!Array.isArray(packages) || packages.length === 0` */
  predicate NoPackages(packages: Value) {
    !packages.Arr? || |packages.items| == 0
  }

  /** One row per package, in the packages' order. */
  function PackageRows(who: seq<Value>, pkgs: seq<Value>, weekly: Row): (rows: seq<Row>)
    requires |who| == 3
    ensures |rows| == |pkgs|
  {
    seq(|pkgs|, i requires 0 <= i < |pkgs| => MakeRow(who, PackageValues(pkgs[i]), weekly))
  }

  /** The rows pushed for a subscriber already looked up: the blank row or one row per package. */
  function FanOut(who: seq<Value>, packages: Value, weekly: Row): seq<Row>
    requires |who| == 3
  {
    if NoPackages(packages) then [MakeRow(who, NoPackage, weekly)]
    else PackageRows(who, packages.items, weekly)
  }

  /** Who the rows are about: `[subscriberId, iccid, lastUsageDate]`. */
  function Identity(sub: Value, api: Api): (who: seq<Value>)
    ensures |who| == 3
  {
    var iccid := IccidOf(sub);
    [Member(sub, "subscriberId"), iccid, LastUsageOf(iccid, api)]
  }

  /** All the rows the enrichment of one subscriber pushes. */
  function SubscriberRows(sub: Value, weeks: seq<Label>, api: Api): seq<Row> {
    var subId := Member(sub, "subscriberId");
    FanOut(Identity(sub, api), PackagesOf(subId, api), Weekly(subId, weeks, api))
  }

  /** The rows of the whole report once the subscribers have been enriched one after the other. */
  function ReportRows(subscribers: seq<Value>, weeks: seq<Label>, api: Api): seq<Row> {
    if subscribers == [] then []
    else
      var n := |subscribers| - 1;
      ReportRows(subscribers[..n], weeks, api) + SubscriberRows(subscribers[n], weeks, api)
  }

  /** The nine package fields of row `i`: package `i`'s, or the blank ones without packages. */
  function PackageOf(packages: Value, i: nat): (r: seq<Value>)
    ensures |r| == 9
  {
    if NoPackages(packages) || i >= |packages.items| then NoPackage
    else PackageValues(packages.items[i])
  }

  /** The first of `candidates` that is neither `null` nor `undefined`, or "" when all are. */
  function FirstSet(candidates: seq<Value>): (r: Value)
    ensures r in candidates || r == Str("")
  {
    if candidates == [] then Str("")
    else if !Nullish(candidates[0]) then candidates[0]
    else FirstSet(candidates[1..])
  }

  /** The pick is the first candidate that is set. */
  lemma {:induction false} FirstSetPicksFirst(candidates: seq<Value>, i: nat)
    requires i < |candidates| && !Nullish(candidates[i])
    requires forall j :: 0 <= j < i ==> Nullish(candidates[j])
    ensures FirstSet(candidates) == candidates[i]
    decreases i
  {
    if i > 0 {
      assert Nullish(candidates[0]);
      var rest := candidates[1..];
      assert forall j :: 0 <= j < i - 1 ==> rest[j] == candidates[j + 1];
      FirstSetPicksFirst(rest, i - 1);
    }
  }

  /** When no candidate is set the pick is "". */
  lemma {:induction false} FirstSetNoneSet(candidates: seq<Value>)
    requires forall j :: 0 <= j < |candidates| ==> Nullish(candidates[j])
    ensures FirstSet(candidates) == Str("")
    decreases |candidates|
  {
    if candidates != [] {
      assert Nullish(candidates[0]);
      var rest := candidates[1..];
      assert forall j :: 0 <= j < |rest| ==> rest[j] == candidates[j + 1];
      FirstSetNoneSet(rest);
    }
  }

}
