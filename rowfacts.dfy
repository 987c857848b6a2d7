/** What the rows of a subscriber hold: their keys, their identity and package fields, and
    each week's figures. */
module RowFacts {
  import opened Strings
  import opened KeySet
  import opened JsValue
  import opened Path
  import opened Remote
  import opened Usage
  import opened Weeks
  import opened Enrichment
  import opened Rows

  /** The twelve base names are distinct and none holds '_', so none is a weekly key. */
  lemma BaseOrderShape()
    ensures |BaseOrder| == 12 && Distinct(BaseOrder)
    ensures forall i :: 0 <= i < |BaseOrder| ==> '_' !in BaseOrder[i]
  {
    BaseOrderDistinct();
    BaseOrderPlain();
  }

  lemma BaseOrderDistinct()
    ensures Distinct(BaseOrder)
  {
  }

  lemma BaseOrderPlain()
    ensures forall i :: 0 <= i < |BaseOrder| ==> '_' !in BaseOrder[i]
  {
  }

  /** Looking a name of `BaseOrder` up in a head finds its value. */
  lemma HeadLookup(values: seq<Value>, i: nat)
    requires |values| == |BaseOrder| && i < |BaseOrder|
    ensures Reads(Head(values), BaseOrder[i], values[i])
  {
    BaseOrderShape();
    var h := Head(values);
    ZipAt(BaseOrder, values, i);
    HeadLookupFrom(h, 0, i);
    assert h[0..] == h;
  }

  lemma {:induction false} HeadLookupFrom(h: Row, j: nat, i: nat)
    requires j <= i < |h| && Distinct(Keys(h))
    ensures Reads(h[j..], h[i].key, h[i].value)
    decreases i - j
  {
    assert h[j..][0] == h[j];
    if j < i {
      KeysAt(h, j);
      KeysAt(h, i);
      assert Keys(h)[j] != Keys(h)[i];
      assert h[j..][1..] == h[j + 1..];
      HeadLookupFrom(h, j + 1, i);
    }
  }

  /** The keys of a row are the twelve base names followed by the weekly keys. */
  lemma RowKeys(who: seq<Value>, package: seq<Value>, weekly: Row)
    requires |who| == 3 && |package| == 9
    requires Distinct(Keys(weekly)) && forall k :: k in Keys(weekly) ==> '_' in k
    ensures Keys(MakeRow(who, package, weekly)) == BaseOrder + Keys(weekly)
  {
    BaseOrderShape();
    forall k | k in Keys(weekly) ensures k !in BaseOrder {
      assert '_' in k;
    }
    InsertAllFresh(BaseOrder, Keys(weekly));
    SpreadKeys(Head(who + package), weekly);
  }

  /** Base name `j` of a row reads the row's own value `j`: the weekly keys never hide one. */
  lemma RowBaseReads(who: seq<Value>, package: seq<Value>, weekly: Row, j: nat)
    requires |who| == 3 && |package| == 9 && j < 12
    requires Distinct(Keys(weekly)) && forall k :: k in Keys(weekly) ==> '_' in k
    ensures Reads(MakeRow(who, package, weekly), BaseOrder[j], (who + package)[j])
  {
    BaseOrderShape();
    assert BaseOrder[j] !in Keys(weekly) by {
      assert '_' !in BaseOrder[j];
    }
    SpreadLookup(Head(who + package), weekly, BaseOrder[j]);
    HeadLookup(who + package, j);
  }

  /** A weekly key of a row reads what `weekly` holds under it. */
  lemma RowWeeklyReads(who: seq<Value>, package: seq<Value>, weekly: Row, k: string)
    requires |who| == 3 && |package| == 9
    requires Distinct(Keys(weekly)) && k in Keys(weekly)
    ensures Lookup(MakeRow(who, package, weekly), k) == Lookup(weekly, k)
  {
    SpreadLookup(Head(who + package), weekly, k);
  }

  lemma PackageRowsAt(who: seq<Value>, items: seq<Value>, weekly: Row, i: nat)
    requires |who| == 3 && i < |items|
    ensures PackageRows(who, items, weekly)[i] == MakeRow(who, PackageValues(items[i]), weekly)
  {
  }

  lemma PackageOfPackage(packages: Value, i: nat)
    requires !NoPackages(packages) && i < |packages.items|
    ensures PackageOf(packages, i) == PackageValues(packages.items[i])
  {
  }

  lemma BlankPackage(packages: Value, j: nat)
    requires NoPackages(packages) && 3 <= j < 12
    ensures PackageOf(packages, 0)[j - 3] == Str("")
  {
  }

  lemma FanOutBlank(who: seq<Value>, packages: Value, weekly: Row)
    requires |who| == 3 && NoPackages(packages)
    ensures FanOut(who, packages, weekly) == [MakeRow(who, NoPackage, weekly)]
    ensures forall i :: PackageOf(packages, i) == NoPackage
  {
  }

  lemma FanOutPackages(who: seq<Value>, packages: Value, weekly: Row)
    requires |who| == 3 && !NoPackages(packages)
    ensures FanOut(who, packages, weekly) == PackageRows(who, packages.items, weekly)
  {
  }

  /** Row `i` of a subscriber is built from the identity, package `i` (or the blank package)
      and `weekly`. */
  lemma FanOutAt(who: seq<Value>, packages: Value, weekly: Row, i: nat)
    requires |who| == 3
    ensures |FanOut(who, packages, weekly)| == if NoPackages(packages) then 1 else |packages.items|
    ensures i < |FanOut(who, packages, weekly)|
        ==> FanOut(who, packages, weekly)[i] == MakeRow(who, PackageOf(packages, i), weekly)
  {
    if NoPackages(packages) {
      FanOutBlank(who, packages, weekly);
    } else {
      FanOutPackages(who, packages, weekly);
      if i < |packages.items| {
        PackageOfPackage(packages, i);
        PackageRowsAt(who, packages.items, weekly, i);
      }
    }
  }

  /** Every row of a subscriber has the twelve base names followed by the weekly keys. */
  lemma FanOutKeys(who: seq<Value>, packages: Value, weekly: Row, i: nat)
    requires |who| == 3 && i < |FanOut(who, packages, weekly)|
    requires Distinct(Keys(weekly)) && forall k :: k in Keys(weekly) ==> '_' in k
    ensures Keys(FanOut(who, packages, weekly)[i]) == BaseOrder + Keys(weekly)
  {
    FanOutAt(who, packages, weekly, i);
    RowKeys(who, PackageOf(packages, i), weekly);
  }

  lemma ConcatAt(a: seq<Value>, b: seq<Value>, j: nat)
    requires j < |a| + |b|
    ensures (a + b)[j] == if j < |a| then a[j] else b[j - |a|]
  {
  }

  /** The first three base names of row `i` read the identity, so every row of a subscriber
      shares it. */
  lemma FanOutIdentity(who: seq<Value>, packages: Value, weekly: Row, i: nat, j: nat)
    requires |who| == 3 && i < |FanOut(who, packages, weekly)| && j < 3
    requires Distinct(Keys(weekly)) && forall k :: k in Keys(weekly) ==> '_' in k
    ensures Reads(FanOut(who, packages, weekly)[i], BaseOrder[j], who[j])
  {
    var package := PackageOf(packages, i);
    FanOutAt(who, packages, weekly, i);
    RowBaseReads(who, package, weekly, j);
    ConcatAt(who, package, j);
  }

  /** The other nine base names of row `i` read package `i`'s fields. */
  lemma FanOutPackageFields(who: seq<Value>, packages: Value, weekly: Row, i: nat, j: nat)
    requires |who| == 3 && i < |FanOut(who, packages, weekly)| && 3 <= j < 12
    requires Distinct(Keys(weekly)) && forall k :: k in Keys(weekly) ==> '_' in k
    ensures Reads(FanOut(who, packages, weekly)[i], BaseOrder[j], PackageOf(packages, i)[j - 3])
  {
    var package := PackageOf(packages, i);
    FanOutAt(who, packages, weekly, i);
    RowBaseReads(who, package, weekly, j);
    ConcatAt(who, package, j);
  }

  /** Without packages the one row has "" in all nine package fields. */
  lemma BlankRow(who: seq<Value>, packages: Value, weekly: Row, j: nat)
    requires |who| == 3 && NoPackages(packages) && 3 <= j < 12
    requires Distinct(Keys(weekly)) && forall k :: k in Keys(weekly) ==> '_' in k
    ensures |FanOut(who, packages, weekly)| == 1
    ensures Reads(FanOut(who, packages, weekly)[0], BaseOrder[j], Str(""))
  {
    FanOutAt(who, packages, weekly, 0);
    FanOutPackageFields(who, packages, weekly, 0, j);
    BlankPackage(packages, j);
  }

  /** Every row of a subscriber reads under a weekly key what `weekly` holds under it. */
  lemma FanOutWeekly(who: seq<Value>, packages: Value, weekly: Row, i: nat, k: string)
    requires |who| == 3 && i < |FanOut(who, packages, weekly)|
    requires Distinct(Keys(weekly)) && k in Keys(weekly)
    ensures Lookup(FanOut(who, packages, weekly)[i], k) == Lookup(weekly, k)
  {
    FanOutAt(who, packages, weekly, i);
    RowWeeklyReads(who, PackageOf(packages, i), weekly, k);
  }

  /** The package id is read from `subscriberprepaidpackageid` and then
      `subscriberPrepaidPackageId`, the reseller cost from `resellercost` and then
      `resellerCost`; each is "" when neither is set. */
  lemma PackageAliases(pkg: Value)
    ensures PackageValues(pkg)[0]
         == FirstSet([Member(pkg, "subscriberprepaidpackageid"), Member(pkg, "subscriberPrepaidPackageId")])
    ensures PackageValues(pkg)[4] == FirstSet([Member(pkg, "resellercost"), Member(pkg, "resellerCost")])
  {
    FirstSetOfTwo(Member(pkg, "subscriberprepaidpackageid"), Member(pkg, "subscriberPrepaidPackageId"));
    FirstSetOfTwo(Member(pkg, "resellercost"), Member(pkg, "resellerCost"));
  }

  lemma FirstSetOfTwo(a: Value, b: Value)
    ensures FirstSet([a, b]) == Coalesce(Coalesce(a, b), Str(""))
  {
    assert [a, b][1..] == [b];
  }

  lemma FirstSetOfOne(a: Value)
    ensures FirstSet([a]) == Coalesce(a, Str(""))
  {
    assert [a][1..] == [];
  }

  /** The template fields come from `packageTemplate`, which counts as `{}` when falsy, so a
      package without a template has "" for both. */
  lemma PackageTemplate(pkg: Value)
    ensures var tpl := OrElse(Member(pkg, "packageTemplate"), Obj([]));
      PackageValues(pkg)[1] == FirstSet([Member(tpl, "prepaidpackagetemplateid")])
      && PackageValues(pkg)[2] == FirstSet([Member(tpl, "prepaidpackagetemplatename")])
    ensures !Truthy(Member(pkg, "packageTemplate")) ==> PackageValues(pkg)[1] == Str("") && PackageValues(pkg)[2] == Str("")
  {
    var tpl := OrElse(Member(pkg, "packageTemplate"), Obj([]));
    FirstSetOfOne(Member(tpl, "prepaidpackagetemplateid"));
    FirstSetOfOne(Member(tpl, "prepaidpackagetemplatename"));
  }

  /** A package that is not an object (`null`, a number, a string, an array) gives the same nine
      "" as the blank row. */
  lemma NonObjectPackage(pkg: Value)
    requires !pkg.Obj?
    ensures PackageValues(pkg) == NoPackage
  {
  }

  /** The ICCID is the first IMSI entry's truthy `iccid`, or "". Only a truthy ICCID is looked up,
      so the identity depends on the API only through that one request, and without an ICCID
      the last usage date is "". */
  lemma IdentityMeaning(sub: Value, api: Api, other: Api)
    requires api(SingleSubscriber(IccidOf(sub))) == other(SingleSubscriber(IccidOf(sub)))
    ensures var iccid := IccidOf(sub);
      (iccid == Str("") || Truthy(iccid))
      && (!Member(sub, "imsiList").Arr? ==> iccid == Str(""))
      && Identity(sub, api) == Identity(sub, other)
      && (!Truthy(iccid) ==> Identity(sub, api)[2] == Str(""))
      && (Truthy(Identity(sub, api)[2]) || Identity(sub, api)[2] == Str(""))
  {
  }

  /** Every row of a subscriber carries its id, its ICCID and its last usage date, followed by
      the weekly keys. */
  lemma SubscriberRowIdentity(sub: Value, weeks: seq<Label>, api: Api, i: nat)
    requires i < |SubscriberRows(sub, weeks, api)|
    ensures var subId, row := Member(sub, "subscriberId"), SubscriberRows(sub, weeks, api)[i];
      Keys(row) == BaseOrder + Keys(Weekly(subId, weeks, api))
      && Reads(row, "subscriberId", subId)
      && Reads(row, "iccid", IccidOf(sub))
      && Reads(row, "lastUsageDate", LastUsageOf(IccidOf(sub), api))
  {
    var subId := Member(sub, "subscriberId");
    var who, packages, weekly := Identity(sub, api), PackagesOf(subId, api), Weekly(subId, weeks, api);
    WeeklyKeysShape(subId, weeks, api);
    FanOutKeys(who, packages, weekly, i);
    FanOutIdentity(who, packages, weekly, i, 0);
    FanOutIdentity(who, packages, weekly, i, 1);
    FanOutIdentity(who, packages, weekly, i, 2);
  }

  /** End to end: every row of a subscriber reads, under each week's three keys, the figures of
      that week's own usage request ("" in all three when it failed). */
  lemma SubscriberRowWeek(sub: Value, weeks: seq<Label>, api: Api, i: nat, w: nat)
    requires Separable(weeks) && w < |weeks|
    requires i < |SubscriberRows(sub, weeks, api)|
    ensures var subId := Member(sub, "subscriberId");
      var row, f := SubscriberRows(sub, weeks, api)[i], WeekFigures(api(UsageCall(subId, weeks[w])));
      Lookup(row, WeekKey(Prefix(Used), weeks[w])) == Some(f.used)
      && Lookup(row, WeekKey(Prefix(Reseller), weeks[w])) == Some(f.resellerCost)
      && Lookup(row, WeekKey(Prefix(Subscriber), weeks[w])) == Some(f.subscriberCost)
  {
    var subId := Member(sub, "subscriberId");
    var who, packages, weekly := Identity(sub, api), PackagesOf(subId, api), Weekly(subId, weeks, api);
    WeeklyKeysShape(subId, weeks, api);
    WeeklyLookup(subId, weeks, api, w);
    LookupSome(weekly, WeekKey(Prefix(Used), weeks[w]));
    LookupSome(weekly, WeekKey(Prefix(Reseller), weeks[w]));
    LookupSome(weekly, WeekKey(Prefix(Subscriber), weeks[w]));
    FanOutWeekly(who, packages, weekly, i, WeekKey(Prefix(Used), weeks[w]));
    FanOutWeekly(who, packages, weekly, i, WeekKey(Prefix(Reseller), weeks[w]));
    FanOutWeekly(who, packages, weekly, i, WeekKey(Prefix(Subscriber), weeks[w]));
  }

  /** The packages are the answer's `listSubscriberPrepaidPackages.packages` when the answer has
      them and they are neither `null` nor `undefined`, and `[]` otherwise, including when the
      request fails. */
  lemma PackagesMeaning(subId: Value, api: Api)
    ensures api(ListPackages(subId)).Fail? ==> PackagesOf(subId, api) == Arr([])
    ensures api(ListPackages(subId)).Ok? ==>
      PackagesOf(subId, api)
        == match At(api(ListPackages(subId)).json, ["listSubscriberPrepaidPackages", "packages"])
           case Some(v) => if Nullish(v) then Arr([]) else v
           case None => Arr([])
  {
    if api(ListPackages(subId)).Ok? {
      PackagesPath(api(ListPackages(subId)).json);
    }
  }

  lemma PackagesPath(json: Value)
    ensures Get(json, "listSubscriberPrepaidPackages.packages", Arr([]))
         == match At(json, ["listSubscriberPrepaidPackages", "packages"])
            case Some(v) => if Nullish(v) then Arr([]) else v
            case None => Arr([])
  {
    assert "listSubscriberPrepaidPackages.packages" == "listSubscriberPrepaidPackages" + "." + "packages";
    GetTwoSteps(json, "listSubscriberPrepaidPackages", "packages", Arr([]));
  }

  /** The last usage date is the answer's truthy `getSingleSubscriber.lastUsageDate`, and ""
      when the ICCID is falsy (no request is made), when the request fails, and when the answer
      has no truthy date. */
  lemma LastUsageMeaning(iccid: Value, api: Api)
    ensures !Truthy(iccid) ==> LastUsageOf(iccid, api) == Str("")
    ensures Truthy(iccid) && api(SingleSubscriber(iccid)).Fail? ==> LastUsageOf(iccid, api) == Str("")
    ensures Truthy(iccid) && api(SingleSubscriber(iccid)).Ok? ==>
      LastUsageOf(iccid, api)
        == match At(api(SingleSubscriber(iccid)).json, ["getSingleSubscriber", "lastUsageDate"])
           case Some(v) => if Truthy(v) then v else Str("")
           case None => Str("")
  {
    if Truthy(iccid) && api(SingleSubscriber(iccid)).Ok? {
      assert "getSingleSubscriber.lastUsageDate" == "getSingleSubscriber" + "." + "lastUsageDate";
      GetTwoSteps(api(SingleSubscriber(iccid)).json, "getSingleSubscriber", "lastUsageDate", Str(""));
    }
  }

  /** The ICCID is the first `imsiList` entry's `iccid` when `imsiList` is a non-empty array and
      that value is truthy, and "" otherwise. */
  lemma IccidMeaning(sub: Value)
    ensures var list := Member(sub, "imsiList");
      IccidOf(sub)
        == if list.Arr? && |list.items| > 0 && Truthy(Member(list.items[0], "iccid"))
           then Member(list.items[0], "iccid") else Str("")
  {
    IndexKeyMeaning("0", 0);
    assert DecimalText(0) == "0";
  }

  /** The other five package fields each read one property, "" when it is not set; no package
      field is ever `null` or `undefined`, which keeps the table rectangular. */
  lemma PackageFields(pkg: Value)
    ensures PackageValues(pkg)[3] == FirstSet([Member(pkg, "cost")])
    ensures PackageValues(pkg)[5] == FirstSet([Member(pkg, "useddatabyte")])
    ensures PackageValues(pkg)[6] == FirstSet([Member(pkg, "pckdatabyte")])
    ensures PackageValues(pkg)[7] == FirstSet([Member(pkg, "tstartactivationutc")])
    ensures PackageValues(pkg)[8] == FirstSet([Member(pkg, "tsexpirationutc")])
    ensures forall j :: 0 <= j < 9 ==> !Nullish(PackageValues(pkg)[j])
  {
    FirstSetOfOne(Member(pkg, "cost"));
    FirstSetOfOne(Member(pkg, "useddatabyte"));
    FirstSetOfOne(Member(pkg, "pckdatabyte"));
    FirstSetOfOne(Member(pkg, "tstartactivationutc"));
    FirstSetOfOne(Member(pkg, "tsexpirationutc"));
    PackageValuesSet(pkg);
  }

  /** Every one of the nine package values ends its `??` chain with `""`, so none is null or
      undefined. */
  lemma PackageValuesSet(pkg: Value)
    ensures forall j :: 0 <= j < 9 ==> !Nullish(PackageValues(pkg)[j])
  {
    var r := PackageValues(pkg);
    assert forall j :: 0 <= j < 9 ==> !Nullish(r[j]);
  }
}
