/** The JavaScript values the report engine handles: decoded JSON from the management API,
    plus `undefined` (an absent property read with `?.`) and `NaN` (what `Number(...)` gives
    for a non-numeric string). Objects keep their keys in insertion order. */
module JsValue {
  import opened Strings
  import opened KeySet

  datatype Option<T> = None | Some(value: T)

  datatype Value =
    | Undefined
    | Null
    | Bool(b: bool)
    | Num(n: int)
    | NaN
    | Str(s: string)
    | Arr(items: seq<Value>)
    | Obj(fields: seq<Field>)

  datatype Field = Field(key: string, value: Value)

  /** JavaScript truthiness: what `x || y`, `x && y` and `if (x)` test. */
  predicate Truthy(v: Value) {
    match v
    case Undefined | Null | NaN => false
    case Bool(b) => b
    case Num(n) => n != 0
    case Str(s) => s != ""
    case Arr(_) | Obj(_) => true
  }

  /** What `x ?? y` tests. */
  predicate Nullish(v: Value) {
    v.Undefined? || v.Null?
  }

  /** `a ?? b` */
  function Coalesce(a: Value, b: Value): Value {
    if Nullish(a) then b else a
  }

  /** `a || b` */
  function OrElse(a: Value, b: Value): Value {
    if Truthy(a) then a else b
  }

  // ---------------------------------------------------------------------------
  // objects as insertion-ordered fields

  /** `Object.keys(o)` */
  function Keys(fields: seq<Field>): (ks: seq<string>)
    ensures |ks| == |fields|
  {
    if fields == [] then [] else [fields[0].key] + Keys(fields[1..])
  }

  /** Key `i` is the key of field `i`. */
  lemma {:induction false} KeysAt(fields: seq<Field>, i: nat)
    requires i < |fields|
    ensures Keys(fields)[i] == fields[i].key
    decreases |fields|
  {
    if i > 0 {
      KeysAt(fields[1..], i - 1);
    }
  }

  /** The value stored under `k`, if the object has that own key. */
  function Lookup(fields: seq<Field>, k: string): Option<Value> {
    if fields == [] then None
    else if fields[0].key == k then Some(fields[0].value)
    else Lookup(fields[1..], k)
  }

  /** `o[k]` is the own property `v`. */
  predicate Reads(fields: seq<Field>, k: string, v: Value) {
    Lookup(fields, k) == Some(v)
  }

  /** A key reads a value exactly when it is one of the object's own keys. */
  lemma {:induction false} LookupSome(fields: seq<Field>, k: string)
    ensures Lookup(fields, k).Some? <==> k in Keys(fields)
    decreases |fields|
  {
    if fields != [] && fields[0].key != k {
      LookupSome(fields[1..], k);
    }
  }

  /** `o[k] = v`: an existing key keeps its position and takes the new value, a new key goes last. */
  function Put(fields: seq<Field>, k: string, v: Value): seq<Field> {
    if fields == [] then [Field(k, v)]
    else if fields[0].key == k then [Field(k, v)] + fields[1..]
    else [fields[0]] + Put(fields[1..], k, v)
  }

  /** The keys after `o[k] = v`: those of `o`, with `k` added last if it was new. */
  lemma {:induction false} PutKeys(fields: seq<Field>, k: string, v: Value)
    ensures Keys(Put(fields, k, v)) == Insert(Keys(fields), k)
    decreases |fields|
  {
    var r := Put(fields, k, v);
    if fields == [] {
    } else if fields[0].key == k {
      assert r[1..] == fields[1..];
      assert Keys(r) == Keys(fields);
    } else {
      PutKeys(fields[1..], k, v);
      assert r[1..] == Put(fields[1..], k, v);
      PutKeysStep(fields[0].key, Keys(fields[1..]), k);
    }
  }

  /** After `o[k] = v`, `k` reads `v` and every other key reads as before. */
  lemma {:induction false} PutLookup(fields: seq<Field>, k: string, v: Value, other: string)
    ensures Lookup(Put(fields, k, v), other) == if other == k then Some(v) else Lookup(fields, other)
    decreases |fields|
  {
    var r := Put(fields, k, v);
    if fields != [] && fields[0].key != k {
      PutLookup(fields[1..], k, v, other);
      assert r[1..] == Put(fields[1..], k, v);
    } else if fields != [] {
      assert r[1..] == fields[1..];
    }
  }

  lemma PutKeysStep(k0: string, ks: seq<string>, k: string)
    requires k0 != k
    ensures [k0] + Insert(ks, k) == Insert([k0] + ks, k)
  {
    if k !in ks {
      assert [k0] + (ks + [k]) == ([k0] + ks) + [k];
    }
  }

  /** `{...target, ...source}`: the fields of `source` assigned one by one onto `target`. */
  function Spread(target: seq<Field>, source: seq<Field>): seq<Field>
    decreases |source|
  {
    if source == [] then target
    else Spread(Put(target, source[0].key, source[0].value), source[1..])
  }

  /** The keys after a spread: those of the target, then the new ones of the source in order. */
  lemma {:induction false} SpreadKeys(target: seq<Field>, source: seq<Field>)
    ensures Keys(Spread(target, source)) == InsertAll(Keys(target), Keys(source))
    decreases |source|
  {
    if source != [] {
      var ks := Keys(source);
      assert ks[0] == source[0].key && ks[1..] == Keys(source[1..]);
      PutKeys(target, source[0].key, source[0].value);
      SpreadKeys(Put(target, source[0].key, source[0].value), source[1..]);
    }
  }

  /** After a spread, a key of the source reads as in the source, any other key as in the target. */
  lemma {:induction false} SpreadLookup(target: seq<Field>, source: seq<Field>, k: string)
    requires Distinct(Keys(source))
    ensures Lookup(Spread(target, source), k)
         == if k in Keys(source) then Lookup(source, k) else Lookup(target, k)
    decreases |source|
  {
    if source != [] {
      var ks := Keys(source);
      assert ks == [source[0].key] + Keys(source[1..]);
      assert Distinct(Keys(source[1..])) by {
        forall i, j | 0 <= i < j < |Keys(source[1..])|
          ensures Keys(source[1..])[i] != Keys(source[1..])[j]
        {
          assert ks[i + 1] != ks[j + 1];
        }
      }
      assert source[0].key !in Keys(source[1..]) by {
        forall i | 0 <= i < |Keys(source[1..])| ensures Keys(source[1..])[i] != source[0].key {
          assert ks[i + 1] != ks[0];
        }
      }
      SpreadLookup(Put(target, source[0].key, source[0].value), source[1..], k);
      PutLookup(target, source[0].key, source[0].value, k);
    }
  }

  // ---------------------------------------------------------------------------
  // property access

  /** The index an array-index key such as "0" or "17" names; "01", "-1" and "" name none. */
  function IndexKey(k: string): (r: Option<nat>)
    ensures r.Some? ==> AllDigits(k) && r.value == DecimalValue(k)
  {
    if Canonical(k) then Some(DecimalValue(k)) else None
  }

  /** A key names index `n` exactly when it is `String(n)`. */
  lemma IndexKeyMeaning(k: string, n: nat)
    ensures IndexKey(k) == Some(n) <==> k == DecimalText(n)
  {
    DecimalTextCanonical(n);
    DecimalTextRoundTrip(n);
    if Canonical(k) {
      CanonicalIsDecimalText(k);
    }
  }

  /** `k in o` for an object or an array (own properties only). */
  predicate HasProperty(o: Value, k: string)
    requires o.Obj? || o.Arr?
  {
    match o
    case Obj(fields) => k in Keys(fields)
    case Arr(items) => k == "length" || (IndexKey(k).Some? && IndexKey(k).value < |items|)
  }

  /** `o?.[k]`: a missing property, or any property of `null` and `undefined`, reads as `undefined`. */
  function Member(o: Value, k: string): Value {
    match o
    case Obj(fields) =>
      (match Lookup(fields, k) case Some(x) => x case None => Undefined)
    case Arr(items) =>
      if k == "length" then Num(|items|)
      else (match IndexKey(k)
            case Some(i) => if i < |items| then items[i] else Undefined
            case None => Undefined)
    case Str(s) =>
      if k == "length" then Num(|s|)
      else (match IndexKey(k)
            case Some(i) => if i < |s| then Str([s[i]]) else Undefined
            case None => Undefined)
    case _ => Undefined
  }

  /** A property an object or array does not have reads as `undefined`; an object's own key
      reads its value. */
  lemma MemberMeaning(o: Value, k: string)
    ensures (o.Obj? || o.Arr?) && !HasProperty(o, k) ==> Member(o, k) == Undefined
    ensures o.Obj? && k in Keys(o.fields) ==> Reads(o.fields, k, Member(o, k))
  {
    if o.Obj? {
      LookupSome(o.fields, k);
    }
  }
}
