/** `get(obj, path, dflt)`: a defensive read of a dotted path such as
    "listSubscriber.subscriberList" out of a decoded response. */
module Path {
  import opened Strings
  import opened JsValue

  /** How one step of the walk ends: with a value, or with the TypeError that `k in o`
      throws when `o` is a truthy primitive (a non-zero number, `true`, a non-empty string). */
  datatype Step = Reached(v: Value) | Threw

  /** `(o, k) => (o && (k in o)) ? o[k] : null` */
  function StepInto(o: Value, k: string): Step {
    if !Truthy(o) then Reached(Null)
    else if o.Obj? || o.Arr? then
      (if HasProperty(o, k) then Reached(Member(o, k)) else Reached(Null))
    else Threw
  }

  /** `keys.reduce(StepInto, o)`; a throw ends the whole reduction. */
  function Walk(o: Value, keys: seq<string>): Step
    decreases |keys|
  {
    if keys == [] then Reached(o)
    else match StepInto(o, keys[0])
      case Threw => Threw
      case Reached(v) => Walk(v, keys[1..])
  }

  /** `get(obj, path, dflt)`: the walk's result, or `dflt` when it is `null`/`undefined` or threw. */
  function Get(obj: Value, path: string, dflt: Value): Value {
    match Walk(obj, Split(path, '.'))
    case Threw => dflt
    case Reached(v) => if Nullish(v) then dflt else v
  }

  /** The value found by following `keys` through objects and arrays that have each key,
      or None when some step is missing or lands on something that is not an object. */
  function At(o: Value, keys: seq<string>): Option<Value>
    decreases |keys|
  {
    if keys == [] then Some(o)
    else if (o.Obj? || o.Arr?) && HasProperty(o, keys[0]) then At(Member(o, keys[0]), keys[1..])
    else None
  }

  /** The reduction reaches exactly the value at the path when there is one; otherwise it
      ends in `null` or in a throw. */
  lemma {:induction false} WalkFindsAt(o: Value, keys: seq<string>)
    ensures At(o, keys).Some? ==> Walk(o, keys) == Reached(At(o, keys).value)
    ensures At(o, keys).None? ==> Walk(o, keys) in {Threw, Reached(Null)}
    decreases |keys|
  {
    if keys != [] {
      if (o.Obj? || o.Arr?) && HasProperty(o, keys[0]) {
        WalkFindsAt(Member(o, keys[0]), keys[1..]);
      } else if StepInto(o, keys[0]) == Reached(Null) {
        WalkOfNull(keys[1..]);
      }
    }
  }

  lemma {:induction false} WalkOfNull(keys: seq<string>)
    ensures Walk(Null, keys) == Reached(Null)
    decreases |keys|
  {
    if keys != [] {
      WalkOfNull(keys[1..]);
    }
  }

  /** `get` returns the value at the dotted path when every step exists and that value is
      neither `null` nor `undefined`, and the default in every other case, including the
      caught throw of a primitive met half-way. */
  lemma GetMeaning(obj: Value, path: string, dflt: Value)
    ensures Get(obj, path, dflt)
         == match At(obj, Split(path, '.'))
            case Some(v) => if Nullish(v) then dflt else v
            case None => dflt
  {
    WalkFindsAt(obj, Split(path, '.'));
  }

  /** A two-step path `a.b`: `get` returns the value two steps down when both exist and it is
      neither `null` nor `undefined`, and the default otherwise. */
  lemma GetTwoSteps(obj: Value, a: string, b: string, dflt: Value)
    requires '.' !in a && '.' !in b
    ensures Get(obj, a + "." + b, dflt)
         == match At(obj, [a, b])
            case Some(v) => if Nullish(v) then dflt else v
            case None => dflt
  {
    var parts := [a, b];
    assert Join(parts, '.') == a + "." + b by {
      assert parts[1..] == [b];
    }
    SplitJoin(parts, '.');
    GetMeaning(obj, a + "." + b, dflt);
  }
}
