/** JavaScript's `String(v)` and `Number(v)` on the values of `JsValue`, as far as the report
    engine needs them to add up usage quantities. */
module Coercion {
  import opened Strings
  import opened JsValue

  /** `String(n)` for an integer. */
  function IntText(n: int): string {
    if n < 0 then "-" + DecimalText(-n) else DecimalText(n)
  }

  /** Whether `String(v)` (and so `Number(v)`) throws a TypeError: an object whose own keys
      include `toString` hides the inherited method behind a value that is not callable, and the
      inherited `valueOf` gives back the object itself, so no primitive is found; an array throws
      when one of its elements does, as `join` turns each element into text. */
  predicate TextThrows(v: Value)
    decreases v
  {
    match v
    case Obj(fields) => "toString" in Keys(fields)
    case Arr(items) => exists i :: 0 <= i < |items| && TextThrows(items[i])
    case _ => false
  }

  /** `String(v)`, or `None` when it throws. */
  function ToText(v: Value): (r: Option<string>)
    ensures r.None? <==> TextThrows(v)
    decreases v, 1
  {
    match v
    case Undefined => Some("undefined")
    case Null => Some("null")
    case Bool(b) => Some(if b then "true" else "false")
    case Num(n) => Some(IntText(n))
    case NaN => Some("NaN")
    case Str(s) => Some(s)
    case Arr(_) => ElementsText(v, 0)
    case Obj(fields) => if "toString" in Keys(fields) then None else Some("[object Object]")
  }

  /** The elements of an array from index `i` on, joined with "," as `String(array)` does;
      `null` and `undefined` elements contribute "", and an element whose text throws makes the
      whole join throw. */
  function ElementsText(v: Value, i: nat): (r: Option<string>)
    requires v.Arr? && i <= |v.items|
    ensures r.None? <==> exists j :: i <= j < |v.items| && TextThrows(v.items[j])
    decreases v, 0, |v.items| - i
  {
    if i == |v.items| then Some("")
    else
      var head := if Nullish(v.items[i]) then Some("") else ToText(v.items[i]);
      var rest := ElementsText(v, i + 1);
      if head.None? || rest.None? then None
      else Some((if i == 0 then "" else ",") + head.value + rest.value)
  }

  /** The white space and line terminators that `Number(string)` ignores around a numeral. */
  predicate IsSpace(c: char) {
    c == '\t' || c == '\n' || c == '\U{000B}' || c == '\U{000C}' || c == '\r' || c == ' '
    || c == '\U{00A0}' || c == '\U{1680}' || ('\U{2000}' <= c <= '\U{200A}')
    || c == '\U{2028}' || c == '\U{2029}' || c == '\U{202F}' || c == '\U{205F}'
    || c == '\U{3000}' || c == '\U{FEFF}'
  }

  function TrimStart(s: string): (t: string)
    ensures t == [] || !IsSpace(t[0])
    decreases |s|
  {
    if s != [] && IsSpace(s[0]) then TrimStart(s[1..]) else s
  }

  function TrimEnd(s: string): (t: string)
    ensures t == [] || !IsSpace(t[|t| - 1])
    decreases |s|
  {
    if s != [] && IsSpace(s[|s| - 1]) then TrimEnd(s[..|s| - 1]) else s
  }

  /** `Number(s)`: surrounding white space is ignored, the empty numeral is 0, an optionally
      signed run of decimal digits is its integer; anything else is NaN here. */
  function StringToNumber(s: string): (r: Value)
    ensures r.Num? || r.NaN?
  {
    var t := TrimEnd(TrimStart(s));
    if t == [] then Num(0)
    else if AllDigits(t) then Num(DecimalValue(t))
    else if |t| >= 2 && t[0] == '+' && AllDigits(t[1..]) then Num(DecimalValue(t[1..]))
    else if |t| >= 2 && t[0] == '-' && AllDigits(t[1..]) then Num(-(DecimalValue(t[1..]) as int))
    else NaN
  }

  /** `Number(v)`: objects and arrays go through their string form; `None` when that throws. */
  function ToNumber(v: Value): (r: Option<Value>)
    ensures r.None? <==> TextThrows(v)
    ensures r.Some? ==> r.value.Num? || r.value.NaN?
  {
    match v
    case Undefined => Some(NaN)
    case Null => Some(Num(0))
    case Bool(b) => Some(Num(if b then 1 else 0))
    case Num(_) => Some(v)
    case NaN => Some(NaN)
    case Str(s) => Some(StringToNumber(s))
    case _ =>
      var text := ToText(v);
      if text.None? then None else Some(StringToNumber(text.value))
  }

  /** A number turned into text, alone or as the one element of an array, reads back as itself. */
  lemma NumberOfText(n: int)
    ensures ToNumber(Str(IntText(n))) == Some(Num(n))
    ensures ToNumber(Arr([Num(n)])) == Some(Num(n))
  {
    var t := IntText(n);
    var digits := DecimalText(if n < 0 then -n else n);
    DecimalTextRoundTrip(if n < 0 then -n else n);
    assert t[|t| - 1] == digits[|digits| - 1];
    assert !IsSpace(t[0]) && !IsSpace(t[|t| - 1]);
    assert TrimEnd(TrimStart(t)) == t;
    if n < 0 {
      assert t[1..] == digits;
      assert !AllDigits(t) by { assert !IsDigit(t[0]); }
    }
    SingletonText(Num(n));
  }

  /** A one-element array has the text of its element. */
  lemma SingletonText(x: Value)
    requires !Nullish(x) && !TextThrows(x)
    ensures ToText(Arr([x])) == ToText(x)
  {
    var a := Arr([x]);
    assert ElementsText(a, 1) == Some("");
    assert ElementsText(a, 0) == Some("" + ToText(x).value + "");
    assert "" + ToText(x).value + "" == ToText(x).value;
    assert ToText(a) == ElementsText(a, 0);
  }
}
