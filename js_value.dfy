/** The plain JavaScript object that both interception demos wrap: a map from
    property name to value, read with `obj[prop]` and shown with a template
    literal. */
module JsValue {

  /** The property values the demos store: strings, integers (`age`) and
      `undefined` (what destructuring a missing array element yields). */
  datatype Value = Str(s: string) | Int(n: int) | Undefined

  /** The wrapped object's own properties. */
  type Target = map<string, Value>

  /** What a `set` trap does: return an accepted flag, or throw a TypeError
      before writing anything. */
  datatype Completion = Returned(accepted: bool) | ThrewTypeError

  /** `obj[prop]`: the stored value, or `undefined` for a missing property. */
  function Lookup(t: Target, key: string): (v: Value)
    ensures key in t ==> v == t[key]
    ensures key !in t ==> v == Undefined
  {
    if key in t then t[key] else Undefined
  }

  /** Writing a property and reading it back gives the written value; every
      other property reads as before. */
  lemma LookupAfterWrite(t: Target, key: string, v: Value, other: string)
    ensures Lookup(t[key := v], key) == v
    ensures other != key ==> Lookup(t[key := v], other) == Lookup(t, other)
  {
  }

  /** Decimal digits of a natural number, most significant first, with no
      leading zero: only zero itself starts with `0`. */
  function Digits(n: nat): (r: string)
    ensures |r| >= 1
    ensures forall i :: 0 <= i < |r| ==> '0' <= r[i] <= '9'
    ensures r[0] == '0' <==> n == 0
  {
    if n < 10 then ['0' + (n as char)] else Digits(n / 10) + ['0' + ((n % 10) as char)]
  }

  /** The number a string of decimal digits denotes. */
  function DecimalValue(s: string): int
    decreases |s|
  {
    if s == [] then 0 else DecimalValue(s[..|s| - 1]) * 10 + ((s[|s| - 1] as int) - ('0' as int))
  }

  /** The digits of `n` denote `n`. */
  lemma {:induction false} DigitsDenote(n: nat)
    ensures DecimalValue(Digits(n)) == n
    decreases n
  {
    if n >= 10 {
      var d := Digits(n);
      assert d[..|d| - 1] == Digits(n / 10);
      DigitsDenote(n / 10);
    }
  }

  /** `${v}`: how a template literal shows a value. A number is shown in
      decimal without leading zeros, after a minus sign when negative. */
  function Text(v: Value): (r: string)
    ensures v.Str? ==> r == v.s
    ensures v.Undefined? ==> r == "undefined"
    ensures v.Int? && v.n >= 0 ==> |r| >= 1 && (forall i :: 0 <= i < |r| ==> '0' <= r[i] <= '9') && DecimalValue(r) == v.n
    ensures v.Int? && v.n >= 0 ==> (r[0] == '0' ==> r == "0")
    ensures v.Int? && v.n < 0 ==> |r| >= 2 && r[0] == '-' && DecimalValue(r[1..]) == -v.n
    ensures v.Int? && v.n < 0 ==> forall i :: 1 <= i < |r| ==> '0' <= r[i] <= '9'
    ensures v.Int? && v.n < 0 ==> r[1] != '0'
    ensures v.Int? ==> ' ' !in r
  {
    match v
    case Str(s) => s
    case Int(n) =>
      if n < 0 then
        var d := Digits(-n);
        DigitsDenote(-n);
        assert ("-" + d)[1..] == d;
        assert forall i :: 1 <= i < |"-" + d| ==> ("-" + d)[i] == d[i - 1];
        "-" + d
      else
        DigitsDenote(n);
        Digits(n)
    case Undefined => "undefined"
  }
}
