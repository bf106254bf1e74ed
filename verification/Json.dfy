/** JSON values as Python sees them after `json.loads`. */
module Json {
  import opened Wrappers
  import opened Arithmetic
  import opened Text

  // ----- numbers -----

  function Abs(n: int): nat { if n < 0 then -n else n }

  /** The integers Python converts to and from text. */
  type Integer = n: int | |ToDecimal(Abs(n))| <= MAX_DIGITS

  function BitLength(n: nat): nat {
    if n == 0 then 0 else 1 + BitLength(n / 2)
  }

  datatype Dyadic = Dyadic(mantissa: int, exponent: int)

  /** A finite double, as mantissa * 2^exponent in lowest terms. */
  predicate IsDouble(d: Dyadic) {
    d == Dyadic(0, 0)
    || (d.mantissa % 2 == 1 && BitLength(Abs(d.mantissa)) <= 53
        && -1074 <= d.exponent <= 1024 - BitLength(Abs(d.mantissa)))
  }

  type Double = d: Dyadic | IsDouble(d) witness Dyadic(0, 0)

  /** What Python reads as a float, with the values that JSON proper does not have. */
  datatype FloatValue = Finite(d: Double) | NegativeZero | Infinity(negative: bool) | NaN

  function RealOf(d: Dyadic): real {
    if d.exponent >= 0 then d.mantissa as real * Pow2(d.exponent) as real
    else d.mantissa as real / Pow2(-d.exponent) as real
  }

  // ----- values -----

  datatype Json =
    | Null
    | Bool(b: bool)
    | Int(n: Integer)
    | Float(x: FloatValue)
    | Str(s: string)
    | Arr(items: seq<Json>)
    | Obj(fields: map<string, Json>)

  /** `d.get(name)`: a missing field reads as None, which is also what null reads as. */
  function Get(fields: map<string, Json>, name: string): Json {
    if name in fields then fields[name] else Null
  }

  /** Python counts booleans as the numbers 0 and 1. */
  function Number(j: Json): Option<real> {
    match j
    case Bool(b) => Some(if b then 1.0 else 0.0)
    case Int(n) => Some(n as real)
    case Float(Finite(d)) => Some(RealOf(d))
    case Float(NegativeZero) => Some(0.0)
    case _ => None
  }

  /** Python's `==` on two such values. */
  predicate Equal(a: Json, b: Json) {
    a != Float(NaN) && b != Float(NaN) && Same(a, b)
  }

  /** Inside lists and objects NaN, which is one object wherever it is read, equals itself. */
  predicate Same(a: Json, b: Json) {
    if Number(a).Some? || Number(b).Some? then Number(a) == Number(b)
    else if a.Arr? && b.Arr? then
      |a.items| == |b.items| && forall i :: 0 <= i < |a.items| ==> Same(a.items[i], b.items[i])
    else if a.Obj? && b.Obj? then
      a.fields.Keys == b.fields.Keys && forall k :: k in a.fields ==> Same(a.fields[k], b.fields[k])
    else a == b
  }

  lemma {:induction false} SameAsItself(j: Json)
    ensures Same(j, j)
  {
    match j
    case Arr(items) =>
      forall i | 0 <= i < |items| ensures Same(items[i], items[i]) {
        SameAsItself(items[i]);
      }
    case Obj(fields) =>
      forall k | k in fields ensures Same(fields[k], fields[k]) {
        SameAsItself(fields[k]);
      }
    case _ =>
  }

  /** Numbers are equal by value, whatever their kind, and to nothing else; texts letter by letter;
      every value but NaN equals itself, even a list with NaN in it. */
  lemma EqualityIs(a: Json, b: Json)
    ensures a.Int? && b.Int? ==> (Equal(a, b) <==> a.n == b.n)
    ensures a.Bool? && b.Int? ==> (Equal(a, b) <==> b.n == if a.b then 1 else 0)
    ensures a.Int? && b.Float? && b.x.Finite? ==> (Equal(a, b) <==> a.n as real == RealOf(b.x.d))
    ensures a.Str? ==> (Equal(a, b) <==> b == a)
    ensures a.Null? ==> (Equal(a, b) <==> b == a)
    ensures Equal(a, a) <==> a != Float(NaN)
    ensures !Equal(a, Float(NaN)) && !Equal(Float(NaN), a)
    ensures a.Arr? && b.Arr? ==>
              (Equal(a, b) <==> |a.items| == |b.items| && forall i :: 0 <= i < |a.items| ==> Same(a.items[i], b.items[i]))
  {
    SameAsItself(a);
    hide RealOf;
  }

  // ----- text -----

  /** What `json.loads` makes of a text: a value, JSONDecodeError, or another exception (an
      over-long numeral, nesting too deep). */
  datatype Reading = Parsed(value: Json) | NotJson | Refused

  datatype Codec = Codec(print_: Json -> string, read: string -> Reading) {
    /** Reading where every exception counts as "no value". */
    function Parse(text: string): Option<Json> {
      if read(text).Parsed? then Some(read(text).value) else None
    }
  }

  /** What is printed reads back. */
  ghost predicate Faithful(codec: Codec) {
    forall j :: codec.read(codec.print_(j)) == Parsed(j)
  }

  /** The text of an object is enclosed in braces. */
  ghost predicate Braced(codec: Codec) {
    forall o :: var text := codec.print_(Obj(o)); |text| >= 2 && text[0] == '{' && text[|text| - 1] == '}'
  }

  /** An object with one number in it, as text. */
  function NumberField(numeral: string): string {
    "{\"x\": " + numeral + "}"
  }

  /** A numeral with too many digits makes reading fail. */
  ghost predicate LimitsDigits(codec: Codec) {
    forall s :: Canonical(s) && |s| > MAX_DIGITS ==> codec.read(NumberField(s)) == Refused
  }
}
