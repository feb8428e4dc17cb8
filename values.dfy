/** Python values as they travel through the attendance payload fields.

    The payload columns (`location_data`, `face_verification_data`,
    `face_data`) hold whatever `json.loads` or a client produced, so a single
    datatype stands for both a Python value and a JSON value: `Null` is
    Python's `None` (and JSON `null`), a `Dict` keeps its insertion order as a
    Python dict does, and a float is carried as the text Python prints for it.
 */
module Values {

  datatype Option<+T> = None | Some(value: T)

  /** A Python float, represented by its `repr` text (for example "0.0"). */
  datatype PyFloat = PyFloat(repr: string)

  const ZeroFloat := PyFloat("0.0")

  datatype Value =
    | Null
    | Bool(b: bool)
    | Int(i: int)
    | Float(f: PyFloat)
    | Str(s: string)
    | List(items: seq<Value>)
    | Dict(entries: seq<(string, Value)>)

  /** `json.loads` and `json.dumps`; `loads` answers None where Python raises
      `JSONDecodeError`. */
  datatype JsonCodec = JsonCodec(loads: string -> Option<Value>, dumps: Value -> string)

  /** The canonical fallback mapping `{"data": s}`. */
  function DataWrap(s: string): Value {
    Dict([("data", Str(s))])
  }

  /** Python truthiness (`if value:`). */
  predicate Truthy(v: Value) {
    match v
    case Null => false
    case Bool(b) => b
    case Int(i) => i != 0
    case Float(f) => f.repr != "0.0" && f.repr != "-0.0"
    case Str(s) => s != ""
    case List(items) => items != []
    case Dict(entries) => entries != []
  }

  // ---------------------------------------------------------------------
  // str(int): decimal digits, with a leading '-' for negative numbers

  function DigitChar(d: nat): char
    requires d < 10
  {
    "0123456789"[d]
  }

  predicate IsDigit(c: char) {
    '0' <= c <= '9'
  }

  function DigitValue(c: char): nat
    requires IsDigit(c)
  {
    (c as int - '0' as int) as nat
  }

  /** Decimal digits of a natural number, most significant first, no leading zero. */
  function NatToString(n: nat): (r: string)
    ensures |r| >= 1
    ensures forall k :: 0 <= k < |r| ==> IsDigit(r[k])
    ensures |r| > 1 ==> r[0] != '0'
  {
    if n < 10 then [DigitChar(n)] else NatToString(n / 10) + [DigitChar(n % 10)]
  }

  /** Python's `str()` of an int. */
  function IntToString(i: int): string {
    if i < 0 then "-" + NatToString(-i) else NatToString(i)
  }

  /** Value of a string of decimal digits (Horner's rule over the digits). */
  function DigitsValue(s: string): nat
    requires forall k :: 0 <= k < |s| ==> IsDigit(s[k])
  {
    if s == [] then 0 else DigitsValue(s[..|s| - 1]) * 10 + DigitValue(s[|s| - 1])
  }

  /** Reading back the digits that `str()` printed gives the number again. */
  lemma {:induction false} NatToStringRoundTrip(n: nat)
    ensures DigitsValue(NatToString(n)) == n
  {
    var r := NatToString(n);
    if n < 10 {
      assert r[..0] == [];
    } else {
      NatToStringRoundTrip(n / 10);
      assert r[..|r| - 1] == NatToString(n / 10);
    }
  }

  /** The text of str(i) starts with '-' exactly when i is negative. */
  lemma IntToStringSign(i: int)
    ensures IntToString(i)[0] == '-' <==> i < 0
  {
    if i >= 0 {
      assert IsDigit(NatToString(i)[0]);
    }
  }

  /** str(int) is injective, so `{"data": str(i)}` identifies i. */
  lemma IntToStringInjective(i: int, j: int)
    requires IntToString(i) == IntToString(j)
    ensures i == j
  {
    IntToStringSign(i);
    IntToStringSign(j);
    var a, b := if i < 0 then -i else i, if j < 0 then -j else j;
    assert NatToString(a) == NatToString(b) by {
      if i < 0 {
        assert IntToString(i)[1..] == NatToString(a);
        assert IntToString(j)[1..] == NatToString(b);
      }
    }
    NatToStringRoundTrip(a);
    NatToStringRoundTrip(b);
  }

  // ---------------------------------------------------------------------
  // str() of any value; nested strings are quoted but not escaped

  function Join(parts: seq<string>): string {
    if parts == [] then ""
    else if |parts| == 1 then parts[0]
    else parts[0] + ", " + Join(parts[1..])
  }

  /** Python's `repr()`, used for elements inside a list or dict. */
  function Repr(v: Value): string
    decreases v, 2
  {
    match v
    case Str(s) => "'" + s + "'"
    case _ => Show(v)
  }

  /** Python's `str()`. */
  function Show(v: Value): string
    decreases v, 1
  {
    match v
    case Null => "None"
    case Bool(b) => if b then "True" else "False"
    case Int(i) => IntToString(i)
    case Float(f) => f.repr
    case Str(s) => s
    case List(items) => "[" + Join(seq(|items|, k requires 0 <= k < |items| => Repr(items[k]))) + "]"
    case Dict(entries) =>
      "{" + Join(seq(|entries|, k requires 0 <= k < |entries| =>
                   "'" + entries[k].0 + "': " + Repr(entries[k].1))) + "}"
  }
}
