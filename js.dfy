/**
 * The handful of JavaScript value rules the character sheet code leans on:
 * numbers that may be missing, null or NaN, optional strings, truthiness,
 * `x || 0`, `+` and `Math.floor(x / 3)`.
 *
 * Numbers are modelled as integers: every value the sheet stores comes from
 * an integer input, so fractions, infinities and rounding are outside the model.
 */
module Js {

  /** A number-typed field as it can appear in a record: absent (`undefined`),
      `null` (what JSON turns NaN into), NaN, or an integer. */
  datatype Num = Missing | Null | NaN | Int(v: int) {

    /** `x || 0`: every falsy or non-number value counts as zero. */
    function OrZero(): (r: int)
      ensures Int? ==> r == v
      ensures !Int? ==> r == 0
    {
      if Int? then v else 0
    }

    /** The value arithmetic sees: `undefined` becomes NaN and `null` becomes 0. */
    function ToNumeric(): (r: Num)
      ensures r.NaN? || r.Int?
      ensures Int? ==> r == this
      ensures Null? ==> r == Int(0)
    {
      match this
      case Missing => NaN
      case Null => Int(0)
      case NaN => NaN
      case Int(_) => this
    }

    /** What a JSON round trip gives back: NaN is written as null. */
    function Stored(): (r: Num)
      ensures !r.NaN?
      ensures !NaN? ==> r == this
    {
      if NaN? then Null else this
    }

    /** JavaScript truthiness of the value. */
    predicate Truthy() {
      Int? && v != 0
    }
  }

  /** JavaScript `a + b` on two number-typed values. */
  function Add(a: Num, b: Num): (r: Num)
    ensures r.NaN? || r.Int?
    ensures r.Int? <==> a.ToNumeric().Int? && b.ToNumeric().Int?
    ensures r.Int? ==> r.v == a.ToNumeric().v + b.ToNumeric().v
  {
    var x, y := a.ToNumeric(), b.ToNumeric();
    if x.Int? && y.Int? then Int(x.v + y.v) else NaN
  }

  /** `Math.floor(x / 3)`. Dafny's `/` on `int` with a positive divisor rounds
      towards negative infinity, which is exactly `Math.floor` of the quotient. */
  function FloorThird(a: Num): (r: Num)
    ensures r.NaN? || r.Int?
    ensures r.Int? <==> a.ToNumeric().Int?
    ensures r.Int? ==> 3 * r.v <= a.ToNumeric().v < 3 * r.v + 3
  {
    var x := a.ToNumeric();
    if x.Int? then Int(x.v / 3) else NaN
  }

  /** An optional string field; `null` and `undefined` are both `Absent`. */
  datatype Text = Absent | Str(s: string) {

    /** JavaScript truthiness: present and non-empty. */
    predicate Truthy() {
      Str? && s != ""
    }

    /** `x || d`. */
    function OrElse(d: string): (r: string)
      ensures Truthy() ==> r == s
      ensures !Truthy() ==> r == d
    {
      if Truthy() then s else d
    }

    /** The text a template literal `${x}` produces. */
    function Interpolated(): (r: string)
      ensures Str? ==> r == s
      ensures Absent? ==> r == "undefined"
    {
      if Str? then s else "undefined"
    }
  }
}
