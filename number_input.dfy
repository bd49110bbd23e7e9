/**
 * The numeric text box: it keeps the string being typed, lets through only
 * an optional minus sign followed by digits, reports each accepted string's
 * value to the parent (0 for "" and "-"), and rewrites the text from the
 * parent's value only when the two disagree as numbers.
 */
module NumberInput {
  import opened Wrappers
  import opened Js
  import opened Strings

  /** The values the box can be given without its effect or its blur
      handler throwing: `undefined.toString()` and `null.toString()` throw. */
  predicate Renderable(value: Num) {
    value.Int? || value.NaN?
  }

  /** The number the text stands for, as the effect reads it: `parseInt`,
      with NaN counted as 0. */
  function Shown(local: string): int {
    ParseInt(local).OrZero()
  }

  /** The first text shown: "0" for `undefined`, `null` or NaN, else the
      value written out. It always stands for the value, missing ones as 0. */
  function InitialText(value: Num): (r: string)
    ensures Shown(r) == value.OrZero()
    ensures !value.Int? ==> r == "0"
  {
    ParseIntToString(value.OrZero());
    assert IntToString(0) == "0";
    if value.Int? then IntToString(value.v) else "0"
  }

  /** The effect run when the value changes: the text is replaced by the
      value written out only when it stands for another number, so that once
      it has run the text always stands for the value. */
  function Resynced(local: string, value: Num): (r: string)
    requires Renderable(value)
    ensures Shown(r) == value.OrZero()
    ensures Shown(local) == value.OrZero() <==> r == local
  {
    ParseIntToString(value.OrZero());
    if value.OrZero() != Shown(local) then IntToString(value.OrZero()) else local
  }

  /** The value handed to `onChange` for an accepted string. */
  function AcceptedValue(raw: string): (r: int)
    requires SignedDigits(raw)
    ensures raw == "" || raw == "-" ==> r == 0
    ensures AllDigits(raw) && raw != "" ==> r == DigitsValue(raw)
    ensures !AllDigits(raw) && raw != "-" ==> r == -(DigitsValue(raw[1..]) as int)
  {
    ParseIntSignedDigits(raw);
    var num := ParseInt(raw);
    if num.NaN? then 0 else num.v
  }

  /** The text left on blur: `value.toString()`, which is "NaN" for NaN. It
      stands for the value, NaN as 0. */
  function BlurText(value: Num): (r: string)
    requires Renderable(value)
    ensures Shown(r) == value.OrZero()
    ensures value.NaN? ==> r == "NaN"
  {
    ParseIntToString(value.OrZero());
    ParseNaNText();
    if value.NaN? then "NaN" else IntToString(value.v)
  }

  /** `parseInt("NaN")` is NaN. */
  lemma ParseNaNText()
    ensures ParseInt("NaN").NaN?
  {
    var t := "NaN";
    assert !IsWhitespace(t[0]) && !IsDigit(t[0]);
    assert TrimStart(t) == t;
    assert DigitPrefix(t) == [];
  }

  /** One box's `localValue` state. */
  class NumberField {
    var localValue: string

    constructor (value: Num)
      ensures localValue == InitialText(value)
    {
      localValue := if value.Missing? || value.Null? || value.NaN? then "0" else IntToString(value.v);
    }

    /** The `useEffect` on the value. */
    method Effect(value: Num)
      requires Renderable(value)
      modifies this
      ensures localValue == Resynced(old(localValue), value)
    {
      var numericLocal := ParseInt(localValue);
      var safeValue := if value.NaN? then 0 else value.v;
      if safeValue != (if numericLocal.NaN? then 0 else numericLocal.v) {
        localValue := IntToString(safeValue);
      }
    }

    /** `handleChange`: a string outside `^-?\d*$` changes nothing and reports
      nothing; any other is shown as typed and its value reported. */
    method HandleChange(raw: string) returns (sent: Option<int>)
      modifies this
      ensures SignedDigits(raw) ==> localValue == raw && sent == Some(AcceptedValue(raw))
      ensures !SignedDigits(raw) ==> localValue == old(localValue) && sent.None?
    {
      if !SignedDigits(raw) {
        return None;
      }
      localValue := raw;
      var num := ParseInt(raw);
      if num.NaN? {
        sent := Some(0);
      } else {
        sent := Some(num.v);
      }
    }

    /** `handleBlur` */
    method Blur(value: Num)
      requires Renderable(value)
      modifies this
      ensures localValue == BlurText(value)
    {
      localValue := if value.NaN? then "NaN" else IntToString(value.v);
    }
  }

  /** What is typed survives the round trip through the parent: when the
      parent stores the reported value and passes it back, the effect leaves
      the text alone, so "", "-" and leading zeros stay on screen. */
  lemma TypingSurvivesEcho(raw: string)
    requires SignedDigits(raw)
    ensures Resynced(raw, Int(AcceptedValue(raw))) == raw
  {
  }

  /** Running the effect twice is running it once. */
  lemma ResyncIdempotent(local: string, value: Num)
    requires Renderable(value)
    ensures Resynced(Resynced(local, value), value) == Resynced(local, value)
  {
  }

  /** After a blur the effect has nothing to change. */
  lemma BlurThenEffect(value: Num)
    requires Renderable(value)
    ensures Resynced(BlurText(value), value) == BlurText(value)
  {
  }

  /** The filter: a sign other than a leading minus, a decimal point or any
      other character is refused; the empty string and a lone minus pass. */
  lemma FilterExamples()
    ensures SignedDigits("") && SignedDigits("-") && SignedDigits("-12") && SignedDigits("007")
    ensures !SignedDigits("+5") && !SignedDigits("1.5") && !SignedDigits("--1") && !SignedDigits("1-")
  {
    var plus, point, twice, trailing := "+5", "1.5", "--1", "1-";
    assert !IsDigit(plus[0]) && plus[0] != '-';
    assert !IsDigit(point[1]) && point[0] != '-';
    assert !IsDigit(twice[1..][0]) && !IsDigit(twice[0]);
    assert !IsDigit(trailing[1]) && trailing[0] != '-';
  }
}
