/**
 * String operations of the JavaScript standard library that the core uses:
 * `startsWith`, `endsWith`, `includes`, `split`, `trim`, `parseInt`,
 * `Number(string)`, `toString` on integers, and the comparison used by the
 * index sort (plain lexicographic order on characters).
 */
module Strings {
  import opened Wrappers
  import opened Js

  predicate StartsWith(s: string, prefix: string) {
    |prefix| <= |s| && s[..|prefix|] == prefix
  }

  predicate EndsWith(s: string, suffix: string) {
    |suffix| <= |s| && s[|s| - |suffix|..] == suffix
  }

  // ---------------------------------------------------------------------------
  // Whitespace and trim

  /** The WhiteSpace and LineTerminator characters `trim` and `parseInt` skip. */
  predicate IsWhitespace(c: char) {
    c == ' ' || ('\t' <= c <= '\r') || c == '\U{A0}' || c == '\U{1680}'
    || ('\U{2000}' <= c <= '\U{200A}') || c == '\U{2028}' || c == '\U{2029}'
    || c == '\U{202F}' || c == '\U{205F}' || c == '\U{3000}' || c == '\U{FEFF}'
  }

  predicate AllWhitespace(s: string) {
    forall i :: 0 <= i < |s| ==> IsWhitespace(s[i])
  }

  function TrimStart(s: string): (r: string)
    ensures r == [] || !IsWhitespace(r[0])
    ensures |r| <= |s| && r == s[|s| - |r|..]
    ensures AllWhitespace(s[..|s| - |r|])
  {
    if |s| > 0 && IsWhitespace(s[0]) then
      var r := TrimStart(s[1..]);
      assert forall i :: 1 <= i < |s| - |r| ==> s[i] == s[1..][..|s| - 1 - |r|][i - 1];
      r
    else
      s
  }

  function TrimEnd(s: string): (r: string)
    ensures r == [] || !IsWhitespace(r[|r| - 1])
    ensures |r| <= |s| && r == s[..|r|]
    ensures AllWhitespace(s[|r|..])
  {
    if |s| > 0 && IsWhitespace(s[|s| - 1]) then
      var r := TrimEnd(s[..|s| - 1]);
      assert s[..|s| - 1][|r|..] + [s[|s| - 1]] == s[|r|..];
      r
    else
      s
  }

  /** `s.trim()` */
  function Trim(s: string): (r: string)
    ensures r == [] || (!IsWhitespace(r[0]) && !IsWhitespace(r[|r| - 1]))
    ensures r == [] <==> AllWhitespace(s)
  {
    TrimEnd(TrimStart(s))
  }

  // ---------------------------------------------------------------------------
  // split and join

  /** `s.split(sep)` for a one-character separator. */
  function Split(s: string, sep: char): (r: seq<string>)
    ensures |r| >= 1
    ensures forall i :: 0 <= i < |r| ==> sep !in r[i]
    decreases |s|
  {
    if |s| == 0 then [""]
    else
      var rest := Split(s[1..], sep);
      if s[0] == sep then [""] + rest
      else [[s[0]] + rest[0]] + rest[1..]
  }

  /** `parts.join(sep)` */
  function Join(parts: seq<string>, sep: char): string
    requires |parts| >= 1
  {
    if |parts| == 1 then parts[0] else parts[0] + [sep] + Join(parts[1..], sep)
  }

  /** Splitting loses nothing: joining the pieces back gives the original. */
  lemma {:induction false} JoinSplit(s: string, sep: char)
    ensures Join(Split(s, sep), sep) == s
    decreases |s|
  {
    if |s| > 0 {
      var rest := Split(s[1..], sep);
      JoinSplit(s[1..], sep);
      if s[0] == sep {
        assert Split(s, sep)[1..] == rest;
      } else {
        var r := Split(s, sep);
        if |rest| == 1 {
          assert r == [[s[0]] + rest[0]];
        } else {
          assert r[1..] == rest[1..];
          assert Join(rest, sep) == rest[0] + [sep] + Join(rest[1..], sep);
        }
      }
    }
  }

  /** The first piece of a split is the longest separator-free prefix. */
  lemma {:induction false} SplitFirst(s: string, sep: char)
    ensures |Split(s, sep)[0]| <= |s|
    ensures Split(s, sep)[0] == s[..|Split(s, sep)[0]|]
    ensures |Split(s, sep)[0]| < |s| ==> s[|Split(s, sep)[0]|] == sep
    decreases |s|
  {
    if |s| > 0 && s[0] != sep {
      SplitFirst(s[1..], sep);
    }
  }

  // ---------------------------------------------------------------------------
  // Decimal digits

  predicate IsDigit(c: char) {
    '0' <= c <= '9'
  }

  predicate AllDigits(s: string) {
    forall i :: 0 <= i < |s| ==> IsDigit(s[i])
  }

  function DigitChar(d: nat): (c: char)
    requires d < 10
    ensures IsDigit(c)
  {
    ('0' as int + d) as char
  }

  /** The value of a string of decimal digits, leading zeros allowed. */
  function DigitsValue(s: string): nat
    requires AllDigits(s)
  {
    if s == [] then 0
    else DigitsValue(s[..|s| - 1]) * 10 + (s[|s| - 1] as int - '0' as int)
  }

  /** The longest prefix of digits. */
  function DigitPrefix(s: string): (r: string)
    ensures AllDigits(r) && |r| <= |s| && r == s[..|r|]
    ensures |r| < |s| ==> !IsDigit(s[|r|])
  {
    if |s| > 0 && IsDigit(s[0]) then
      var r := DigitPrefix(s[1..]);
      [s[0]] + r
    else
      []
  }

  /** Decimal representation of a natural number, without leading zeros. */
  function NatToString(n: nat): (r: string)
    ensures |r| >= 1 && AllDigits(r)
    ensures DigitsValue(r) == n
  {
    if n < 10 then [DigitChar(n)]
    else
      var r := NatToString(n / 10) + [DigitChar(n % 10)];
      assert r[..|r| - 1] == NatToString(n / 10);
      r
  }

  /** `n.toString()` for an integer. */
  function IntToString(n: int): (r: string)
    ensures |r| >= 1
    ensures !IsWhitespace(r[0])
  {
    if n >= 0 then NatToString(n) else "-" + NatToString(-n)
  }

  /** `parseInt(s, 10)`: skip leading whitespace, an optional sign, then the
      longest run of digits; NaN when there is none. */
  function ParseInt(s: string): (r: Num)
    ensures r.NaN? || r.Int?
  {
    var t := TrimStart(s);
    var neg := |t| > 0 && t[0] == '-';
    var body := if |t| > 0 && (t[0] == '-' || t[0] == '+') then t[1..] else t;
    var d := DigitPrefix(body);
    if d == [] then NaN
    else if neg then Int(-(DigitsValue(d) as int))
    else Int(DigitsValue(d))
  }

  lemma DigitPrefixOfDigits(s: string)
    requires AllDigits(s)
    ensures DigitPrefix(s) == s
  {
  }

  /** `parseInt` reads back what `toString` wrote. */
  lemma ParseIntToString(n: int)
    ensures ParseInt(IntToString(n)) == Int(n)
  {
    var t := IntToString(n);
    assert TrimStart(t) == t;
    if n >= 0 {
      DigitPrefixOfDigits(t);
    } else {
      assert t[1..] == NatToString(-n);
      DigitPrefixOfDigits(t[1..]);
    }
  }

  /** The numeric-input filter `^-?\d*$`: an optional minus sign then digits. */
  predicate SignedDigits(s: string) {
    AllDigits(s) || (|s| >= 1 && s[0] == '-' && AllDigits(s[1..]))
  }

  /** On filtered input, `parseInt` is NaN exactly for "" and "-", and otherwise
      reads every digit. */
  lemma ParseIntSignedDigits(s: string)
    requires SignedDigits(s)
    ensures ParseInt(s).NaN? <==> s == "" || s == "-"
    ensures AllDigits(s) && s != "" ==> ParseInt(s) == Int(DigitsValue(s))
    ensures !AllDigits(s) && s != "-" ==> ParseInt(s) == Int(-(DigitsValue(s[1..]) as int))
  {
    if s == [] {
    } else if AllDigits(s) {
      ParseIntDigits(s);
    } else {
      ParseIntNegative(s);
    }
  }

  lemma ParseIntDigits(s: string)
    requires s != [] && AllDigits(s)
    ensures ParseInt(s) == Int(DigitsValue(s))
  {
    assert s[0] != '-' && s[0] != '+' && !IsWhitespace(s[0]) by {
      assert IsDigit(s[0]);
    }
    assert TrimStart(s) == s;
    assert DigitPrefix(s) == s by {
      DigitPrefixOfDigits(s);
    }
  }

  lemma ParseIntNegative(s: string)
    requires |s| >= 1 && s[0] == '-' && AllDigits(s[1..])
    ensures ParseInt(s).NaN? <==> s == "-"
    ensures s != "-" ==> ParseInt(s) == Int(-(DigitsValue(s[1..]) as int))
  {
    assert TrimStart(s) == s;
    DigitPrefixOfDigits(s[1..]);
  }

  lemma AllDigitsConcat(a: string, b: string)
    requires AllDigits(a) && AllDigits(b)
    ensures AllDigits(a + b)
  {
    assert forall i :: 0 <= i < |a + b| ==> (a + b)[i] == if i < |a| then a[i] else b[i - |a|];
  }

  // ---------------------------------------------------------------------------
  // Number(string)

  /** The base that the letter after a leading `0` selects (`0x`, `0o`,
      `0b`, either case), 0 for any other character. */
  function RadixOf(c: char): nat {
    if c == 'x' || c == 'X' then 16
    else if c == 'o' || c == 'O' then 8
    else if c == 'b' || c == 'B' then 2
    else 0
  }

  /** The value of a hexadecimal digit in either case, 16 for any other character. */
  function HexDigitValue(c: char): nat {
    if '0' <= c <= '9' then c as int - '0' as int
    else if 'a' <= c <= 'f' then c as int - 'a' as int + 10
    else if 'A' <= c <= 'F' then c as int - 'A' as int + 10
    else 16
  }

  predicate AllRadixDigits(s: string, radix: nat) {
    forall i :: 0 <= i < |s| ==> HexDigitValue(s[i]) < radix
  }

  /** The value of a string of digits in base `radix`. */
  function RadixValue(s: string, radix: nat): nat
    requires AllRadixDigits(s, radix)
  {
    if s == [] then 0 else RadixValue(s[..|s| - 1], radix) * radix + HexDigitValue(s[|s| - 1])
  }

  function Pow10(k: nat): (r: nat)
    ensures r >= 1
  {
    if k == 0 then 1 else 10 * Pow10(k - 1)
  }

  /** An exponent part: `e` or `E`, an optional sign and at least one digit;
      the empty string is exponent 0, anything else is none. */
  function ExponentPart(s: string): (r: Option<int>)
    ensures s == [] ==> r == Some(0)
  {
    if s == [] then Some(0)
    else if s[0] != 'e' && s[0] != 'E' then None
    else
      var t := s[1..];
      var signed := |t| > 0 && (t[0] == '-' || t[0] == '+');
      var ds := if signed then t[1..] else t;
      if ds == [] || !AllDigits(ds) then None
      else if t[0] == '-' then Some(-(DigitsValue(ds) as int))
      else Some(DigitsValue(ds))
  }

  /** The part after the integer digits of a decimal literal: an optional
      `.` with the fraction digits, and what follows them. */
  function FractionPart(rest: string): (r: (string, string))
    ensures AllDigits(r.0)
  {
    if |rest| > 0 && rest[0] == '.' then
      var fp := DigitPrefix(rest[1..]);
      (fp, rest[1 + |fp|..])
    else ([], rest)
  }

  /** An unsigned decimal literal (`12`, `1.50`, `.5`, `3.`, each with an
      optional exponent part), read as a mantissa `m` and a power `k` for
      the value `m × 10^k`; none when the string is not such a literal. */
  function DecimalLiteral(s: string): (r: Option<(nat, int)>)
  {
    var ip := DigitPrefix(s);
    DecimalAfter(ip, s[|ip|..])
  }

  /** The rest of a decimal literal after its integer digits `ip`. */
  function DecimalAfter(ip: string, rest: string): (r: Option<(nat, int)>)
    requires AllDigits(ip)
  {
    var (fp, tail) := FractionPart(rest);
    var e := ExponentPart(tail);
    if |ip| + |fp| == 0 || e.None? then None
    else
      AllDigitsConcat(ip, fp);
      Some((DigitsValue(ip + fp), e.value - |fp|))
  }

  /** What `Number` reads from a string: a whole number, a fraction, an
      infinity, or no number at all. */
  datatype Reading = Whole(v: int) | Fraction | Infinite | Malformed

  /** `m / 10^j` when `m` ends in `j` zero digits, none otherwise. */
  function DropZeros(m: nat, j: nat): (r: Option<nat>)
  {
    if j == 0 then Some(m)
    else if m % 10 == 0 then DropZeros(m / 10, j - 1)
    else None
  }

  /** `m × 10^k`, negated with `neg`, when it is a whole number. */
  function Scaled(m: nat, k: int, neg: bool): (r: Reading)
    ensures r.Whole? || r.Fraction?
  {
    var v: Option<nat> := if k >= 0 then Some(m * Pow10(k)) else DropZeros(m, -k);
    if v.None? then Fraction else Whole(if neg then -(v.value as int) else v.value)
  }

  /** An unsigned decimal literal or `Infinity`, negated with `neg`. */
  function ReadDecimal(body: string, neg: bool): (r: Reading)
  {
    if body == "Infinity" then Infinite
    else
      match DecimalLiteral(body)
      case None => Malformed
      case Some((m, k)) => Scaled(m, k, neg)
  }

  /** The StringToNumber conversion of section 7.1.4.1 of ECMA-262 on a string
      without surrounding whitespace: a `0x`/`0o`/`0b` literal (no sign), or a
      decimal literal or `Infinity`, either with an optional sign. */
  function ReadLiteral(t: string): (r: Reading)
  {
    if |t| >= 3 && t[0] == '0' && RadixOf(t[1]) != 0 then
      var radix := RadixOf(t[1]);
      if AllRadixDigits(t[2..], radix) then Whole(RadixValue(t[2..], radix)) else Malformed
    else if |t| > 0 && t[0] == '-' then ReadDecimal(t[1..], true)
    else if |t| > 0 && t[0] == '+' then ReadDecimal(t[1..], false)
    else ReadDecimal(t, false)
  }

  /** `Number(s)` for a string: an empty or all-whitespace string is 0,
      otherwise the literal left after trimming. */
  function NumberReading(s: string): (r: Reading)
    ensures AllWhitespace(s) ==> r == Whole(0)
  {
    var t := Trim(s);
    if t == [] then Whole(0) else ReadLiteral(t)
  }

  /** `Number(s)` as a number field: a whole number is that integer, and a
      string that is no number is NaN. */
  function StringToNumber(s: string): (r: Num)
    ensures r.NaN? || r.Int?
    ensures NumberReading(s).Whole? ==> r == Int(NumberReading(s).v)
    ensures NumberReading(s).Malformed? ==> r.NaN?
  {
    match NumberReading(s)
    case Whole(v) => Int(v)
    case _ => NaN
  }

  /** `Number(x)` for an optional string field: `undefined` is NaN. */
  function TextToNumber(t: Text): (r: Num)
    ensures r.NaN? || r.Int?
    ensures t.Absent? ==> r.NaN?
    ensures t.Str? ==> r == StringToNumber(t.s)
  {
    if t.Absent? then NaN else StringToNumber(t.s)
  }

  /** A string with no whitespace at either end is its own trim. */
  lemma TrimUnpadded(t: string)
    requires t != [] && !IsWhitespace(t[0]) && !IsWhitespace(t[|t| - 1])
    ensures Trim(t) == t
  {
  }

  /** The digit prefix of digits followed by a non-digit is those digits. */
  lemma {:induction false} DigitPrefixStops(d: string, rest: string)
    requires AllDigits(d) && (rest == [] || !IsDigit(rest[0]))
    ensures DigitPrefix(d + rest) == d
    decreases |d|
  {
    if d != [] {
      assert (d + rest)[1..] == d[1..] + rest;
      DigitPrefixStops(d[1..], rest);
    } else {
      assert d + rest == rest;
    }
  }

  /** A trimmed string that starts with a digit other than a `0x`/`0o`/`0b`
      prefix is read as an unsigned decimal literal. */
  lemma ReadUnsigned(t: string)
    requires t != [] && IsDigit(t[0]) && !IsWhitespace(t[|t| - 1])
    requires |t| >= 2 ==> RadixOf(t[1]) == 0
    ensures NumberReading(t) == ReadDecimal(t, false)
  {
    TrimUnpadded(t);
  }

  /** After its digit prefix, a decimal literal is read from what follows. */
  lemma DecimalSplit(d: string, rest: string)
    requires AllDigits(d) && (rest == [] || !IsDigit(rest[0]))
    ensures DecimalLiteral(d + rest) == DecimalAfter(d, rest)
  {
    DigitPrefixStops(d, rest);
    assert (d + rest)[|d|..] == rest;
  }

  lemma DecimalOfDigits(d: string)
    requires d != [] && AllDigits(d)
    ensures DecimalLiteral(d) == Some((DigitsValue(d), 0))
  {
    assert d + [] == d;
    DecimalSplit(d, []);
  }

  lemma DecimalOfFraction(d: string, z: string)
    requires d != [] && AllDigits(d) && AllDigits(z)
    ensures AllDigits(d + z)
    ensures DecimalLiteral(d + "." + z) == Some((DigitsValue(d + z), -|z|))
  {
    AllDigitsConcat(d, z);
    var rest := "." + z;
    assert d + "." + z == d + rest;
    DecimalSplit(d, rest);
    FractionOfDigits(z);
  }

  lemma FractionOfDigits(z: string)
    requires AllDigits(z)
    ensures FractionPart("." + z) == (z, [])
  {
    var rest := "." + z;
    assert rest[1..] == z;
    DigitPrefixOfDigits(z);
    assert rest[1 + |z|..] == [];
  }

  predicate AllZeros(z: string) {
    forall i :: 0 <= i < |z| ==> z[i] == '0'
  }

  /** Trailing zero digits can be dropped again. */
  lemma {:induction false} DropTrailingZeros(d: string, z: string)
    requires AllDigits(d) && AllZeros(z)
    ensures AllDigits(z) && AllDigits(d + z)
    ensures DropZeros(DigitsValue(d + z), |z|) == Some(DigitsValue(d))
    decreases |z|
  {
    assert AllDigits(z);
    AllDigitsConcat(d, z);
    if z == [] {
      assert d + z == d;
    } else {
      var z' := z[..|z| - 1];
      assert (d + z)[..|d + z| - 1] == d + z';
      assert (d + z)[|d + z| - 1] == '0';
      DropTrailingZeros(d, z');
    }
  }

  /** `Number` reads back what `toString` writes for every integer. */
  lemma NumberIntToString(n: int)
    ensures StringToNumber(IntToString(n)) == Int(n)
  {
    var t := IntToString(n);
    var digits := NatToString(if n >= 0 then n else -n);
    assert !IsWhitespace(t[|t| - 1]) by {
      assert t[|t| - 1] == digits[|digits| - 1];
    }
    DecimalOfDigits(digits);
    if n >= 0 {
      assert |t| >= 2 ==> IsDigit(t[1]);
      ReadUnsigned(t);
    } else {
      TrimUnpadded(t);
      assert t[1..] == digits;
      assert digits != "Infinity" by {
        assert digits[0] != 'I';
      }
    }
  }

  /** A fraction part of zeros changes nothing: `Number("5.0")` and
      `Number("5.")` are 5. */
  lemma NumberZeroFraction(d: string, z: string)
    requires d != [] && AllDigits(d)
    requires AllZeros(z)
    ensures StringToNumber(d + "." + z) == Int(DigitsValue(d))
  {
    var t := d + "." + z;
    DecimalOfFraction(d, z);
    FractionStart(d, z);
    DecimalReading(t, false, DigitsValue(d + z), -|z|);
    ZeroFractionScaled(d, z);
  }

  lemma FractionStart(d: string, z: string)
    requires d != [] && AllDigits(d) && AllDigits(z)
    ensures d + "." + z != "Infinity"
    ensures NumberReading(d + "." + z) == ReadDecimal(d + "." + z, false)
  {
    var t := d + "." + z;
    assert t == d + ("." + z);
    assert t[0] == d[0];
    assert !IsWhitespace(t[|t| - 1]) by {
      if z != [] {
        assert t[|t| - 1] == z[|z| - 1];
      }
    }
    DecimalStart(d, "." + z);
  }

  lemma ZeroFractionScaled(d: string, z: string)
    requires AllDigits(d) && AllZeros(z)
    ensures AllDigits(d + z)
    ensures Scaled(DigitsValue(d + z), -|z|, false) == Whole(DigitsValue(d))
  {
    DropTrailingZeros(d, z);
    if z == [] {
      assert d + z == d;
    }
  }

  /** A decimal literal reads as its scaled mantissa. */
  lemma DecimalReading(t: string, neg: bool, m: nat, k: int)
    requires t != "Infinity" && DecimalLiteral(t) == Some((m, k))
    ensures ReadDecimal(t, neg) == Scaled(m, k, neg)
  {
  }

  /** Digits followed by something that does not end in whitespace are
      read as an unsigned decimal literal. */
  lemma DecimalStart(d: string, rest: string)
    requires d != [] && AllDigits(d) && rest != [] && RadixOf(rest[0]) == 0
    requires !IsWhitespace((d + rest)[|d + rest| - 1])
    ensures NumberReading(d + rest) == ReadDecimal(d + rest, false)
  {
    var t := d + rest;
    assert t[0] == d[0];
    assert t[1] == if |d| >= 2 then d[1] else rest[0];
    ReadUnsigned(t);
  }

  lemma DecimalOfExponent(d: string, x: string)
    requires d != [] && AllDigits(d) && x != [] && AllDigits(x)
    ensures DecimalLiteral(d + "e" + x) == Some((DigitsValue(d), DigitsValue(x) as int))
  {
    var rest := "e" + x;
    assert d + "e" + x == d + rest;
    DecimalSplit(d, rest);
    assert ExponentPart(rest) == Some(DigitsValue(x) as int) by {
      assert rest[1..] == x;
      assert x[0] != '-' && x[0] != '+' by {
        assert IsDigit(x[0]);
      }
    }
    assert d + [] == d;
  }

  /** An exponent scales by a power of ten: `Number("1e1")` is 10. */
  lemma NumberExponent(d: string, e: nat)
    requires d != [] && AllDigits(d)
    ensures StringToNumber(d + "e" + NatToString(e)) == Int(DigitsValue(d) * Pow10(e))
  {
    var x := NatToString(e);
    var t := d + "e" + x;
    DecimalOfExponent(d, x);
    assert t[0] == d[0];
    assert !IsWhitespace(t[|t| - 1]) by {
      assert t[|t| - 1] == x[|x| - 1];
    }
    assert |t| >= 2 ==> RadixOf(t[1]) == 0 by {
      if |d| >= 2 {
        assert t[1] == d[1];
      } else {
        assert t[1] == 'e';
      }
    }
    ReadUnsigned(t);
  }

  /** A `0x` literal is read in base 16: `Number("0x10")` is 16. */
  lemma NumberHex(h: string)
    requires h != [] && AllRadixDigits(h, 16)
    ensures StringToNumber("0x" + h) == Int(RadixValue(h, 16))
  {
    var t := "0x" + h;
    assert !IsWhitespace(t[|t| - 1]) by {
      assert t[|t| - 1] == h[|h| - 1];
      assert HexDigitValue(h[|h| - 1]) < 16;
    }
    TrimUnpadded(t);
    assert t[2..] == h;
  }

  /** Digits followed by text that is neither a fraction nor an exponent,
      such as the dice notation `2D+7`, are no number. */
  lemma NumberDigitsThenText(d: string, rest: string)
    requires d != [] && AllDigits(d) && rest != []
    requires !IsDigit(rest[0]) && rest[0] !in ".eE" && RadixOf(rest[0]) == 0
    requires !IsWhitespace(rest[|rest| - 1])
    ensures StringToNumber(d + rest).NaN?
  {
    var t := d + rest;
    assert t[|t| - 1] == rest[|rest| - 1];
    DecimalStart(d, rest);
    DecimalSplit(d, rest);
    assert DecimalAfter(d, rest).None?;
    assert t != "Infinity" by {
      assert t[0] == d[0];
    }
  }

  /** `Number("2D+7")` is NaN. */
  lemma NumberDice()
    ensures StringToNumber("2D+7").NaN?
  {
    var rest := "D+7";
    assert "2D+7" == "2" + rest;
    NumberDigitsThenText("2", rest);
  }

  // ---------------------------------------------------------------------------
  // Lexicographic order on strings (the index sort's string comparison)

  /** `a` sorts strictly before `b`. */
  predicate Less(a: string, b: string)
    decreases |a|
  {
    if a == [] then b != []
    else if b == [] then false
    else if a[0] != b[0] then a[0] < b[0]
    else Less(a[1..], b[1..])
  }

  lemma {:induction false} LessIrreflexive(a: string)
    ensures !Less(a, a)
    decreases |a|
  {
    if a != [] {
      LessIrreflexive(a[1..]);
    }
  }

  lemma {:induction false} LessAsymmetric(a: string, b: string)
    ensures Less(a, b) ==> !Less(b, a)
    decreases |a|
  {
    if a != [] && b != [] && a[0] == b[0] {
      LessAsymmetric(a[1..], b[1..]);
    }
  }

  lemma {:induction false} LessTransitive(a: string, b: string, c: string)
    requires Less(a, b) && Less(b, c)
    ensures Less(a, c)
    decreases |a|
  {
    if a != [] && a[0] == b[0] && b[0] == c[0] {
      LessTransitive(a[1..], b[1..], c[1..]);
    }
  }

  lemma {:induction false} LessTotal(a: string, b: string)
    ensures a == b || Less(a, b) || Less(b, a)
    decreases |a|
  {
    if a != [] && b != [] && a[0] == b[0] {
      LessTotal(a[1..], b[1..]);
      if a[1..] == b[1..] {
        assert a == [a[0]] + a[1..] && b == [b[0]] + b[1..];
      }
    }
  }
}
