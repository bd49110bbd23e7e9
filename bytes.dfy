/**
 * Bytes and the primitive byte codings the tree codec is built from:
 * unsigned LEB128 varints, zigzag-coded integers, and strings as a length
 * followed by one varint per Unicode scalar value.
 */
module Bytes {
  import opened Wrappers

  newtype byte = x: int | 0 <= x < 256

  type bytes = seq<byte>

  // ---------------------------------------------------------------------------
  // Unsigned varints

  /** Seven bits per byte, least significant group first; every byte but the
      last has its high bit set. */
  function EncodeNat(n: nat): (r: bytes)
    ensures |r| >= 1
    decreases n
  {
    if n < 128 then [n as byte] else [(128 + n % 128) as byte] + EncodeNat(n / 128)
  }

  /** Reads one varint and returns it with the bytes after it. */
  function DecodeNat(bs: bytes): (r: Option<(nat, bytes)>)
    ensures r.Some? ==> |r.value.1| < |bs|
    ensures r.Some? ==> r.value.1 == bs[|bs| - |r.value.1|..]
    decreases |bs|
  {
    if |bs| == 0 then None
    else if bs[0] < 128 then Some((bs[0] as nat, bs[1..]))
    else
      match DecodeNat(bs[1..])
      case None => None
      case Some((v, rest)) => Some(((bs[0] as nat - 128) + 128 * v, rest))
  }

  lemma {:induction false} DecodeEncodeNat(n: nat, rest: bytes)
    ensures DecodeNat(EncodeNat(n) + rest) == Some((n, rest))
    decreases n
  {
    if n < 128 {
      assert ([n as byte] + rest)[1..] == rest;
    } else {
      assert (EncodeNat(n) + rest)[1..] == EncodeNat(n / 128) + rest;
      DecodeEncodeNat(n / 128, rest);
    }
  }

  // ---------------------------------------------------------------------------
  // Signed integers

  /** 0, -1, 1, -2, 2, ... are numbered 0, 1, 2, 3, 4, ... */
  function ZigZag(i: int): nat {
    if i >= 0 then 2 * i else -2 * i - 1
  }

  function UnZigZag(n: nat): int {
    if n % 2 == 0 then n / 2 else 0 - (n + 1) / 2
  }

  lemma UnZigZagZigZag(i: int)
    ensures UnZigZag(ZigZag(i)) == i
  {
  }

  function EncodeInt(i: int): (r: bytes)
    ensures |r| >= 1
  {
    EncodeNat(ZigZag(i))
  }

  function DecodeInt(bs: bytes): (r: Option<(int, bytes)>)
    ensures r.Some? ==> |r.value.1| < |bs|
  {
    match DecodeNat(bs)
    case None => None
    case Some((n, rest)) => Some((UnZigZag(n), rest))
  }

  lemma DecodeEncodeInt(i: int, rest: bytes)
    ensures DecodeInt(EncodeInt(i) + rest) == Some((i, rest))
  {
    DecodeEncodeNat(ZigZag(i), rest);
    UnZigZagZigZag(i);
  }

  // ---------------------------------------------------------------------------
  // Strings

  /** The code points a `char` can hold: the Unicode scalar values. */
  predicate IsScalar(n: nat) {
    n < 0xD800 || (0xE000 <= n < 0x11_0000)
  }

  function EncodeChars(s: string): (r: bytes)
    ensures |r| >= |s|
  {
    if s == [] then [] else EncodeNat(s[0] as nat) + EncodeChars(s[1..])
  }

  /** Reads `n` characters; a code point that is not a scalar value is an error. */
  function DecodeChars(bs: bytes, n: nat): (r: Option<(string, bytes)>)
    ensures r.Some? ==> |r.value.1| <= |bs| && |r.value.0| == n
    decreases n
  {
    if n == 0 then Some(([], bs))
    else
      match DecodeNat(bs)
      case None => None
      case Some((c, rest)) =>
        if !IsScalar(c) then None
        else
          match DecodeChars(rest, n - 1)
          case None => None
          case Some((cs, rest')) => Some(([c as char] + cs, rest'))
  }

  lemma {:induction false} DecodeEncodeChars(s: string, rest: bytes)
    ensures DecodeChars(EncodeChars(s) + rest, |s|) == Some((s, rest))
    decreases |s|
  {
    if s != [] {
      var bs := EncodeChars(s) + rest;
      var tail := EncodeChars(s[1..]) + rest;
      assert bs == EncodeNat(s[0] as nat) + tail;
      assert DecodeNat(bs) == Some((s[0] as nat, tail)) by {
        DecodeEncodeNat(s[0] as nat, tail);
      }
      assert DecodeChars(tail, |s| - 1) == Some((s[1..], rest)) by {
        DecodeEncodeChars(s[1..], rest);
      }
      assert IsScalar(s[0] as nat) && (s[0] as nat) as char == s[0];
      assert [s[0]] + s[1..] == s;
    } else {
      assert EncodeChars(s) + rest == rest;
    }
  }

  function EncodeString(s: string): (r: bytes)
    ensures |r| >= 1
  {
    EncodeNat(|s|) + EncodeChars(s)
  }

  function DecodeString(bs: bytes): (r: Option<(string, bytes)>)
    ensures r.Some? ==> |r.value.1| < |bs|
  {
    match DecodeNat(bs)
    case None => None
    case Some((n, rest)) => DecodeChars(rest, n)
  }

  lemma DecodeEncodeString(s: string, rest: bytes)
    ensures DecodeString(EncodeString(s) + rest) == Some((s, rest))
  {
    assert EncodeString(s) + rest == EncodeNat(|s|) + (EncodeChars(s) + rest);
    DecodeEncodeNat(|s|, EncodeChars(s) + rest);
    DecodeEncodeChars(s, rest);
  }
}
