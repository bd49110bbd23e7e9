/**
 * JSON values and a byte coding for them. The coding stands in for
 * `JSON.stringify` followed by UTF-8 and for `Buffer.toString` followed by
 * `JSON.parse`: what matters to the core is that parsing what was written
 * gives back the same value, and that arbitrary bytes may fail to parse.
 *
 * Coding: one tag byte (0 null, 1 false, 2 true, 3 number, 4 string,
 * 5 array, 6 object), then the payload; arrays and objects carry their
 * element count.
 */
module Tree {
  import opened Wrappers
  import opened Bytes

  datatype Json =
    | JNull
    | JBool(b: bool)
    | JNum(n: int)
    | JStr(s: string)
    | JArr(items: seq<Json>)
    | JObj(fields: seq<Field>)

  /** One `"key": value` member of an object, in writing order. */
  datatype Field = Field(key: string, value: Json)

  /** The value of the first member named `key`, if there is one. */
  function Lookup(fields: seq<Field>, key: string): (r: Option<Json>)
    ensures r.None? <==> forall i :: 0 <= i < |fields| ==> fields[i].key != key
  {
    if fields == [] then None
    else if fields[0].key == key then Some(fields[0].value)
    else Lookup(fields[1..], key)
  }

  /** Looking a key up in `a + b` finds it in `a` first. */
  lemma {:induction false} LookupAppend(a: seq<Field>, b: seq<Field>, key: string)
    ensures Lookup(a + b, key) == if Lookup(a, key).Some? then Lookup(a, key) else Lookup(b, key)
    decreases |a|
  {
    if a != [] {
      assert (a + b)[1..] == a[1..] + b;
      LookupAppend(a[1..], b, key);
    } else {
      assert a + b == b;
    }
  }

  /** A member about to be written; `None` is an `undefined` property,
      which `JSON.stringify` leaves out. */
  datatype Entry = Entry(key: string, value: Option<Json>)

  function Compact(es: seq<Entry>): (r: seq<Field>)
    ensures |r| <= |es|
  {
    if es == [] then []
    else if es[0].value.Some? then [Field(es[0].key, es[0].value.value)] + Compact(es[1..])
    else Compact(es[1..])
  }

  /** An object literal: its defined members, in order. */
  function ObjectOf(es: seq<Entry>): Json {
    JObj(Compact(es))
  }

  predicate DistinctKeys(es: seq<Entry>) {
    forall i, j :: 0 <= i < j < |es| ==> es[i].key != es[j].key
  }

  /** `obj[key]`: the member's value, or nothing when the member is absent or
      the value is not an object. */
  function Member(j: Json, key: string): Option<Json> {
    if j.JObj? then Lookup(j.fields, key) else None
  }

  /** Reading a member back from an object literal gives what was written,
      `undefined` included. */
  lemma {:induction false} MemberObjectOf(es: seq<Entry>, i: nat)
    requires DistinctKeys(es) && i < |es|
    ensures Member(ObjectOf(es), es[i].key) == es[i].value
    decreases |es|
  {
    if i == 0 {
      if es[0].value.None? {
        NotInCompact(es[1..], es[0].key);
      }
    } else {
      assert DistinctKeys(es[1..]) by {
        forall a, b | 0 <= a < b < |es[1..]| ensures es[1..][a].key != es[1..][b].key {
          assert es[1..][a] == es[a + 1] && es[1..][b] == es[b + 1];
        }
      }
      MemberObjectOf(es[1..], i - 1);
      assert es[1..][i - 1] == es[i];
      assert es[0].key != es[i].key;
    }
  }

  lemma {:induction false} NotInCompact(es: seq<Entry>, key: string)
    requires forall i :: 0 <= i < |es| ==> es[i].key != key
    ensures Lookup(Compact(es), key).None?
    decreases |es|
  {
    if es != [] {
      NotInCompact(es[1..], key);
    }
  }

  // ---------------------------------------------------------------------------
  // Writing

  function Encode(j: Json): (r: bytes)
    ensures |r| >= 1
    decreases j
  {
    match j
    case JNull => [0]
    case JBool(b) => if b then [2] else [1]
    case JNum(n) => [3] + EncodeInt(n)
    case JStr(s) => [4] + EncodeString(s)
    case JArr(items) => [5] + EncodeNat(|items|) + EncodeItems(items)
    case JObj(fields) => [6] + EncodeNat(|fields|) + EncodeFields(fields)
  }

  function EncodeItems(items: seq<Json>): bytes
    decreases items
  {
    if items == [] then [] else Encode(items[0]) + EncodeItems(items[1..])
  }

  function EncodeFields(fields: seq<Field>): bytes
    decreases fields
  {
    if fields == [] then [] else EncodeField(fields[0]) + EncodeFields(fields[1..])
  }

  function EncodeField(f: Field): bytes
    decreases f
  {
    EncodeString(f.key) + Encode(f.value)
  }

  // ---------------------------------------------------------------------------
  // Reading

  /** Reads one value and returns it with the bytes after it. */
  function Decode(bs: bytes): (r: Option<(Json, bytes)>)
    ensures r.Some? ==> |r.value.1| < |bs|
    decreases |bs|, 0
  {
    if |bs| == 0 then None
    else
      var tag, body := bs[0], bs[1..];
      if tag == 0 then Some((JNull, body))
      else if tag == 1 then Some((JBool(false), body))
      else if tag == 2 then Some((JBool(true), body))
      else if tag == 3 then
        match DecodeInt(body)
        case None => None
        case Some((n, rest)) => Some((JNum(n), rest))
      else if tag == 4 then
        match DecodeString(body)
        case None => None
        case Some((s, rest)) => Some((JStr(s), rest))
      else if tag == 5 then
        match DecodeNat(body)
        case None => None
        case Some((n, rest)) =>
          match DecodeItems(rest, n)
          case None => None
          case Some((items, rest')) => Some((JArr(items), rest'))
      else if tag == 6 then
        match DecodeNat(body)
        case None => None
        case Some((n, rest)) =>
          match DecodeFields(rest, n)
          case None => None
          case Some((fields, rest')) => Some((JObj(fields), rest'))
      else None
  }

  function DecodeItems(bs: bytes, n: nat): (r: Option<(seq<Json>, bytes)>)
    ensures r.Some? ==> |r.value.1| <= |bs|
    decreases |bs|, 1, n
  {
    if n == 0 then Some(([], bs))
    else
      match Decode(bs)
      case None => None
      case Some((j, rest)) =>
        match DecodeItems(rest, n - 1)
        case None => None
        case Some((js, rest')) => Some(([j] + js, rest'))
  }

  /** Reads one member: its key, then its value. */
  function DecodeField(bs: bytes): (r: Option<(Field, bytes)>)
    ensures r.Some? ==> |r.value.1| < |bs|
    decreases |bs|, 1
  {
    match DecodeString(bs)
    case None => None
    case Some((k, rest)) =>
      match Decode(rest)
      case None => None
      case Some((v, rest')) => Some((Field(k, v), rest'))
  }

  function DecodeFields(bs: bytes, n: nat): (r: Option<(seq<Field>, bytes)>)
    ensures r.Some? ==> |r.value.1| <= |bs|
    decreases |bs|, 2, n
  {
    if n == 0 then Some(([], bs))
    else
      match DecodeField(bs)
      case None => None
      case Some((f, rest)) =>
        match DecodeFields(rest, n - 1)
        case None => None
        case Some((fs, rest')) => Some(([f] + fs, rest'))
  }

  /** A whole byte string holding exactly one value. */
  function Parse(bs: bytes): Option<Json> {
    match Decode(bs)
    case Some((j, rest)) => if rest == [] then Some(j) else None
    case None => None
  }

  // ---------------------------------------------------------------------------
  // Round trip

  lemma {:induction false} DecodeEncode(j: Json, rest: bytes)
    ensures Decode(Encode(j) + rest) == Some((j, rest))
    decreases j, 1
  {
    match j
    case JNull =>
      assert (Encode(j) + rest)[1..] == rest;
    case JBool(b) =>
      assert (Encode(j) + rest)[1..] == rest;
    case JNum(n) =>
      DecodeEncodeNum(n, rest);
    case JStr(s) =>
      DecodeEncodeStr(s, rest);
    case JArr(items) =>
      DecodeEncodeArr(items, rest);
    case JObj(fields) =>
      DecodeEncodeObj(fields, rest);
  }

  lemma DecodeEncodeNum(n: int, rest: bytes)
    ensures Decode(Encode(JNum(n)) + rest) == Some((JNum(n), rest))
  {
    assert (Encode(JNum(n)) + rest)[1..] == EncodeInt(n) + rest;
    DecodeEncodeInt(n, rest);
  }

  lemma DecodeEncodeStr(s: string, rest: bytes)
    ensures Decode(Encode(JStr(s)) + rest) == Some((JStr(s), rest))
  {
    assert (Encode(JStr(s)) + rest)[1..] == EncodeString(s) + rest;
    DecodeEncodeString(s, rest);
  }

  lemma {:induction false} DecodeEncodeArr(items: seq<Json>, rest: bytes)
    ensures Decode(Encode(JArr(items)) + rest) == Some((JArr(items), rest))
    decreases items, 1
  {
    var bs := Encode(JArr(items)) + rest;
    var after := EncodeItems(items) + rest;
    assert bs[0] == 5 && bs[1..] == EncodeNat(|items|) + after;
    assert DecodeNat(bs[1..]) == Some((|items|, after)) by {
      DecodeEncodeNat(|items|, after);
    }
    assert DecodeItems(after, |items|) == Some((items, rest)) by {
      DecodeEncodeItems(items, rest);
    }
  }

  lemma {:induction false} DecodeEncodeObj(fields: seq<Field>, rest: bytes)
    ensures Decode(Encode(JObj(fields)) + rest) == Some((JObj(fields), rest))
    decreases fields, 1
  {
    var bs := Encode(JObj(fields)) + rest;
    var after := EncodeFields(fields) + rest;
    assert bs[0] == 6 && bs[1..] == EncodeNat(|fields|) + after;
    assert DecodeNat(bs[1..]) == Some((|fields|, after)) by {
      DecodeEncodeNat(|fields|, after);
    }
    assert DecodeFields(after, |fields|) == Some((fields, rest)) by {
      DecodeEncodeFields(fields, rest);
    }
  }

  lemma {:induction false} DecodeEncodeItems(items: seq<Json>, rest: bytes)
    ensures DecodeItems(EncodeItems(items) + rest, |items|) == Some((items, rest))
    decreases items, 0
  {
    if items == [] {
      assert EncodeItems(items) + rest == rest;
    } else {
      var tail := EncodeItems(items[1..]) + rest;
      assert EncodeItems(items) + rest == Encode(items[0]) + tail;
      assert Decode(Encode(items[0]) + tail) == Some((items[0], tail)) by {
        DecodeEncode(items[0], tail);
      }
      assert DecodeItems(tail, |items| - 1) == Some((items[1..], rest)) by {
        DecodeEncodeItems(items[1..], rest);
      }
      assert [items[0]] + items[1..] == items;
    }
  }

  lemma {:induction false} DecodeEncodeFields(fields: seq<Field>, rest: bytes)
    ensures DecodeFields(EncodeFields(fields) + rest, |fields|) == Some((fields, rest))
    decreases fields, 0
  {
    if fields == [] {
      assert EncodeFields(fields) + rest == rest;
    } else {
      var tail := EncodeFields(fields[1..]) + rest;
      assert EncodeFields(fields) + rest == EncodeField(fields[0]) + tail;
      assert DecodeField(EncodeField(fields[0]) + tail) == Some((fields[0], tail)) by {
        DecodeEncodeField(fields[0], tail);
      }
      assert DecodeFields(tail, |fields| - 1) == Some((fields[1..], rest)) by {
        DecodeEncodeFields(fields[1..], rest);
      }
      assert [fields[0]] + fields[1..] == fields;
    }
  }

  lemma {:induction false} DecodeEncodeField(f: Field, rest: bytes)
    ensures DecodeField(EncodeField(f) + rest) == Some((f, rest))
    decreases f
  {
    var tail := Encode(f.value) + rest;
    assert EncodeField(f) + rest == EncodeString(f.key) + tail;
    assert DecodeString(EncodeString(f.key) + tail) == Some((f.key, tail)) by {
      DecodeEncodeString(f.key, tail);
    }
    assert Decode(tail) == Some((f.value, rest)) by {
      DecodeEncode(f.value, rest);
    }
  }

  /** Parsing what was written gives back the value. */
  lemma ParseEncode(j: Json)
    ensures Parse(Encode(j)) == Some(j)
  {
    DecodeEncode(j, []);
    assert Encode(j) + [] == Encode(j);
  }
}
