/** Bencoded values: the writer, the reader of generic values, and the scanner of raw values. */
module Bencode {
  import opened Common
  import opened Decimals
  import opened KeyOrder

  datatype Value =
    | Int(i: int)
    | Str(s: seq<byte>)
    | List(vs: seq<Value>)
    | Dict(m: map<Key, Value>)

  const D: byte := 100
  const E: byte := 101
  const I: byte := 105
  const L: byte := 108
  const COLON: byte := 58

  // ---------------------------------------------------------------- writing

  function EncodeStr(s: seq<byte>): (r: seq<byte>)
    ensures r != []
  {
    Digits(|s|) + [COLON] + s
  }

  ghost function Encode(v: Value): (r: seq<byte>)
    ensures r != []
    decreases v, 1, 0
  {
    match v
    case Int(i) => [I] + Numeral(i) + [E]
    case Str(s) => EncodeStr(s)
    case List(vs) => [L] + EncodeAll(vs) + [E]
    case Dict(m) => [D] + EncodeEntries(v, Sorted(m.Keys)) + [E]
  }

  ghost function EncodeAll(vs: seq<Value>): seq<byte>
    decreases vs, 0, 0
  {
    if vs == [] then [] else Encode(vs[0]) + EncodeAll(vs[1..])
  }

  ghost function EncodeEntries(v: Value, ks: seq<Key>): seq<byte>
    requires v.Dict? && forall k | k in ks :: k in v.m
    decreases v, 0, |ks|
  {
    if ks == [] then [] else EncodeStr(ks[0]) + Encode(v.m[ks[0]]) + EncodeEntries(v, ks[1..])
  }

  // ---------------------------------------------------------------- reading

  /** What there is at the front of the input, and what follows. */
  datatype Parsed =
    | Bad
    | End(rest: seq<byte>)               // the letter that ends lists and dictionaries
    | Got(v: Value, rest: seq<byte>)

  /** The bytes before the first separator, and those after it. */
  function Until(s: seq<byte>, sep: byte): (r: Option<(seq<byte>, seq<byte>)>)
    ensures r.Some? ==> s == r.value.0 + [sep] + r.value.1 && sep !in r.value.0
    ensures r.None? <==> sep !in s
  {
    if s == [] then None
    else if s[0] == sep then Some(([], s[1..]))
    else
      match Until(s[1..], sep)
      case None => None
      case Some((a, b)) => Some(([s[0]] + a, b))
  }

  /** A separator that is not in `b` is found right after it. */
  lemma {:induction false} UntilFinds(b: seq<byte>, sep: byte, rest: seq<byte>)
    requires sep !in b
    ensures Until(b + [sep] + rest, sep) == Some((b, rest))
  {
    var s := b + [sep] + rest;
    if b == [] {
      assert s[1..] == rest;
    } else {
      assert s[1..] == b[1..] + [sep] + rest;
      UntilFinds(b[1..], sep, rest);
      assert [b[0]] + b[1..] == b;
    }
  }

  function ParseInt(t: seq<byte>): (r: Parsed)
    ensures r.Got? ==> |r.rest| < |t|
  {
    match Until(t, E)
    case None => Bad
    case Some((b, rest)) =>
      match ParseChecked(b)
      case None => Bad
      case Some(i) => Got(Int(i), rest)
  }

  function ParseStr(s: seq<byte>, max: nat): (r: Parsed)
    ensures r.Got? ==> r.v.Str? && |r.rest| < |s|
  {
    match Until(s, COLON)
    case None => Bad
    case Some((b, rest)) =>
      match ParseChecked(b)
      case None => Bad
      case Some(n) =>
        if n < 0 || n > max || n > |rest| then Bad else Got(Str(rest[..n]), rest[n..])
  }

  function Parse(s: seq<byte>, max: nat): (r: Parsed)
    ensures !r.Bad? ==> |r.rest| < |s|
    decreases |s|, 0
  {
    if s == [] then Bad
    else if s[0] == E then End(s[1..])
    else if s[0] == D then
      match ParseEntries(s[1..], max, None)
      case None => Bad
      case Some((es, rest)) => Got(Dict(MapOf(es)), rest)
    else if s[0] == L then
      match ParseAll(s[1..], max)
      case None => Bad
      case Some((vs, rest)) => Got(List(vs), rest)
    else if s[0] == I then ParseInt(s[1..])
    else if IsDigit(s[0]) then ParseStr(s, max)
    else Bad
  }

  /** Values up to the end letter. */
  function ParseAll(s: seq<byte>, max: nat): (r: Option<(seq<Value>, seq<byte>)>)
    ensures r.Some? ==> |r.value.1| < |s|
    decreases |s|, 1
  {
    match Parse(s, max)
    case Bad => None
    case End(rest) => Some(([], rest))
    case Got(v, rest) =>
      match ParseAll(rest, max)
      case None => None
      case Some((vs, rest1)) => Some(([v] + vs, rest1))
  }

  type Entry = (Key, Value)

  /** Keys and values up to the end letter; each key must be greater than the one before. */
  function ParseEntries(s: seq<byte>, max: nat, last: Option<Key>): (r: Option<(seq<Entry>, seq<byte>)>)
    ensures r.Some? ==> |r.value.1| < |s|
    decreases |s|, 1
  {
    match Parse(s, max)
    case Bad => None
    case End(rest) => Some(([], rest))
    case Got(k, rest) =>
      if !k.Str? || (last.Some? && !Less(last.value, k.s)) then None
      else
        match Parse(rest, max)
        case Bad => None
        case End(_) => None
        case Got(v, rest1) =>
          match ParseEntries(rest1, max, Some(k.s))
          case None => None
          case Some((es, rest2)) => Some(([(k.s, v)] + es, rest2))
  }

  /** The dictionary with the entries stored one after the other. */
  function MapOf(es: seq<Entry>): map<Key, Value> {
    if es == [] then map[] else MapOf(es[..|es| - 1])[es[|es| - 1].0 := es[|es| - 1].1]
  }

  // ------------------------------------------------------------ raw scanning

  datatype Scanned =
    | Unreadable
    | AtEnd                        // the end letter is next, and stays unread
    | Past(rest: seq<byte>)

  const MAX_INT64: nat := 0x7fff_ffff_ffff_ffff

  function ScanStr(s: seq<byte>): (r: Scanned)
    ensures !r.AtEnd? && (r.Past? ==> |r.rest| < |s|)
  {
    match Until(s, COLON)
    case None => Unreadable
    case Some((b, rest)) =>
      match ParseDecimal(b)
      case None => Unreadable
      case Some(n) => if n < 0 || n > MAX_INT64 || n > |rest| then Unreadable else Past(rest[n..])
  }

  function Scan(s: seq<byte>): (r: Scanned)
    ensures r.Past? ==> |r.rest| < |s|
    decreases |s|, 0
  {
    if s == [] then Unreadable
    else if s[0] == E then AtEnd
    else if s[0] == D || s[0] == L then ScanAll(s[1..])
    else if s[0] == I then
      match Until(s[1..], E)
      case None => Unreadable
      case Some((_, rest)) => Past(rest)
    else if IsDigit(s[0]) then ScanStr(s)
    else Unreadable
  }

  /** Values as long as there are any, then the end letter. */
  function ScanAll(s: seq<byte>): (r: Scanned)
    ensures !r.AtEnd?
    ensures r.Past? ==> |r.rest| < |s|
    decreases |s|, 1
  {
    match Scan(s)
    case Unreadable => Unreadable
    case AtEnd => Past(s[1..])
    case Past(rest) => ScanAll(rest)
  }

  // ------------------------------------------ the scanner agrees with the reader

  lemma {:induction false} ScanAgrees(s: seq<byte>, max: nat)
    requires max <= MAX_INT64
    ensures Parse(s, max).Got? ==> Scan(s) == Past(Parse(s, max).rest)
    ensures Parse(s, max).End? ==> Scan(s) == AtEnd && s != [] && Parse(s, max).rest == s[1..]
    decreases |s|, 0
  {
    if s != [] && (s[0] == D || s[0] == L) {
      if s[0] == D {
        ScanEntriesAgrees(s[1..], max, None);
      } else {
        ScanAllAgrees(s[1..], max);
      }
    }
  }

  lemma {:induction false} ScanAllAgrees(s: seq<byte>, max: nat)
    requires max <= MAX_INT64
    ensures ParseAll(s, max).Some? ==> ScanAll(s) == Past(ParseAll(s, max).value.1)
    decreases |s|, 1
  {
    ScanAgrees(s, max);
    if !Parse(s, max).Got? {
    } else {
      ScanAllAgrees(Parse(s, max).rest, max);
    }
  }

  lemma {:induction false} ScanEntriesAgrees(s: seq<byte>, max: nat, last: Option<Key>)
    requires max <= MAX_INT64
    ensures ParseEntries(s, max, last).Some? ==> ScanAll(s) == Past(ParseEntries(s, max, last).value.1)
    decreases |s|, 1
  {
    ScanAgrees(s, max);
    if !Parse(s, max).Got? {
    } else {
      var k, rest := Parse(s, max).v, Parse(s, max).rest;
      ScanAgrees(rest, max);
      if k.Str? && Parse(rest, max).Got? {
        ScanEntriesAgrees(Parse(rest, max).rest, max, Some(k.s));
      }
    }
  }
}
