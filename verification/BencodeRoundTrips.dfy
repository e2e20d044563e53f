/** Reading undoes writing, and writing undoes reading. */
module BencodeRoundTrips {
  import opened Common
  import opened Decimals
  import opened KeyOrder
  import opened Bencode

  /** All strings of a value are within the reader's limit. */
  ghost predicate Within(v: Value, max: nat)
    decreases v
  {
    match v
    case Int(_) => true
    case Str(s) => |s| <= max
    case List(vs) => forall i | 0 <= i < |vs| :: Within(vs[i], max)
    case Dict(m) => forall k | k in m :: |k| <= max && Within(m[k], max)
  }

  // ------------------------------------------------------------------- strings

  lemma NumeralHasNoLetter(i: int)
    ensures E !in Numeral(i) && COLON !in Numeral(i)
  {
    var ds := Digits(if i < 0 then -i else i);
    assert forall j | 0 <= j < |ds| :: IsDigit(ds[j]);
  }

  lemma ParseDigit(s: seq<byte>, max: nat)
    requires s != [] && IsDigit(s[0])
    ensures Parse(s, max) == ParseStr(s, max)
  {
  }

  lemma ParseStrEncoded(s: seq<byte>, post: seq<byte>, max: nat)
    requires |s| <= max
    ensures Parse(EncodeStr(s) + post, max) == Got(Str(s), post)
  {
    var b, t := Digits(|s|), s + post;
    var input := EncodeStr(s) + post;
    assert input == b + [COLON] + t;
    ParseDigit(input, max);
    NumeralsAreCanonical(b, |s|);
    NumeralHasNoLetter(|s|);
    UntilFinds(b, COLON, t);
    assert t[..|s|] == s && t[|s|..] == post;
  }

  lemma ParseIntEncoded(i: int, post: seq<byte>)
    ensures ParseInt(Numeral(i) + [E] + post) == Got(Int(i), post)
  {
    NumeralsAreCanonical(Numeral(i), i);
    NumeralHasNoLetter(i);
    UntilFinds(Numeral(i), E, post);
  }

  // ------------------------------------------------- reading what was written

  /** Reading the encoding of a value, whatever follows it, gives the value and what follows. */
  lemma {:induction false} ParseEncoded(v: Value, post: seq<byte>, max: nat)
    requires Within(v, max)
    ensures Parse(Encode(v) + post, max) == Got(v, post)
    decreases v, 1, 0
  {
    match v
    case Int(i) =>
      ParseIntEncoded(i, post);
      ParseTagged(I, Numeral(i) + [E], post, Encode(v), max);
    case Str(str) => ParseStrEncoded(str, post, max);
    case List(vs) =>
      ParseAllEncoded(vs, post, max);
      ParseTagged(L, EncodeAll(vs) + [E], post, Encode(v), max);
    case Dict(m) =>
      var ks := Sorted(m.Keys);
      ParseEntriesEncoded(v, ks, None, post, max);
      ParseDict(v, ks, EncodeEntries(v, ks) + [E], post, max);
  }

  /** A dictionary is read once its entries are. */
  lemma ParseDict(v: Value, ks: seq<Key>, body: seq<byte>, post: seq<byte>, max: nat)
    requires v.Dict? && ks == Sorted(v.m.Keys) && body == EncodeEntries(v, ks) + [E]
    requires ParseEntries(body + post, max, None) == Some((EntriesOf(v, ks), post))
    ensures Parse(Encode(v) + post, max) == Got(v, post)
  {
    MapOfEntries(v, ks);
    ParseTagged(D, body, post, Encode(v), max);
  }

  /** After the first letter of an integer, a list or a dictionary, the rest is read by its own reader. */
  lemma ParseTagged(tag: byte, body: seq<byte>, post: seq<byte>, s: seq<byte>, max: nat)
    requires (tag == I || tag == L || tag == D) && s == [tag] + body
    ensures tag == I ==> Parse(s + post, max) == ParseInt(body + post)
    ensures tag == L && ParseAll(body + post, max).Some? ==>
              var r := ParseAll(body + post, max).value;
              Parse(s + post, max) == Got(List(r.0), r.1)
    ensures tag == D && ParseEntries(body + post, max, None).Some? ==>
              var r := ParseEntries(body + post, max, None).value;
              Parse(s + post, max) == Got(Dict(MapOf(r.0)), r.1)
  {
    assert (s + post)[1..] == body + post;
  }

  lemma {:induction false} ParseAllEncoded(vs: seq<Value>, post: seq<byte>, max: nat)
    requires forall i | 0 <= i < |vs| :: Within(vs[i], max)
    ensures ParseAll(EncodeAll(vs) + [E] + post, max) == Some((vs, post))
    decreases vs, 0, 0
  {
    var s := EncodeAll(vs) + [E] + post;
    if vs == [] {
      assert s == [E] + post;
    } else {
      var rest := EncodeAll(vs[1..]) + [E] + post;
      assert s == Encode(vs[0]) + rest;
      ParseEncoded(vs[0], rest, max);
      ParseAllEncoded(vs[1..], post, max);
      assert [vs[0]] + vs[1..] == vs;
    }
  }

  /** The entries of a dictionary under some of its keys. */
  ghost function EntriesOf(v: Value, ks: seq<Key>): seq<Entry>
    requires v.Dict? && forall k | k in ks :: k in v.m
  {
    seq(|ks|, i requires 0 <= i < |ks| => (ks[i], v.m[ks[i]]))
  }

  lemma EntriesOfCons(v: Value, ks: seq<Key>)
    requires v.Dict? && ks != [] && forall k | k in ks :: k in v.m
    ensures ks[0] in ks && (forall k | k in ks[1..] :: k in v.m)
    ensures EntriesOf(v, ks) == [(ks[0], v.m[ks[0]])] + EntriesOf(v, ks[1..])
  {
    assert forall k | k in ks[1..] :: k in ks;
  }

  lemma EntriesText(v: Value, ks: seq<Key>, post: seq<byte>)
    requires v.Dict? && ks != [] && forall k | k in ks :: k in v.m
    ensures ks[0] in ks && (forall k | k in ks[1..] :: k in v.m)
    ensures EncodeEntries(v, ks) + [E] + post ==
            EncodeStr(ks[0]) + (Encode(v.m[ks[0]]) + (EncodeEntries(v, ks[1..]) + [E] + post))
  {
    assert forall k | k in ks[1..] :: k in ks;
    Regroup(EncodeStr(ks[0]), Encode(v.m[ks[0]]), EncodeEntries(v, ks[1..]), post);
  }

  lemma IncreasingTail(ks: seq<Key>)
    requires Increasing(ks) && ks != []
    ensures Increasing(ks[1..]) && forall k | k in ks[1..] :: Less(ks[0], k)
  {
    forall k | k in ks[1..]
      ensures Less(ks[0], k)
    {
      var i :| 0 <= i < |ks[1..]| && ks[1..][i] == k;
      assert k == ks[i + 1];
    }
  }

  lemma ParseEntriesCons(s: seq<byte>, last: Option<Key>, k: Key, rest: seq<byte>, v: Value, rest1: seq<byte>,
                         es: seq<Entry>, post: seq<byte>, max: nat)
    requires Parse(s, max) == Got(Str(k), rest) && (last.Some? ==> Less(last.value, k))
    requires Parse(rest, max) == Got(v, rest1) && ParseEntries(rest1, max, Some(k)) == Some((es, post))
    ensures ParseEntries(s, max, last) == Some(([(k, v)] + es, post))
  {
  }

  lemma {:induction false} ParseEntriesEncoded(v: Value, ks: seq<Key>, last: Option<Key>, post: seq<byte>, max: nat)
    requires v.Dict? && Within(v, max) && (forall k | k in ks :: k in v.m)
    requires Increasing(ks) && (last.Some? ==> forall k | k in ks :: Less(last.value, k))
    ensures ParseEntries(EncodeEntries(v, ks) + [E] + post, max, last) == Some((EntriesOf(v, ks), post))
    decreases v, 0, |ks|
  {
    var s := EncodeEntries(v, ks) + [E] + post;
    if ks == [] {
      assert s == [E] + post;
      assert s[1..] == post && EntriesOf(v, ks) == [];
    } else {
      var k := ks[0];
      EntriesOfCons(v, ks);
      EntriesText(v, ks, post);
      IncreasingTail(ks);
      var rest1 := EncodeEntries(v, ks[1..]) + [E] + post;
      var rest := Encode(v.m[k]) + rest1;
      ParseStrEncoded(k, rest, max);
      ParseEncoded(v.m[k], rest1, max);
      ParseEntriesEncoded(v, ks[1..], Some(k), post, max);
      ParseEntriesCons(s, last, k, rest, v.m[k], rest1, EntriesOf(v, ks[1..]), post, max);
    }
  }

  // -------------------------------------------------- dictionaries from entries

  ghost predicate StrictEntries(es: seq<Entry>) {
    forall i, j | 0 <= i < j < |es| :: Less(es[i].0, es[j].0)
  }

  ghost function KeysOf(es: seq<Entry>): seq<Key> {
    seq(|es|, i requires 0 <= i < |es| => es[i].0)
  }

  /** With increasing keys every entry stays. */
  lemma {:induction false} MapOfStrict(es: seq<Entry>)
    requires StrictEntries(es)
    ensures forall i | 0 <= i < |es| :: es[i].0 in MapOf(es) && MapOf(es)[es[i].0] == es[i].1
    ensures forall k | k in MapOf(es) :: k in KeysOf(es)
  {
    if es == [] {
    } else {
      var n := |es| - 1;
      MapOfStrict(es[..n]);
      forall i | 0 <= i < |es|
        ensures es[i].0 in MapOf(es) && MapOf(es)[es[i].0] == es[i].1
      {
        if i < n {
          assert es[..n][i] == es[i];
          LessTotal(es[i].0, es[n].0);
        }
      }
      forall k | k in MapOf(es)
        ensures k in KeysOf(es)
      {
        if k == es[n].0 {
          assert KeysOf(es)[n] == k;
        } else {
          var i :| 0 <= i < n && KeysOf(es[..n])[i] == k;
          assert KeysOf(es)[i] == k;
        }
      }
    }
  }

  lemma MapOfEntries(v: Value, ks: seq<Key>)
    requires v.Dict? && Increasing(ks) && forall k :: k in ks <==> k in v.m
    ensures MapOf(EntriesOf(v, ks)) == v.m
  {
    var es := EntriesOf(v, ks);
    MapOfStrict(es);
    assert KeysOf(es) == ks;
    forall k | k in v.m
      ensures k in MapOf(es) && MapOf(es)[k] == v.m[k]
    {
      var i :| 0 <= i < |ks| && ks[i] == k;
      assert es[i] == (k, v.m[k]);
    }
  }

  /** The keys of the dictionary come out in the order of the entries. */
  lemma SortedKeysOf(es: seq<Entry>)
    requires StrictEntries(es)
    ensures Sorted(MapOf(es).Keys) == KeysOf(es)
  {
    MapOfStrict(es);
    var m, ks := MapOf(es), KeysOf(es);
    forall k
      ensures k in ks <==> k in Sorted(m.Keys)
    {
      if k in ks {
        var i :| 0 <= i < |ks| && ks[i] == k;
        assert es[i].0 in m;
      }
    }
    IncreasingUnique(Sorted(m.Keys), ks);
  }

  // -------------------------------------------------- writing what was read

  /** The entries one after the other. */
  ghost function Flat(es: seq<Entry>): seq<byte> {
    if es == [] then [] else EncodeStr(es[0].0) + Encode(es[0].1) + Flat(es[1..])
  }

  lemma {:induction false} EncodeEntriesFlat(v: Value, es: seq<Entry>)
    requires v.Dict? && forall i | 0 <= i < |es| :: es[i].0 in v.m && v.m[es[i].0] == es[i].1
    ensures (forall k | k in KeysOf(es) :: k in v.m) && EncodeEntries(v, KeysOf(es)) == Flat(es)
    decreases es
  {
    if es == [] {
    } else {
      EncodeEntriesFlat(v, es[1..]);
      assert KeysOf(es)[1..] == KeysOf(es[1..]);
    }
  }

  lemma ParsedStr(s: seq<byte>, max: nat)
    requires ParseStr(s, max).Got?
    ensures s == Encode(ParseStr(s, max).v) + ParseStr(s, max).rest && Within(ParseStr(s, max).v, max)
  {
    var (b, rest) := Until(s, COLON).value;
    var n := ParseChecked(b).value;
    NumeralsAreCanonical(b, n);
    assert (b + [COLON] + rest[..n]) + rest[n..] == b + [COLON] + rest;
  }

  lemma ParsedInt(t: seq<byte>)
    requires ParseInt(t).Got?
    ensures [I] + t == Encode(ParseInt(t).v) + ParseInt(t).rest
  {
    var (b, rest) := Until(t, E).value;
    NumeralsAreCanonical(b, ParseChecked(b).value);
  }

  /** What the reader accepts is the encoding of what it returns, byte for byte. */
  lemma {:induction false} ParsedIsEncoded(s: seq<byte>, max: nat)
    ensures Parse(s, max).Got? ==> s == Encode(Parse(s, max).v) + Parse(s, max).rest && Within(Parse(s, max).v, max)
    ensures Parse(s, max).End? ==> s == [E] + Parse(s, max).rest
    decreases |s|, 0
  {
    if s != [] && s[0] != E {
      assert s == [s[0]] + s[1..];
      if s[0] == D {
        ParsedEntriesAreEncoded(s[1..], max, None);
        var r := ParseEntries(s[1..], max, None);
        if r.Some? {
          DictEncoded(s[1..], r.value.0, r.value.1, max);
        }
      } else if s[0] == L {
        ParsedAllAreEncoded(s[1..], max);
      } else if s[0] == I {
        if ParseInt(s[1..]).Got? {
          ParsedInt(s[1..]);
        }
      } else if IsDigit(s[0]) {
        if ParseStr(s, max).Got? {
          ParsedStr(s, max);
        }
      }
    }
  }

  ghost predicate AllEncoded(s: seq<byte>, vs: seq<Value>, rest: seq<byte>, max: nat) {
    s == EncodeAll(vs) + [E] + rest && forall i | 0 <= i < |vs| :: Within(vs[i], max)
  }

  lemma AllEncodedCons(s: seq<byte>, v: Value, rest: seq<byte>, vs: seq<Value>, rest1: seq<byte>, max: nat)
    requires s == Encode(v) + rest && Within(v, max) && AllEncoded(rest, vs, rest1, max)
    ensures AllEncoded(s, [v] + vs, rest1, max)
  {
    assert ([v] + vs)[1..] == vs;
    assert s == Encode(v) + EncodeAll(vs) + [E] + rest1;
  }

  lemma {:induction false} ParsedAllAreEncoded(s: seq<byte>, max: nat)
    ensures ParseAll(s, max).Some? ==> AllEncoded(s, ParseAll(s, max).value.0, ParseAll(s, max).value.1, max)
    decreases |s|, 1
  {
    ParsedIsEncoded(s, max);
    if ParseAll(s, max).None? || !Parse(s, max).Got? {
    } else {
      var v, rest := Parse(s, max).v, Parse(s, max).rest;
      ParsedAllAreEncoded(rest, max);
      var r := ParseAll(rest, max).value;
      AllEncodedCons(s, v, rest, r.0, r.1, max);
    }
  }

  /** What entries that were read are like. */
  ghost predicate GoodEntries(es: seq<Entry>, last: Option<Key>, max: nat) {
    && StrictEntries(es)
    && forall i | 0 <= i < |es| ::
         (last.Some? ==> Less(last.value, es[i].0)) && |es[i].0| <= max && Within(es[i].1, max)
  }

  ghost predicate EntriesEncoded(s: seq<byte>, es: seq<Entry>, rest: seq<byte>, last: Option<Key>, max: nat) {
    s == Flat(es) + [E] + rest && GoodEntries(es, last, max)
  }

  lemma FlatIs(k: Key, v: Value, es: seq<Entry>)
    ensures Flat([(k, v)] + es) == EncodeStr(k) + Encode(v) + Flat(es)
  {
    assert ([(k, v)] + es)[1..] == es;
  }

  lemma Regroup(a: seq<byte>, b: seq<byte>, c: seq<byte>, rest: seq<byte>)
    ensures a + (b + (c + [E] + rest)) == (a + b + c) + [E] + rest
  {
  }

  lemma FlatCons(s: seq<byte>, k: Key, rest: seq<byte>, v: Value, rest1: seq<byte>, es: seq<Entry>, rest2: seq<byte>)
    requires s == EncodeStr(k) + rest && rest == Encode(v) + rest1 && rest1 == Flat(es) + [E] + rest2
    ensures s == Flat([(k, v)] + es) + [E] + rest2
  {
    FlatIs(k, v, es);
    Regroup(EncodeStr(k), Encode(v), Flat(es), rest2);
  }

  lemma GoodEntriesCons(k: Key, v: Value, es: seq<Entry>, last: Option<Key>, max: nat)
    requires (last.Some? ==> Less(last.value, k)) && |k| <= max && Within(v, max)
    requires GoodEntries(es, Some(k), max)
    ensures GoodEntries([(k, v)] + es, last, max)
  {
    var es1 := [(k, v)] + es;
    forall i | 0 <= i < |es1|
      ensures last.Some? ==> Less(last.value, es1[i].0)
    {
      if last.Some? && i > 0 {
        LessTransitive(last.value, k, es[i - 1].0);
      }
    }
  }

  lemma {:induction false} ParsedEntriesAreEncoded(s: seq<byte>, max: nat, last: Option<Key>)
    ensures var r := ParseEntries(s, max, last);
            r.Some? ==> EntriesEncoded(s, r.value.0, r.value.1, last, max)
    decreases |s|, 1
  {
    ParsedIsEncoded(s, max);
    if ParseEntries(s, max, last).None? || !Parse(s, max).Got? {
    } else {
      var k, rest := Parse(s, max).v.s, Parse(s, max).rest;
      ParsedIsEncoded(rest, max);
      var v, rest1 := Parse(rest, max).v, Parse(rest, max).rest;
      ParsedEntriesAreEncoded(rest1, max, Some(k));
      var r := ParseEntries(rest1, max, Some(k)).value;
      FlatCons(s, k, rest, v, rest1, r.0, r.1);
      GoodEntriesCons(k, v, r.0, last, max);
    }
  }

  lemma DictWithin(es: seq<Entry>, max: nat)
    requires GoodEntries(es, None, max)
    ensures Within(Dict(MapOf(es)), max)
  {
    var m := MapOf(es);
    MapOfStrict(es);
    forall k | k in m
      ensures |k| <= max && Within(m[k], max)
    {
      var i :| 0 <= i < |es| && KeysOf(es)[i] == k;
      assert es[i].0 == k;
    }
  }

  lemma EncodeDict(v: Value, es: seq<Entry>)
    requires v.Dict? && Sorted(v.m.Keys) == KeysOf(es)
    requires (forall k | k in KeysOf(es) :: k in v.m) && EncodeEntries(v, KeysOf(es)) == Flat(es)
    ensures Encode(v) == [D] + Flat(es) + [E]
  {
  }

  lemma DictText(es: seq<Entry>)
    requires StrictEntries(es)
    ensures Encode(Dict(MapOf(es))) == [D] + Flat(es) + [E]
  {
    MapOfStrict(es);
    SortedKeysOf(es);
    EncodeEntriesFlat(Dict(MapOf(es)), es);
    EncodeDict(Dict(MapOf(es)), es);
  }

  /** A dictionary made of entries that were read encodes to what they were read from. */
  lemma DictEncoded(s: seq<byte>, es: seq<Entry>, rest: seq<byte>, max: nat)
    requires EntriesEncoded(s, es, rest, None, max)
    ensures [D] + s == Encode(Dict(MapOf(es))) + rest && Within(Dict(MapOf(es)), max)
  {
    DictWithin(es, max);
    DictText(es);
    var f := Flat(es);
    assert [D] + (f + [E] + rest) == ([D] + f + [E]) + rest;
  }

  // ------------------------------------------------------------- both together

  /**
   * An input is accepted in full, as a value, if and only if it is the encoding of that value and
   * the value's strings are within the limit.
   */
  lemma AcceptedIffEncoded(s: seq<byte>, v: Value, max: nat)
    ensures Parse(s, max) == Got(v, []) <==> s == Encode(v) && Within(v, max)
  {
    if Parse(s, max) == Got(v, []) {
      ParsedIsEncoded(s, max);
      assert Encode(v) + [] == Encode(v);
    }
    if s == Encode(v) && Within(v, max) {
      ParseEncoded(v, [], max);
      assert Encode(v) + [] == Encode(v);
    }
  }

  /** No two values have the same encoding. */
  lemma EncodeInjective(v: Value, w: Value, max: nat)
    requires Encode(v) == Encode(w) && Within(v, max) && Within(w, max)
    ensures v == w
  {
    ParseEncoded(v, [], max);
    ParseEncoded(w, [], max);
  }

  // ------------------------------------------------------------- known encodings

  lemma SortedTwo(a: Key, b: Key)
    requires Less(a, b)
    ensures Sorted({a, b}) == [a, b]
  {
    IncreasingUnique(Sorted({a, b}), [a, b]);
  }

  /** i10e, i-16e, 0: and 2:hi */
  lemma ScalarExamples()
    ensures Encode(Int(10)) == [105, 49, 48, 101] && Encode(Int(-16)) == [105, 45, 49, 54, 101]
    ensures Encode(Str([])) == [48, 58] && Encode(Str([104, 105])) == [50, 58, 104, 105]
  {
    assert Digits(10) == [49, 48] && Digits(16) == [49, 54];
  }

  /** li1e1:ae */
  lemma ListExample()
    ensures Encode(List([Int(1), Str([97])])) == [108, 105, 49, 101, 49, 58, 97, 101]
  {
    var vs := [Int(1), Str([97])];
    assert vs[1..] == [Str([97])] && vs[1..][1..] == [];
    assert Encode(vs[0]) == [105, 49, 101] && Encode(vs[1]) == [49, 58, 97];
    assert EncodeAll(vs[1..]) == [49, 58, 97];
  }

  lemma TwoEntries(v: Value, a: Key, b: Key)
    requires v.Dict? && v.m.Keys == {a, b} && Less(a, b)
    ensures Encode(v) == [D] + (EncodeStr(a) + Encode(v.m[a]) + (EncodeStr(b) + Encode(v.m[b]))) + [E]
  {
    SortedTwo(a, b);
    var ks := [a, b];
    assert ks[1..] == [b] && [b][1..] == [];
    assert EncodeEntries(v, [b]) == EncodeStr(b) + Encode(v.m[b]);
    assert EncodeEntries(v, ks) == EncodeStr(a) + Encode(v.m[a]) + EncodeEntries(v, [b]);
  }

  lemma Joined(a: seq<byte>, b: seq<byte>, c: seq<byte>, d: seq<byte>)
    requires |a| == |b| == |c| == |d| == 3
    ensures [D] + (a + b + (c + d)) + [E] ==
            [D, a[0], a[1], a[2], b[0], b[1], b[2], c[0], c[1], c[2], d[0], d[1], d[2], E]
  {
  }

  lemma OneByte(b: byte)
    ensures EncodeStr([b]) == Encode(Str([b])) == [49, 58, b]
  {
  }

  /** d1:a1:b1:c1:de */
  lemma DictExample(v: Value)
    requires v == Dict(map[[99] := Str([100]), [97] := Str([98])])
    ensures Encode(v) == [100, 49, 58, 97, 49, 58, 98, 49, 58, 99, 49, 58, 100, 101]
  {
    assert v.m.Keys == {[97], [99]};
    TwoEntries(v, [97], [99]);
    OneByte(97);
    OneByte(98);
    OneByte(99);
    OneByte(100);
    Joined([49, 58, 97], [49, 58, 98], [49, 58, 99], [49, 58, 100]);
  }
}
