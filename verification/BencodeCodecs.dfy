/** The encoder and the decoder as objects over a writer and a reader, tied to Bencode. */
module BencodeCodecs {
  import opened Common
  import opened Decimals
  import opened KeyOrder
  import opened Bencode

  const DEFAULT_MAX_STR_LEN: nat := 0x7ff_ffff

  // ---------------------------------------------------------------- encoder

  class Encoder {
    var w: seq<byte>            // what has been written
    const scratch: array<byte>

    constructor ()
      ensures w == [] && scratch.Length == 64 && fresh(scratch)
    {
      w, scratch := [], new byte[64];
    }

    method Write(s: seq<byte>)
      modifies this`w
      ensures w == old(w) + s
    {
      w := w + s;
    }

    /** Written in pieces, through the scratch buffer. */
    method WriteString(s: seq<byte>)
      requires scratch.Length > 0
      modifies this`w, scratch
      ensures w == old(w) + s
    {
      var rest := s;
      while rest != []
        invariant w + rest == old(w) + s
        decreases |rest|
      {
        var n := Min(scratch.Length, |rest|);
        forall k | 0 <= k < n {
          scratch[k] := rest[k];
        }
        assert scratch[..n] == rest[..n] && rest[..n] + rest[n..] == rest;
        rest := rest[n..];
        Write(scratch[..n]);
      }
    }

    method ReflectString(s: seq<byte>)
      requires scratch.Length > 0
      modifies this`w, scratch
      ensures w == old(w) + EncodeStr(s)
    {
      Write(Digits(|s|));
      WriteString([COLON]);
      WriteString(s);
    }

    method ReflectValue(v: Value)
      requires scratch.Length > 0
      modifies this`w, scratch
      ensures w == old(w) + Encode(v)
      decreases v, 2
    {
      match v
      case Int(i) =>
        WriteString([I]);
        Write(Numeral(i));
        WriteString([E]);
      case Str(s) => ReflectString(s);
      case List(vs) => ReflectSequence(v);
      case Dict(m) => ReflectMap(v);
    }

    method ReflectSequence(v: Value)
      requires v.List? && scratch.Length > 0
      modifies this`w, scratch
      ensures w == old(w) + Encode(v)
      decreases v, 1
    {
      WriteString([L]);
      ReflectItems(v);
      WriteString([E]);
    }

    method ReflectItems(v: Value)
      requires v.List? && scratch.Length > 0
      modifies this`w, scratch
      ensures w == old(w) + EncodeAll(v.vs)
      decreases v, 0
    {
      ghost var goal := old(w) + EncodeAll(v.vs);
      var i := 0;
      while i < |v.vs|
        invariant 0 <= i <= |v.vs|
        invariant w + EncodeAll(v.vs[i..]) == goal
      {
        ItemsFrom(v.vs, i, w);
        ReflectValue(v.vs[i]);
        i := i + 1;
      }
    }

    method ReflectMap(v: Value)
      requires v.Dict? && scratch.Length > 0
      modifies this`w, scratch
      ensures w == old(w) + Encode(v)
      decreases v, 1
    {
      ghost var was := w;
      WriteString([D]);
      var ks := SortKeys(v.m.Keys);
      ReflectEntries(v, ks);
      WriteString([E]);
      DictText(v, was);
    }

    method ReflectEntries(v: Value, ks: seq<Key>)
      requires v.Dict? && scratch.Length > 0 && forall k | k in ks :: k in v.m
      modifies this`w, scratch
      ensures w == old(w) + EncodeEntries(v, ks)
      decreases v, 0
    {
      ghost var goal := old(w) + EncodeEntries(v, ks);
      var i := 0;
      while i < |ks|
        invariant 0 <= i <= |ks| && forall k | k in ks[i..] :: k in v.m
        invariant w + EncodeEntries(v, ks[i..]) == goal
      {
        EntriesFrom(v, ks, i, w);
        ReflectString(ks[i]);
        ReflectValue(v.m[ks[i]]);
        i := i + 1;
      }
    }
  }

  lemma DictText(v: Value, w: seq<byte>)
    requires v.Dict?
    ensures w + [D] + EncodeEntries(v, Sorted(v.m.Keys)) + [E] == w + Encode(v)
  {
    var body := EncodeEntries(v, Sorted(v.m.Keys));
    assert w + [D] + body + [E] == w + ([D] + body + [E]);
  }

  lemma ItemsFrom(vs: seq<Value>, i: nat, w: seq<byte>)
    requires i < |vs|
    ensures w + EncodeAll(vs[i..]) == w + Encode(vs[i]) + EncodeAll(vs[i + 1..])
  {
    assert vs[i..][0] == vs[i] && vs[i..][1..] == vs[i + 1..];
  }

  lemma EntriesFrom(v: Value, ks: seq<Key>, i: nat, w: seq<byte>)
    requires v.Dict? && i < |ks| && forall k | k in ks[i..] :: k in v.m
    ensures ks[i] in v.m && forall k | k in ks[i + 1..] :: k in v.m
    ensures w + EncodeEntries(v, ks[i..]) ==
            w + EncodeStr(ks[i]) + Encode(v.m[ks[i]]) + EncodeEntries(v, ks[i + 1..])
  {
    assert ks[i..][0] == ks[i] && ks[i..][1..] == ks[i + 1..];
    var a, b, c := EncodeStr(ks[i]), Encode(v.m[ks[i]]), EncodeEntries(v, ks[i + 1..]);
    assert w + (a + b + c) == w + a + b + c;
  }

  // ---------------------------------------------------------------- decoder

  datatype Item = Error | NoItem | Item(v: Value)

  class Decoder {
    var r: seq<byte>            // what is left to read
    var offset: int
    var buf: seq<byte>
    const maxStrLen: nat

    constructor (r: seq<byte>, maxStrLen: nat)
      ensures this.r == r && offset == 0 && buf == [] && this.maxStrLen == maxStrLen
    {
      this.r, offset, buf, this.maxStrLen := r, 0, [], maxStrLen;
    }

    function GetMaxStrLen(): nat {
      if maxStrLen == 0 then DEFAULT_MAX_STR_LEN else maxStrLen
    }

    method ReadByte() returns (ok: bool, b: byte)
      modifies this`r, this`offset
      ensures ok <==> old(r) != []
      ensures ok ==> old(r) == [b] + r && offset == old(offset) + 1
    {
      if r == [] {
        return false, 0;
      }
      ok, b := true, r[0];
      r, offset := r[1..], offset + 1;
    }

    /** Move bytes to the buffer until the separator has been read. */
    method ReadUntil(sep: byte) returns (ok: bool)
      modifies this
      ensures match Until(old(r), sep)
              case None => !ok
              case Some((a, rest)) => ok && buf == old(buf) + a && r == rest && offset == old(offset) + |a| + 1
    {
      ghost var all, seen: seq<byte> := r, [];
      while true
        invariant sep !in seen && all == seen + r && buf == old(buf) + seen && offset == old(offset) + |seen|
        decreases |r|
      {
        var more, b := ReadByte();
        if !more {
          return false;
        }
        if b == sep {
          assert all == seen + [sep] + r;
          UntilFinds(seen, sep, r);
          return true;
        }
        buf := buf + [b];
        seen := seen + [b];
      }
    }

    /** The first digit of the length is in the buffer already. */
    method ParseStringLength() returns (n: Option<nat>)
      requires |buf| == 1 && IsDigit(buf[0])
      modifies this
      ensures match Until(old(buf) + old(r), COLON)
              case None => n.None?
              case Some((b, rest)) =>
                match ParseChecked(b)
                case None => n.None?
                case Some(i) =>
                  if i < 0 || i > GetMaxStrLen() then n.None?
                  else n == Some(i) && r == rest && buf == [] && offset == old(offset) + |b|
    {
      ghost var first, all := buf[0], old(r);
      var ok := ReadUntil(COLON);
      UntilAfter(first, all, COLON);
      if !ok {
        return None;
      }
      if !Checked(buf) {
        return None;
      }
      var length := ParseDecimal(buf);
      if length.None? || length.value < 0 || length.value > GetMaxStrLen() {
        return None;
      }
      buf := [];
      return Some(length.value);
    }

    /** The state after reading from `start`, at offset `from`: as much added to the offset as was read. */
    ghost predicate At(rest: seq<byte>, start: seq<byte>, from: int)
      reads this
    {
      r == rest && buf == [] && offset == from + |start| - |rest|
    }

    /** An item is what the reader of values says, and the decoder stands behind it. */
    ghost predicate Gives(item: Item, p: Parsed, start: seq<byte>, from: int)
      reads this
    {
      match p
      case Bad => item == Error
      case End(rest) => item == NoItem && At(rest, start, from)
      case Got(v, rest) => item == Item(v) && At(rest, start, from)
    }

    method ParseIntInterface() returns (item: Item)
      requires buf == []
      modifies this
      ensures Gives(item, ParseInt(old(r)), old(r), old(offset))
    {
      ghost var t := r;
      var ok := ReadUntil(E);
      if !ok {
        return Error;
      }
      assert buf == Until(t, E).value.0;
      ParseIntIs(t, buf, r);
      if !Checked(buf) {
        return Error;
      }
      var i := ParseDecimal(buf);
      if i.None? {
        return Error;
      }
      buf := [];
      return Item(Int(i.value));
    }

    method ParseStringInterface(ghost first: byte) returns (item: Item)
      requires buf == [first] && IsDigit(first)
      modifies this
      ensures Gives(item, ParseStr([first] + old(r), GetMaxStrLen()), old(r), old(offset))
    {
      var n := ParseStringLength();
      if n.None? || n.value > |r| {
        return Error;
      }
      var b := r[..n.value];
      r, offset := r[n.value..], offset + n.value;
      return Item(Str(b));
    }

    /** Read a generic value, or the letter that ends a list or a dictionary. */
    method ParseValueInterface() returns (item: Item)
      requires buf == []
      modifies this
      ensures Gives(item, Parse(old(r), GetMaxStrLen()), old(r), old(offset))
      decreases |r|, 0
    {
      var ok, b := ReadByte();
      if !ok {
        return Error;
      }
      if b == E {
        return NoItem;
      } else if b == D {
        item := ParseDictInterface();
      } else if b == L {
        item := ParseListInterface();
      } else if b == I {
        item := ParseIntInterface();
      } else if IsDigit(b) {
        buf := buf + [b];
        item := ParseStringInterface(b);
      } else {
        return Error;
      }
    }

    method ParseListInterface() returns (item: Item)
      requires buf == []
      modifies this
      ensures match ParseAll(old(r), GetMaxStrLen())
              case None => item == Error
              case Some((vs, rest)) => item == Item(List(vs)) && At(rest, old(r), old(offset))
      decreases |r|, 1
    {
      ghost var goal := ParseAll(r, GetMaxStrLen());
      PrependNothing(goal);
      var list: seq<Value> := [];
      while true
        invariant At(r, old(r), old(offset)) && |r| <= |old(r)|
        invariant goal == Prepend(list, ParseAll(r, GetMaxStrLen()))
        decreases |r|
      {
        PrependMore(list, r, GetMaxStrLen());
        var it := ParseValueInterface();
        if it == Error {
          return Error;
        }
        if it == NoItem {
          return Item(List(list));
        }
        list := list + [it.v];
      }
    }

    method ParseDictInterface() returns (item: Item)
      requires buf == []
      modifies this
      ensures match ParseEntries(old(r), GetMaxStrLen(), None)
              case None => item == Error
              case Some((es, rest)) => item == Item(Dict(MapOf(es))) && At(rest, old(r), old(offset))
      decreases |r|, 1
    {
      ghost var goal, es: seq<Entry> := ParseEntries(r, GetMaxStrLen(), None), [];
      PrependNothing(goal);
      var dict: map<Key, Value> := map[];
      var lastKey: Option<Key> := None;
      while true
        invariant At(r, old(r), old(offset)) && |r| <= |old(r)| && dict == MapOf(es)
        invariant goal == Prepend(es, ParseEntries(r, GetMaxStrLen(), lastKey))
        decreases |r|
      {
        PrependEntry(es, r, GetMaxStrLen(), lastKey);
        var keyi := ParseValueInterface();
        if keyi == NoItem {
          return Item(Dict(dict));
        }
        if keyi == Error || !keyi.v.Str? || (lastKey.Some? && !Less(lastKey.value, keyi.v.s)) {
          return Error;
        }
        var valuei := ParseValueInterface();
        if !valuei.Item? {
          return Error;
        }
        lastKey := Some(keyi.v.s);
        dict := dict[keyi.v.s := valuei.v];
        MapOfMore(es, keyi.v.s, valuei.v);
        es := es + [(keyi.v.s, valuei.v)];
      }
    }

    // ------------------------------------------------------------ raw values

    /** What was read since `start` is at the end of the buffer, and counted. */
    ghost predicate Copied(start: seq<byte>, from: int, before: seq<byte>)
      reads this
    {
      && |r| <= |start| && start[|start| - |r|..] == r
      && buf == before + start[..|start| - |r|]
      && offset == from + |start| - |r|
    }

    /** Copy one value to the buffer; `Some(false)` means that the end letter is next. */
    method ReadOneValue() returns (found: Option<bool>)
      modifies this
      ensures match Scan(old(r))
              case Unreadable => found == None
              case AtEnd => found == Some(false) && r == old(r) && buf == old(buf) && offset == old(offset)
              case Past(rest) => found == Some(true) && r == rest && Copied(old(r), old(offset), old(buf))
      decreases |r|, 0
    {
      if r == [] {
        return None;
      }
      var b := r[0];
      if b == E {
        return Some(false);
      }
      r, offset, buf := r[1..], offset + 1, buf + [b];
      ghost var start := old(r);
      assert start == [b] + r;
      assert Copied(start, old(offset), old(buf));
      if b == D || b == L {
        var ok := ReadValues(start, old(offset), old(buf));
        return if ok then Some(true) else None;
      } else if b == I {
        var ok := CopyThrough(E, start, old(offset), old(buf));
        return if ok then Some(true) else None;
      } else if IsDigit(b) {
        found := ReadRawString(start, old(offset), old(buf));
      } else {
        return None;
      }
    }

    /** Copy values as long as there are any, and then the end letter. */
    method ReadValues(ghost start: seq<byte>, ghost from: int, ghost before: seq<byte>) returns (ok: bool)
      requires Copied(start, from, before)
      modifies this
      ensures ok <==> ScanAll(old(r)).Past?
      ensures ok ==> r == ScanAll(old(r)).rest && Copied(start, from, before)
      decreases |r|, 1
    {
      while true
        invariant |r| <= |old(r)| && Copied(start, from, before)
        invariant ScanAll(r) == ScanAll(old(r))
        decreases |r|
      {
        ghost var s, o, b := r, offset, buf;
        var found := ReadOneValue();
        if found.None? {
          return false;
        }
        if !found.value {
          break;
        }
        CopiedMore(start, from, before, s, o, b);
      }
      CopyLetter(start, from, before);
      ok := true;
    }

    /** Copy the letter that is next. */
    method CopyLetter(ghost start: seq<byte>, ghost from: int, ghost before: seq<byte>)
      requires Copied(start, from, before) && r != []
      modifies this
      ensures r == old(r)[1..] && Copied(start, from, before)
    {
      ghost var s, o, before1 := r, offset, buf;
      var more, b := ReadByte();
      buf := buf + [b];
      assert s[..1] == [b];
      CopiedMore(start, from, before, s, o, before1);
    }

    lemma CopiedMore(start: seq<byte>, from: int, before: seq<byte>, s: seq<byte>, o: int, b: seq<byte>)
      requires |s| <= |start| && start[|start| - |s|..] == s && b == before + start[..|start| - |s|]
      requires o == from + |start| - |s| && Copied(s, o, b)
      ensures Copied(start, from, before)
    {
      assert start[..|start| - |r|] == start[..|start| - |s|] + s[..|s| - |r|];
      assert start[|start| - |r|..] == s[|s| - |r|..];
    }

    /** Copy bytes through the next separator. */
    method CopyThrough(sep: byte, ghost start: seq<byte>, ghost from: int, ghost before: seq<byte>) returns (ok: bool)
      requires Copied(start, from, before)
      modifies this
      ensures ok <==> Until(old(r), sep).Some?
      ensures ok ==> r == Until(old(r), sep).value.1 && Copied(start, from, before)
      ensures ok ==> buf == old(buf) + Until(old(r), sep).value.0 + [sep]
    {
      ghost var s, o, b := r, offset, buf;
      ok := ReadUntil(sep);
      if ok {
        buf := buf + [sep];
        ghost var a := Until(s, sep).value.0;
        assert s == a + [sep] + r;
        assert s[..|s| - |r|] == a + [sep] && b + s[..|s| - |r|] == buf;
        CopiedMore(start, from, before, s, o, b);
      }
    }

    /** The first digit of the length has been copied. */
    method ReadRawString(ghost start: seq<byte>, ghost from: int, ghost before: seq<byte>) returns (found: Option<bool>)
      requires Copied(start, from, before) && start != [] && r == start[1..] && IsDigit(start[0])
      modifies this
      ensures found == (if ScanStr(start).Past? then Some(true) else None)
      ensures ScanStr(start).Past? ==> r == ScanStr(start).rest && Copied(start, from, before)
    {
      var at := |buf| - 1;
      ghost var t, first := r, start[0];
      assert start == [first] + t && buf == before + [first];
      UntilAfter(first, t, COLON);
      var ok := CopyThrough(COLON, start, from, before);
      if !ok {
        return None;
      }
      ghost var b := Until(start, COLON).value.0;
      assert buf == before + b + [COLON];
      Middle(before, b, COLON);
      found := CopyCounted(ParseDecimal(buf[at..|buf| - 1]), start, from, before);
    }

    /** Copy as many bytes as the length says, if it is one. */
    method CopyCounted(length: Option<int>, ghost start: seq<byte>, ghost from: int, ghost before: seq<byte>)
      returns (found: Option<bool>)
      requires Copied(start, from, before)
      modifies this
      ensures found.Some? <==> length.Some? && 0 <= length.value <= MAX_INT64 && length.value <= |old(r)|
      ensures found.Some? ==> found.value
      ensures found.Some? ==> length.Some? && 0 <= length.value <= |old(r)| && r == old(r)[length.value..]
      ensures found.Some? ==> Copied(start, from, before)
    {
      if length.None? || length.value < 0 || length.value > MAX_INT64 || length.value > |r| {
        return None;
      }
      CopyN(length.value, start, from, before);
      return Some(true);
    }

    method CopyN(n: nat, ghost start: seq<byte>, ghost from: int, ghost before: seq<byte>)
      requires Copied(start, from, before) && n <= |r|
      modifies this
      ensures r == old(r)[n..] && Copied(start, from, before)
    {
      ghost var s, o, b := r, offset, buf;
      buf, r, offset := buf + r[..n], r[n..], offset + n;
      CopiedMore(start, from, before, s, o, b);
    }
  }

  lemma Middle(a: seq<byte>, b: seq<byte>, sep: byte)
    ensures var s := a + b + [sep]; s[|a|..|s| - 1] == b
  {
  }

  function Prepend<T>(xs: seq<T>, r: Option<(seq<T>, seq<byte>)>): Option<(seq<T>, seq<byte>)> {
    if r.None? then None else Some((xs + r.value.0, r.value.1))
  }

  lemma PrependNothing<T>(r: Option<(seq<T>, seq<byte>)>)
    ensures Prepend([], r) == r
  {
    if r.Some? {
      assert [] + r.value.0 == r.value.0;
    }
  }

  lemma ParseIntIs(t: seq<byte>, b: seq<byte>, rest: seq<byte>)
    requires Until(t, E) == Some((b, rest))
    ensures ParseInt(t) == if ParseChecked(b).None? then Bad else Got(Int(ParseChecked(b).value), rest)
    ensures |t| == |b| + 1 + |rest|
  {
  }

  lemma PrependMore(vs: seq<Value>, s: seq<byte>, max: nat)
    ensures Prepend(vs, ParseAll(s, max)) ==
            match Parse(s, max)
            case Bad => None
            case End(rest) => Some((vs, rest))
            case Got(v, rest) => Prepend(vs + [v], ParseAll(rest, max))
  {
    assert vs + [] == vs;
    if Parse(s, max).Got? && ParseAll(s, max).Some? {
      var v, ws := Parse(s, max).v, ParseAll(Parse(s, max).rest, max).value.0;
      assert vs + ([v] + ws) == vs + [v] + ws;
    }
  }

  lemma PrependEntry(es: seq<Entry>, s: seq<byte>, max: nat, last: Option<Key>)
    ensures Prepend(es, ParseEntries(s, max, last)) ==
            match Parse(s, max)
            case Bad => None
            case End(rest) => Some((es, rest))
            case Got(k, rest) =>
              if !k.Str? || (last.Some? && !Less(last.value, k.s)) || !Parse(rest, max).Got? then None
              else Prepend(es + [(k.s, Parse(rest, max).v)], ParseEntries(Parse(rest, max).rest, max, Some(k.s)))
  {
    assert es + [] == es;
    if ParseEntries(s, max, last).Some? && Parse(s, max).Got? {
      var k, p := Parse(s, max).v.s, Parse(Parse(s, max).rest, max);
      var fs := ParseEntries(p.rest, max, Some(k)).value.0;
      assert es + ([(k, p.v)] + fs) == es + [(k, p.v)] + fs;
    }
  }

  lemma MapOfMore(es: seq<Entry>, k: Key, v: Value)
    ensures MapOf(es + [(k, v)]) == MapOf(es)[k := v]
  {
    assert (es + [(k, v)])[..|es|] == es;
  }

  lemma UntilAfter(b: byte, s: seq<byte>, sep: byte)
    requires b != sep
    ensures Until([b] + s, sep) == match Until(s, sep)
                                   case None => None
                                   case Some((a, rest)) => Some(([b] + a, rest))
  {
    assert ([b] + s)[1..] == s;
  }
}
