/** Finding the synchronisation pattern in the stream of an encrypted handshake. */
module StreamSync {

  import opened Common

  /** What a connection delivers before it ends or fails, and how much of it has been read. */
  class Stream {
    const data: seq<byte>
    var pos: nat

    ghost predicate Valid()
      reads this
    {
      pos <= |data|
    }

    /** Fill the buffer from index `from`; on failure everything that was left is used up. */
    method ReadFull(buf: array<byte>, from: nat) returns (ok: bool)
      requires Valid() && from <= buf.Length
      modifies this, buf
      ensures Valid()
      ensures ok <==> old(pos) + buf.Length - from <= |data|
      ensures ok ==> pos == old(pos) + buf.Length - from
      ensures ok ==> buf[..] == old(buf[..from]) + data[old(pos)..pos]
      ensures !ok ==> pos == |data|
    {
      var i := from;
      while i < buf.Length && pos < |data|
        invariant Valid() && from <= i <= buf.Length
        invariant pos == old(pos) + i - from
        invariant buf[..i] == old(buf[..from]) + data[old(pos)..pos]
      {
        buf[i] := data[pos];
        i, pos := i + 1, pos + 1;
      }
      ok := i == buf.Length;
    }
  }

  /** The first `n` bytes of the pattern stand at the end of `a`. */
  ghost predicate EndsWith(a: seq<byte>, b: seq<byte>, n: nat) {
    n <= |a| && n <= |b| && a[|a| - n..] == b[..n]
  }

  /** `n` is the longest prefix of the pattern that ends `a`. */
  ghost predicate Longest(a: seq<byte>, b: seq<byte>, n: nat) {
    EndsWith(a, b, n) && forall m: nat | n < m :: !EndsWith(a, b, m)
  }

  method SuffixMatchLen(a: array<byte>, b: seq<byte>) returns (n: nat)
    ensures Longest(a[..], b, n)
  {
    var i := if |b| > a.Length then a.Length else |b|;
    while i > 0
      invariant 0 <= i <= |b| && i <= a.Length
      invariant forall m: nat | i < m :: !EndsWith(a[..], b, m)
    {
      var j := 0;
      while j < i && b[i - 1 - j] == a[a.Length - 1 - j]
        invariant 0 <= j <= i
        invariant a[a.Length - j..] == b[i - j..i]
      {
        j := j + 1;
      }
      if j == i {
        return j;
      }
      assert !EndsWith(a[..], b, i) by {
        assert a[..][a.Length - i..][i - 1 - j] != b[..i][i - 1 - j];
      }
      i := i - 1;
    }
    return 0;
  }

  /** The pattern ends at index `e` of the stream, at or after `start`. */
  ghost predicate Occurs(data: seq<byte>, start: nat, b: seq<byte>, e: nat) {
    start + |b| <= e <= |data| && data[e - |b|..e] == b
  }

  /** A later occurrence that overlaps what was read makes a prefix of the pattern end there. */
  lemma Overlap(data: seq<byte>, start: nat, pos: nat, b: seq<byte>, e: nat)
    requires start <= pos <= e <= |data| && e - |b| <= pos && Occurs(data, start, b, e)
    ensures EndsWith(data[start..pos], b, pos - (e - |b|))
  {
    var n := pos - (e - |b|);
    assert data[start..pos][pos - start - n..] == data[e - |b|..e][..n];
  }

  ghost predicate NoneBefore(data: seq<byte>, start: nat, b: seq<byte>, end: nat) {
    forall e: nat | e < end :: !Occurs(data, start, b, e)
  }

  /** Reading on from a longest match skips no occurrence. */
  lemma SkipsNone(data: seq<byte>, start: nat, pos: nat, b: seq<byte>, n: nat)
    requires start <= pos <= |data| && Longest(data[start..pos], b, n) && NoneBefore(data, start, b, pos)
    ensures NoneBefore(data, start, b, pos + |b| - n)
  {
    forall e: nat | pos <= e < pos + |b| - n
      ensures !Occurs(data, start, b, e)
    {
      if Occurs(data, start, b, e) {
        Overlap(data, start, pos, b, e);
      }
    }
  }

  /** The window holds the last bytes read: a full match in it is an occurrence, and a part counts as it would in all. */
  lemma Window(data: seq<byte>, start: nat, pos: nat, b: seq<byte>, n: nat)
    requires start + |b| <= pos <= |data| && Longest(data[pos - |b|..pos], b, n)
    ensures Longest(data[start..pos], b, n)
    ensures n == |b| ==> Occurs(data, start, b, pos)
  {
    assert data[start..pos][pos - start - |b|..] == data[pos - |b|..pos];
    WindowIsEnough(data[start..pos], b, n);
  }

  /** Only the last `|b|` bytes matter for the longest match. */
  lemma WindowIsEnough(a: seq<byte>, b: seq<byte>, n: nat)
    requires |b| <= |a| && Longest(a[|a| - |b|..], b, n)
    ensures Longest(a, b, n)
  {
    forall m: nat
      ensures EndsWith(a, b, m) <==> EndsWith(a[|a| - |b|..], b, m)
    {
      if m <= |b| {
        assert a[|a| - |b|..][|b| - m..] == a[|a| - m..];
      }
    }
  }

  method KeepTail(buf: array<byte>, n: nat)
    requires n <= buf.Length
    modifies buf
    ensures buf[..n] == old(buf[buf.Length - n..])
  {
    forall k | 0 <= k < n {
      buf[k] := buf[buf.Length - n + k];
    }
  }

  /**
   * Read until the pattern has been seen: this succeeds if and only if the pattern occurs, and then
   * exactly the bytes up to the end of its first occurrence have been read.
   */
  method ReadUntil(r: Stream, b: seq<byte>) returns (ok: bool)
    requires r.Valid()
    modifies r
    ensures r.Valid()
    ensures ok <==> exists e: nat :: Occurs(r.data, old(r.pos), b, e)
    ensures ok ==> Occurs(r.data, old(r.pos), b, r.pos) && NoneBefore(r.data, old(r.pos), b, r.pos)
    ensures !ok ==> r.pos == |r.data|
  {
    ghost var start := r.pos;
    var b1 := new byte[|b|];
    var i: nat := 0;
    while true
      invariant r.Valid() && start <= r.pos && b1.Length == |b| && fresh(b1)
      invariant i < |b| || r.pos == start
      invariant Longest(r.data[start..r.pos], b, i) && b1[..i] == b[..i]
      invariant NoneBefore(r.data, start, b, r.pos)
      decreases |r.data| - r.pos
    {
      ghost var was := r.pos;
      SkipsNone(r.data, start, was, b, i);
      ok := r.ReadFull(b1, i);
      if !ok {
        return;
      }
      Filled(r.data, start, was, b, i, b1[..]);
      i := SuffixMatchLen(b1, b);
      Window(r.data, start, r.pos, b, i);
      if i == |b| {
        return;
      }
      KeepTail(b1, i);
    }
  }

  lemma Filled(data: seq<byte>, start: nat, was: nat, b: seq<byte>, n: nat, window: seq<byte>)
    requires start <= was <= |data| && EndsWith(data[start..was], b, n) && was + |b| - n <= |data|
    requires window == b[..n] + data[was..was + |b| - n]
    ensures start + |b| <= was + |b| - n
    ensures window == data[was - n..was + |b| - n]
  {
    assert data[start..was][was - start - n..] == data[was - n..was];
  }
}
