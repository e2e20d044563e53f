/** The bytes of a file that are still missing, from a few piece counts. */
module FileBytes {
  import opened Division
  import opened Bitmaps

  /** The number of bytes from `a` to `b` that lie in incomplete pieces. */
  ghost function Left(pl: nat, completed: set<nat>, a: nat, b: nat): int
    requires pl > 0
    decreases b - a
  {
    if a >= b then 0 else Left(pl, completed, a, b - 1) + if (b - 1) / pl in completed then 0 else 1
  }

  lemma {:induction false} LeftSplit(pl: nat, completed: set<nat>, a: nat, b: nat, c: nat)
    requires pl > 0 && a <= b <= c
    ensures Left(pl, completed, a, c) == Left(pl, completed, a, b) + Left(pl, completed, b, c)
    decreases c - b
  {
    if b >= c {
    } else {
      LeftSplit(pl, completed, a, b, c - 1);
    }
  }

  /** Within one piece all bytes are left or none. */
  lemma {:induction false} LeftInPiece(pl: nat, completed: set<nat>, i: nat, a: nat, b: nat)
    requires pl > 0 && i * pl <= a <= b <= (i + 1) * pl
    ensures Left(pl, completed, a, b) == if i in completed then 0 else b - a
    decreases b - a
  {
    if a >= b {
    } else {
      LeftInPiece(pl, completed, i, a, b - 1);
      QuotientIs(b - 1, pl, i);
    }
  }

  lemma LeftOneMore(pl: nat, completed: set<nat>, k: nat, a: nat, b: nat, c: nat)
    requires pl > 0 && a <= b && b == k * pl && c == b + pl
    ensures Left(pl, completed, a, c) == Left(pl, completed, a, b) + if k in completed then 0 else pl
  {
    assert (k + 1) * pl == k * pl + pl;
    LeftInPiece(pl, completed, k, b, c);
    LeftSplit(pl, completed, a, b, c);
  }

  /** Whole pieces can be counted. */
  lemma {:induction false} LeftWhole(pl: nat, completed: set<nat>, i: nat, j: nat, a: nat, b: nat)
    requires pl > 0 && i <= j && a == i * pl && b == j * pl
    ensures Left(pl, completed, a, b) == (j - i - |Between(completed, i, j)|) * pl
    decreases j - i
  {
    if i == j {
      assert Between(completed, i, j) == {};
    } else {
      var k := j - 1;
      Times(i, k, pl);
      assert b == k * pl + pl;
      LeftWhole(pl, completed, i, k, a, b - pl);
      LeftOneMore(pl, completed, k, a, b - pl, b);
      BetweenMore(completed, i, k);
      OneMorePiece(k - i - |Between(completed, i, k)|, pl, k in completed);
    }
  }

  lemma OneMorePiece(c: int, pl: int, complete: bool)
    ensures (c + if complete then 0 else 1) * pl == c * pl + if complete then 0 else pl
  {
    NextMultiple(c, pl);
  }

  /** The first and the last piece of a file that spans several. */
  lemma FileSpan(pl: nat, off: nat, length: nat, first: nat, end: nat)
    requires pl > 0 && first == off / pl && end == CeilDiv(off + length, pl)
    ensures first * pl <= off < (first + 1) * pl && off + length <= end * pl
    ensures first <= end && (first < end ==> (end - 1) * pl < off + length)
    ensures off % pl == off - first * pl
  {
    Quotient(off, pl);
    CeilAbove(off + length, pl, end);
    CeilAbove(off + length, pl, end - 1);
    CeilAbove(off + length, pl, first - 1);
    assert first * pl == (first - 1) * pl + pl;
  }

  /** With the first piece, the last one, and a count of those between them. */
  lemma SeveralPieces(pl: nat, off: nat, length: nat, first: nat, end: nat, completed: set<nat>)
    requires pl > 0 && first == off / pl && end == CeilDiv(off + length, pl) && first + 2 <= end
    ensures Left(pl, completed, off, off + length) ==
            (if first in completed then 0 else pl - off % pl) +
            (if end - 1 in completed then 0 else off + length - (end - 1) * pl) +
            (end - first - 2 - |Between(completed, first + 1, end - 1)|) * pl
  {
    FileSpan(pl, off, length, first, end);
    Times(first + 1, end - 1, pl);
    NextMultiple(first, pl);
    NextMultiple(end - 1, pl);
    InParts(pl, completed, off, off + length, first, end - 1, (first + 1) * pl, (end - 1) * pl);
  }

  lemma InParts(pl: nat, completed: set<nat>, off: nat, past: nat, first: nat, last: nat, a: nat, b: nat)
    requires pl > 0 && first < last && a == (first + 1) * pl && b == last * pl
    requires first * pl <= off <= a <= b <= past <= (last + 1) * pl
    ensures Left(pl, completed, off, past) ==
            (if first in completed then 0 else a - off) + (if last in completed then 0 else past - b) +
            (last - first - 1 - |Between(completed, first + 1, last)|) * pl
  {
    LeftSplit(pl, completed, off, a, past);
    LeftSplit(pl, completed, a, b, past);
    LeftInPiece(pl, completed, first, off, a);
    LeftInPiece(pl, completed, last, b, past);
    LeftWhole(pl, completed, first + 1, last, a, b);
  }

  /** The fast form counts exactly the bytes of the file that lie in incomplete pieces. */
  method FileBytesLeft(pl: nat, first: nat, end: nat, off: nat, length: nat, completed: set<nat>) returns (left: int)
    requires pl > 0 && first == off / pl && end == CeilDiv(off + length, pl)
    ensures left == Left(pl, completed, off, off + length)
  {
    left := 0;
    FileSpan(pl, off, length, first, end);
    var spanned := end - first;
    if spanned == 0 {
    } else if spanned == 1 {
      assert (first + 1) * pl == end * pl;
      LeftInPiece(pl, completed, first, off, off + length);
      if first !in completed {
        left := left + length;
      }
    } else {
      SeveralPieces(pl, off, length, first, end, completed);
      if first !in completed {
        left := left + (pl - off % pl);
      }
      if end - 1 !in completed {
        left := left + (off + length - (end - 1) * pl);
      }
      var middle := set x | x in completed && x >= first + 1;
      middle := set x | x in middle && x < end - 1;
      assert middle == Between(completed, first + 1, end - 1);
      left := left + (spanned - 2 - |middle|) * pl;
    }
  }
}
