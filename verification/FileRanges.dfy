/** Which files a piece contains data of, and which pieces a file has data in. */
module FileRanges {
  import opened Division

  datatype File = File(offset: nat, length: nat, prio: nat) {
    function End(): nat {
      offset + length
    }
  }

  /** The files follow each other without a gap, from 0 on. */
  ghost predicate Laid(files: seq<File>) {
    && (files != [] ==> files[0].offset == 0)
    && forall k | 0 <= k < |files| - 1 :: files[k + 1].offset == files[k].End()
  }

  function Total(files: seq<File>): nat {
    if files == [] then 0 else files[|files| - 1].End()
  }

  /** Build the file table from the lengths, with running offsets. */
  method InitFiles(lengths: seq<nat>) returns (files: seq<File>)
    ensures |files| == |lengths| && Laid(files)
    ensures forall k | 0 <= k < |files| :: files[k].length == lengths[k] && files[k].prio == 0
  {
    files := [];
    var offset := 0;
    for k := 0 to |lengths|
      invariant |files| == k && Laid(files) && offset == Total(files)
      invariant forall j | 0 <= j < k :: files[j].length == lengths[j] && files[j].prio == 0
    {
      files := files + [File(offset, lengths[k], 0)];
      offset := offset + lengths[k];
    }
  }

  lemma {:induction false} LaidOrder(files: seq<File>, j: nat, k: nat)
    requires Laid(files) && j < k < |files|
    ensures files[j].End() <= files[k].offset
    decreases k - j
  {
    if j + 1 >= k {
    } else {
      LaidOrder(files, j, k - 1);
      assert files[k - 1 + 1].offset == files[k - 1].End();
    }
  }

  /** The first file, from `k` on, that ends beyond `off`; 0 if there is none. */
  function FirstFile(files: seq<File>, off: nat, k: nat := 0): (i: nat)
    requires k <= |files|
    ensures i == 0 || (k <= i < |files| && files[i].End() > off)
    decreases |files| - k
  {
    if k == |files| then 0
    else if files[k].End() > off then k
    else FirstFile(files, off, k + 1)
  }

  /** One past the first file, from `k` on, that ends at `end` or beyond; 0 if there is none. */
  function EndFile(files: seq<File>, end: nat, k: nat := 0): (i: nat)
    requires k <= |files|
    ensures i <= |files|
    decreases |files| - k
  {
    if k == |files| then 0
    else if files[k].End() >= end then k + 1
    else EndFile(files, end, k + 1)
  }

  method PieceFirstFileIndex(pieceOffset: nat, files: seq<File>) returns (r: nat)
    ensures r == FirstFile(files, pieceOffset)
  {
    for i := 0 to |files|
      invariant FirstFile(files, pieceOffset) == FirstFile(files, pieceOffset, i)
    {
      if files[i].offset + files[i].length > pieceOffset {
        return i;
      }
    }
    return 0;
  }

  method PieceEndFileIndex(pieceEndOffset: nat, files: seq<File>) returns (r: nat)
    ensures r == EndFile(files, pieceEndOffset)
  {
    for i := 0 to |files|
      invariant EndFile(files, pieceEndOffset) == EndFile(files, pieceEndOffset, i)
    {
      if files[i].offset + files[i].length >= pieceEndOffset {
        return i + 1;
      }
    }
    return 0;
  }

  lemma {:induction false} FirstFileIs(files: seq<File>, off: nat, k: nat, i: nat)
    requires Laid(files) && k <= i < |files| && files[i].End() > off
    requires forall j | k <= j < i :: files[j].End() <= off
    ensures FirstFile(files, off, k) == i
    decreases i - k
  {
    if k >= i {
    } else {
      FirstFileIs(files, off, k + 1, i);
    }
  }

  lemma {:induction false} EndFileIs(files: seq<File>, end: nat, k: nat, i: nat)
    requires k <= i < |files| && files[i].End() >= end
    requires forall j | k <= j < i :: files[j].End() < end
    ensures EndFile(files, end, k) == i + 1
    decreases i - k
  {
    if k >= i {
    } else {
      EndFileIs(files, end, k + 1, i);
    }
  }

  /** The least index at which a monotone boundary is passed. */
  lemma {:induction false} Least(files: seq<File>, bound: nat, k: nat) returns (i: nat)
    requires k < |files| && files[k].End() >= bound
    ensures i <= k && files[i].End() >= bound && forall j | 0 <= j < i :: files[j].End() < bound
    decreases k
  {
    if j :| 0 <= j < k && files[j].End() >= bound {
      i := Least(files, bound, j);
    } else {
      i := k;
    }
  }

  /** The slice of files kept for a piece holds exactly the files the piece reaches into. */
  lemma PieceFilesExact(files: seq<File>, begin: nat, end: nat, k: nat)
    requires Laid(files) && begin < end <= Total(files)
    ensures FirstFile(files, begin) <= k < EndFile(files, end) <==>
            k < |files| && files[k].offset < end && begin < files[k].End()
  {
    var last := |files| - 1;
    var first := Least(files, begin + 1, last);
    FirstFileIs(files, begin, 0, first);
    var stop := Least(files, end, last);
    EndFileIs(files, end, 0, stop);
    if k < |files| {
      if k < first {
      } else if first < k {
        LaidOrder(files, first, k);
      }
      if stop < k {
        LaidOrder(files, stop, k);
      } else if k > 0 {
        LaidOrder(files, k - 1, k);
      }
    }
  }

  /** The piece a file starts in. */
  function BeginPieceIndex(f: File, pieceLength: nat): nat {
    if pieceLength == 0 then 0 else f.offset / pieceLength
  }

  /** Behind the piece a file ends in. */
  function EndPieceIndex(f: File, pieceLength: nat): nat {
    if pieceLength == 0 then 0 else (f.offset + f.length + pieceLength - 1) / pieceLength
  }

  /** A priority change of a file refreshes every piece that looks at the file, and only such pieces. */
  lemma FilePiecesExact(files: seq<File>, pieceLength: nat, k: nat, i: nat)
    requires Laid(files) && k < |files| && pieceLength > 0 && i * pieceLength < Total(files)
    requires files[k].offset < Total(files)
    ensures var end := if (i + 1) * pieceLength < Total(files) then (i + 1) * pieceLength else Total(files);
            BeginPieceIndex(files[k], pieceLength) <= i < EndPieceIndex(files[k], pieceLength) <==>
            FirstFile(files, i * pieceLength) <= k < EndFile(files, end)
  {
    var f := files[k];
    var end := if (i + 1) * pieceLength < Total(files) then (i + 1) * pieceLength else Total(files);
    assert (i + 1) * pieceLength == i * pieceLength + pieceLength;
    PieceFilesExact(files, i * pieceLength, end, k);
    QuotientBelow(f.offset, pieceLength, i + 1);
    CeilAbove(f.End(), pieceLength, i);
  }

  /** A file that starts at the very end has no data, and no piece looks at it. */
  lemma TrailingFileUnused(files: seq<File>, begin: nat, end: nat, k: nat)
    requires Laid(files) && begin < end <= Total(files)
    requires k < |files| && files[k].offset == Total(files)
    ensures !(FirstFile(files, begin) <= k < EndFile(files, end))
  {
    PieceFilesExact(files, begin, end, k);
  }
}
