/** Which pieces of the order are requestable: within the storage capacity and the limit on unverified bytes. */
module PiecePicking {
  import opened Common
  import opened PieceOrder

  /** What the walk is told about its surroundings. */
  datatype Input = Input(
    lengths: seq<byte> -> nat,       // piece length by torrent
    ignore: PieceKey -> bool,
    capacity: Option<int>,
    maxUnverified: int)
  {
    function Length(x: Item): nat {
      lengths(x.key.infoHash)
    }
  }

  /** The lengths of some items together. */
  function Bytes(input: Input, xs: seq<Item>): nat {
    if xs == [] then 0 else Bytes(input, xs[..|xs| - 1]) + input.Length(xs[|xs| - 1])
  }

  /** The items with a mark, in order. */
  function Marked(xs: seq<Item>, marks: seq<bool>): seq<Item>
    requires |marks| <= |xs|
  {
    if marks == [] then []
    else Marked(xs, marks[..|marks| - 1]) + if marks[|marks| - 1] then [xs[|marks| - 1]] else []
  }

  /** Whether an item is emitted when its turn comes, `before` having been emitted already. */
  predicate Chosen(input: Input, before: seq<Item>, x: Item) {
    !input.ignore(x.key) && (input.maxUnverified == 0 || Bytes(input, before) + input.Length(x) <= input.maxUnverified)
  }

  /** The marks of the first `n` items, each made when its turn comes. */
  function Picks(input: Input, xs: seq<Item>, n: nat): (marks: seq<bool>)
    requires n <= |xs|
    ensures |marks| == n
  {
    if n == 0 then []
    else
      var marks := Picks(input, xs, n - 1);
      marks + [Chosen(input, Marked(xs, marks), xs[n - 1])]
  }

  /** How many items the walk reaches: it stops at the first that does not fit in the storage with those before it. */
  function Reached(input: Input, xs: seq<Item>, k: nat := 0): (n: nat)
    requires k <= |xs|
    ensures k <= n <= |xs|
    decreases |xs| - k
  {
    if k == |xs| || (input.capacity.Some? && Bytes(input, xs[..k + 1]) > input.capacity.value) then k
    else Reached(input, xs, k + 1)
  }

  /** Every reached item is marked exactly if it is not ignored and does not overflow at its turn. */
  ghost predicate MarkedRight(input: Input, xs: seq<Item>, marks: seq<bool>) {
    |marks| <= |xs| &&
    forall i | 0 <= i < |marks| :: marks[i] <==>
      !input.ignore(xs[i].key) &&
      (input.maxUnverified == 0 || Bytes(input, Marked(xs, marks[..i])) + input.Length(xs[i]) <= input.maxUnverified)
  }

  lemma MarksStay(input: Input, xs: seq<Item>, marks: seq<bool>, marks1: seq<bool>)
    requires MarkedRight(input, xs, marks) && |marks| < |xs|
    requires marks1 == marks + [Chosen(input, Marked(xs, marks), xs[|marks|])]
    ensures MarkedRight(input, xs, marks1)
  {
    forall i | 0 <= i < |marks1|
      ensures marks1[i] <==> Chosen(input, Marked(xs, marks1[..i]), xs[i])
    {
      assert marks1[..i] == marks[..i];
      assert marks[..|marks|] == marks;
    }
  }

  lemma {:induction false} PicksRight(input: Input, xs: seq<Item>, n: nat, marks: seq<bool>)
    requires n <= |xs| && marks == Picks(input, xs, n)
    ensures MarkedRight(input, xs, marks)
  {
    if n == 0 {
    } else {
      var front := Picks(input, xs, n - 1);
      PicksRight(input, xs, n - 1, front);
      MarksStay(input, xs, front, marks);
    }
  }

  /** The walk reaches exactly the items that fit in the storage together. */
  lemma {:induction false} ReachedRight(input: Input, xs: seq<Item>, k: nat)
    requires k <= |xs| && (input.capacity.Some? && k > 0 ==> Bytes(input, xs[..k]) <= input.capacity.value)
    ensures var n := Reached(input, xs, k);
            && (input.capacity.None? ==> n == |xs|)
            && (input.capacity.Some? && n > 0 ==> Bytes(input, xs[..n]) <= input.capacity.value)
            && (n < |xs| ==> input.capacity.Some? && Bytes(input, xs[..n + 1]) > input.capacity.value)
    decreases |xs| - k
  {
    if k == |xs| || (input.capacity.Some? && Bytes(input, xs[..k + 1]) > input.capacity.value) {
    } else {
      ReachedRight(input, xs, k + 1);
    }
  }

  lemma MarkedMore(xs: seq<Item>, marks: seq<bool>, m: bool)
    requires |marks| < |xs|
    ensures Marked(xs, marks + [m]) == Marked(xs, marks) + if m then [xs[|marks|]] else []
  {
    assert (marks + [m])[..|marks|] == marks;
  }

  lemma BytesMore(input: Input, xs: seq<Item>, x: Item)
    ensures Bytes(input, xs + [x]) == Bytes(input, xs) + input.Length(x)
  {
    assert (xs + [x])[..|xs|] == xs;
  }

  lemma BytesUpTo(input: Input, xs: seq<Item>, n: nat)
    requires n < |xs|
    ensures Bytes(input, xs[..n + 1]) == Bytes(input, xs[..n]) + input.Length(xs[n])
  {
    assert xs[..n + 1] == xs[..n] + [xs[n]];
    BytesMore(input, xs[..n], xs[n]);
  }

  /** What the turn of an item adds. */
  lemma EmittedMore(input: Input, xs: seq<Item>, n: nat)
    requires n < |xs|
    ensures var emitted := Marked(xs, Picks(input, xs, n));
            Marked(xs, Picks(input, xs, n + 1)) == if Chosen(input, emitted, xs[n]) then emitted + [xs[n]] else emitted
  {
    var marks := Picks(input, xs, n);
    MarkedMore(xs, marks, Chosen(input, Marked(xs, marks), xs[n]));
    assert Marked(xs, marks) + [] == Marked(xs, marks);
  }

  /** Walk over the tree in order and emit what is requestable: everything reached but what is ignored or overflows. */
  method GetRequestablePieces(input: Input, tree: seq<Item>) returns (emitted: seq<Item>)
    requires Ordered(tree)
    ensures emitted == Emitted(input, tree) && RightlyEmitted(input, tree, emitted)
  {
    var storageLeft := input.capacity;
    var unverified := 0;
    emitted := [];
    var n := 0;
    while n < |tree|
      invariant 0 <= n <= |tree| && Reached(input, tree) == Reached(input, tree, n)
      invariant emitted == Marked(tree, Picks(input, tree, n)) && unverified == Bytes(input, emitted)
      invariant storageLeft.Some? <==> input.capacity.Some?
      invariant storageLeft.Some? ==> storageLeft.value == input.capacity.value - Bytes(input, tree[..n])
    {
      var x := tree[n];
      if n > 0 {
        BeforeTotal(tree[n - 1], x);
        assert !Before(x, tree[n - 1]);      // the scan is in order
      }
      var length := input.Length(x);
      BytesUpTo(input, tree, n);
      if storageLeft.Some? {
        if storageLeft.value < length {
          break;
        }
        storageLeft := Some(storageLeft.value - length);
      }
      EmittedMore(input, tree, n);
      if !input.ignore(x.key) && !(input.maxUnverified != 0 && unverified + length > input.maxUnverified) {
        BytesMore(input, emitted, x);
        unverified := unverified + length;
        emitted := emitted + [x];
      }
      n := n + 1;
    }
    EmittedRight(input, tree);
  }

  function Emitted(input: Input, tree: seq<Item>): seq<Item> {
    Marked(tree, Picks(input, tree, Reached(input, tree)))
  }

  /**
   * What is emitted is in order, not ignored, and within the limit; and of what is reached, everything
   * is emitted that is not ignored and does not overflow at its turn.
   */
  ghost predicate RightlyEmitted(input: Input, tree: seq<Item>, emitted: seq<Item>) {
    && Ordered(emitted)
    && (forall x | x in emitted :: x in tree && !input.ignore(x.key))
    && (input.maxUnverified != 0 ==> Bytes(input, emitted) <= Max(0, input.maxUnverified))
    && MarkedRight(input, tree, Picks(input, tree, Reached(input, tree)))
  }

  lemma EmittedRight(input: Input, tree: seq<Item>)
    requires Ordered(tree)
    ensures RightlyEmitted(input, tree, Emitted(input, tree))
  {
    var marks := Picks(input, tree, Reached(input, tree));
    PicksRight(input, tree, |marks|, marks);
    MarkedOrdered(tree, marks);
    MarkedWanted(input, tree, marks);
    if input.maxUnverified != 0 {
      EmittedWithin(input, tree, marks);
    }
  }

  lemma {:induction false} MarkedHas(xs: seq<Item>, marks: seq<bool>, k: nat)
    requires k < |marks| <= |xs| && marks[k]
    ensures xs[k] in Marked(xs, marks)
  {
    if k == |marks| - 1 {
    } else {
      MarkedHas(xs, marks[..|marks| - 1], k);
    }
  }

  /** Without limits everything is emitted that is not ignored. */
  lemma UnlimitedEmits(input: Input, tree: seq<Item>, x: Item)
    requires Ordered(tree) && input.capacity.None? && input.maxUnverified == 0
    ensures x in Emitted(input, tree) <==> x in tree && !input.ignore(x.key)
  {
    EmittedRight(input, tree);
    ReachedRight(input, tree, 0);
    if x in tree && !input.ignore(x.key) {
      var k :| 0 <= k < |tree| && tree[k] == x;
      MarkedHas(tree, Picks(input, tree, Reached(input, tree)), k);
    }
  }

  lemma {:induction false} MarkedWanted(input: Input, xs: seq<Item>, marks: seq<bool>)
    requires MarkedRight(input, xs, marks)
    ensures forall x | x in Marked(xs, marks) :: !input.ignore(x.key)
  {
    if marks == [] {
    } else {
      var n := |marks| - 1;
      MarksFront(input, xs, marks, n);
      MarkedWanted(input, xs, marks[..n]);
      assert marks[n] <==> Chosen(input, Marked(xs, marks[..n]), xs[n]);
    }
  }

  /** What is emitted comes in the order of the tree. */
  lemma {:induction false} MarkedOrdered(xs: seq<Item>, marks: seq<bool>)
    requires Ordered(xs) && |marks| <= |xs|
    ensures Ordered(Marked(xs, marks))
    ensures forall x | x in Marked(xs, marks) :: x in xs[..|marks|]
  {
    if marks == [] {
    } else {
      var n := |marks| - 1;
      MarkedOrdered(xs, marks[..n]);
      var front := Marked(xs, marks[..n]);
      assert xs[..n + 1] == xs[..n] + [xs[n]];
      forall i | 0 <= i < |front|
        ensures Before(front[i], xs[n])
      {
        assert front[i] in front;
        var j :| 0 <= j < |xs[..n]| && xs[..n][j] == front[i];
        assert xs[j] == front[i];
      }
    }
  }

  lemma MarksFront(input: Input, xs: seq<Item>, marks: seq<bool>, n: nat)
    requires MarkedRight(input, xs, marks) && n <= |marks|
    ensures MarkedRight(input, xs, marks[..n])
  {
    forall i | 0 <= i < n
      ensures marks[..n][i] <==> Chosen(input, Marked(xs, marks[..n][..i]), xs[i])
    {
      assert marks[..n][..i] == marks[..i];
    }
  }

  /** With a limit, the emitted pieces together never exceed it. */
  lemma {:induction false} EmittedWithin(input: Input, xs: seq<Item>, marks: seq<bool>)
    requires MarkedRight(input, xs, marks) && input.maxUnverified != 0
    ensures Bytes(input, Marked(xs, marks)) <= Max(0, input.maxUnverified)
  {
    if marks == [] {
    } else {
      var n := |marks| - 1;
      MarksFront(input, xs, marks, n);
      EmittedWithin(input, xs, marks[..n]);
      var front := Marked(xs, marks[..n]);
      assert marks[n] <==> Chosen(input, front, xs[n]);
      BytesMore(input, front, xs[n]);
      assert front + [] == front;
    }
  }
}
