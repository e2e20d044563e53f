/**
 * A set that remembers insertion order: a bitmap, a list of nodes, and a map from values to nodes,
 * updated together.
 */
module OrderedBitmap {
  import opened Common

  /** A list node: the identity stands for the pointer to it. */
  datatype Element = Element(id: nat, value: nat)

  /** The sequence without `x`. */
  function Without(s: seq<nat>, x: nat): seq<nat> {
    if s == [] then []
    else if s[0] == x then Without(s[1..], x)
    else [s[0]] + Without(s[1..], x)
  }

  /** Removing one value keeps the others and the order among them. */
  lemma {:induction false} WithoutIs(s: seq<nat>, x: nat, i: nat)
    requires i < |s| && s[i] == x
    requires forall j | 0 <= j < |s| && j != i :: s[j] != x
    ensures Without(s, x) == s[..i] + s[i + 1..]
  {
    if i == 0 {
      WithoutAbsent(s[1..], x);
    } else {
      WithoutIs(s[1..], x, i - 1);
      assert s[1..][..i - 1] == s[1..i] && s[1..][i..] == s[i + 1..];
    }
  }

  lemma {:induction false} WithoutAbsent(s: seq<nat>, x: nat)
    requires x !in s
    ensures Without(s, x) == s
  {
    if s == [] {
    } else {
      WithoutAbsent(s[1..], x);
    }
  }

  lemma {:induction false} WithoutMembers(s: seq<nat>, x: nat, y: nat)
    ensures y in Without(s, x) <==> y in s && y != x
  {
    if s == [] {
    } else {
      assert s == [s[0]] + s[1..];
      WithoutMembers(s[1..], x, y);
    }
  }

  function Values(order: seq<Element>): (s: seq<nat>)
    ensures |s| == |order| && forall i | 0 <= i < |s| :: s[i] == order[i].value
  {
    seq(|order|, i requires 0 <= i < |order| => order[i].value)
  }

  /** The list and the map describe each other; no value and no node occurs twice. */
  ghost predicate Linked(order: seq<Element>, elements: map<nat, nat>, nextId: nat) {
    && (forall i | 0 <= i < |order| ::
          && order[i].id < nextId
          && order[i].value in elements && elements[order[i].value] == order[i].id)
    && (forall i, j | 0 <= i < j < |order| :: order[i].value != order[j].value && order[i].id != order[j].id)
    && (forall x | x in elements :: x in Values(order))
  }

  function Unlink(order: seq<Element>, k: nat): (order1: seq<Element>)
    requires k < |order|
    ensures |order1| == |order| - 1
    ensures forall i | 0 <= i < |order1| :: order1[i] == order[if i < k then i else i + 1]
  {
    order[..k] + order[k + 1..]
  }

  lemma UnlinkValues(order: seq<Element>, k: nat)
    requires k < |order| && forall j | 0 <= j < |order| && j != k :: order[j].value != order[k].value
    ensures Values(Unlink(order, k)) == Without(Values(order), order[k].value)
  {
    var s := Values(order);
    WithoutIs(s, order[k].value, k);
    var t := s[..k] + s[k + 1..];
    assert forall i | 0 <= i < |t| :: t[i] == s[if i < k then i else i + 1];
  }

  /** Taking one node out of the list and its value out of the map. */
  lemma UnlinkKeeps(order: seq<Element>, elements: map<nat, nat>, nextId: nat, k: nat)
    requires Linked(order, elements, nextId) && k < |order|
    ensures Linked(Unlink(order, k), elements - {order[k].value}, nextId)
  {
    UnlinkValues(order, k);
    forall y | y in elements - {order[k].value}
      ensures y in Values(Unlink(order, k))
    {
      WithoutMembers(Values(order), order[k].value, y);
    }
  }

  class OrderedBitmap {
    var bitmap: set<nat>
    var order: seq<Element>
    var elements: map<nat, nat>   // value to node
    var nextId: nat

    /** The values in the order they were added. */
    ghost function Contents(): seq<nat>
      reads this
    {
      Values(order)
    }

    ghost predicate Valid()
      reads this
    {
      Linked(order, elements, nextId) && bitmap == elements.Keys
    }

    constructor ()
      ensures Valid() && Contents() == []
    {
      bitmap, order, elements, nextId := {}, [], map[], 0;
    }

    method Contains(x: nat) returns (r: bool)
      requires Valid()
      ensures r == (x in Contents())
    {
      r := x in bitmap;
      assert forall i | 0 <= i < |order| :: Contents()[i] in elements;
    }

    /** The number of values is the length of the list. */
    method GetCardinality() returns (n: nat)
      requires Valid()
      ensures n == |Contents()| && n == |bitmap|
    {
      n := |order|;
      ListedCount(Contents(), bitmap);
    }

    /** Adding a value that is there changes nothing, not even the order. */
    method Add(x: nat)
      requires Valid()
      modifies this
      ensures Valid()
      ensures Contents() == if x in old(Contents()) then old(Contents()) else old(Contents()) + [x]
    {
      if x in Contents() {
        var i :| 0 <= i < |order| && Contents()[i] == x;
        assert order[i].value in elements;
      }
      bitmap := bitmap + {x};
      if x !in elements {
        order := order + [Element(nextId, x)];
        elements := elements[x := nextId];
        nextId := nextId + 1;
        assert Contents() == old(Contents()) + [x];
        forall y | y in elements
          ensures y in Contents()
        {
          assert y == x || y in old(Contents());
        }
      } else {
        assert x in old(Contents());
      }
    }

    /** Where in the list the node of a value is. */
    method FindNode(id: nat) returns (k: nat)
      requires Valid() && exists i :: 0 <= i < |order| && order[i].id == id
      ensures k < |order| && order[k].id == id
    {
      k := 0;
      while order[k].id != id
        invariant k < |order|
        invariant forall i | 0 <= i < k :: order[i].id != id
        decreases |order| - k
      {
        k := k + 1;
      }
    }

    /** Removing says whether the value was there; the others stay, in their order. */
    method CheckedRemove(x: nat) returns (removed: bool)
      requires Valid()
      modifies this
      ensures Valid()
      ensures removed == (x in old(Contents())) && Contents() == Without(old(Contents()), x)
    {
      removed := Contains(x);
      if !removed {
        WithoutAbsent(Contents(), x);
        return;
      }
      ghost var i :| 0 <= i < |order| && Contents()[i] == x;
      assert order[i].id == elements[x];
      var k := FindNode(elements[x]);
      assert k == i;
      assert order[k].value == x;
      UnlinkKeeps(order, elements, nextId, k);
      UnlinkValues(order, k);
      assert (elements - {x}).Keys == bitmap - {x};
      bitmap := bitmap - {x};
      order := Unlink(order, k);
      elements := elements - {x};
    }
  }
}
