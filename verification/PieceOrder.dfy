/** The order in which pieces are requested, the tree that keeps it, and the walk that picks from it. */
module PieceOrder {
  import opened Common
  import KeyOrder

  datatype PieceKey = PieceKey(infoHash: seq<byte>, index: int)
  datatype PieceState = PieceState(priority: int, partial: bool, availability: int)
  datatype Item = Item(key: PieceKey, state: PieceState)

  /** Higher priority first, then partial pieces, then the rarer ones, then by index and torrent. */
  predicate Before(a: Item, b: Item) {
    if a.state.priority != b.state.priority then a.state.priority > b.state.priority
    else if a.state.partial != b.state.partial then a.state.partial
    else if a.state.availability != b.state.availability then a.state.availability < b.state.availability
    else if a.key.index != b.key.index then a.key.index < b.key.index
    else KeyOrder.Less(a.key.infoHash, b.key.infoHash)
  }

  /** The comparison is a strict total order on items. */
  lemma BeforeTotal(a: Item, b: Item)
    ensures Before(a, b) || a == b || Before(b, a)
    ensures !(Before(a, b) && Before(b, a)) && !Before(a, a)
  {
    KeyOrder.LessTotal(a.key.infoHash, b.key.infoHash);
    KeyOrder.LessTotal(a.key.infoHash, a.key.infoHash);
  }

  lemma BeforeTransitive(a: Item, b: Item, c: Item)
    requires Before(a, b) && Before(b, c)
    ensures Before(a, c)
  {
    if KeyOrder.Less(a.key.infoHash, b.key.infoHash) && KeyOrder.Less(b.key.infoHash, c.key.infoHash) {
      KeyOrder.LessTransitive(a.key.infoHash, b.key.infoHash, c.key.infoHash);
    }
  }

  // ----------------------------------------------------------------- the tree

  predicate Ordered(tree: seq<Item>) {
    forall i, j | 0 <= i < j < |tree| :: Before(tree[i], tree[j])
  }

  /** A scan meets higher priorities first, among equals the partial pieces, and among these the rarer ones. */
  lemma ScanOrder(tree: seq<Item>, i: nat, j: nat)
    requires Ordered(tree) && i < j < |tree|
    ensures var a, b := tree[i].state, tree[j].state;
            && a.priority >= b.priority
            && (a.priority == b.priority && b.partial ==> a.partial)
            && (a.priority == b.priority && a.partial == b.partial ==> a.availability <= b.availability)
            && (a == b ==> tree[i].key.index <= tree[j].key.index)
            && (a == b && tree[i].key.index == tree[j].key.index ==>
                  KeyOrder.Less(tree[i].key.infoHash, tree[j].key.infoHash))
  {
    assert Before(tree[i], tree[j]);
  }

  /** Where an item is, or belongs. */
  function Place(tree: seq<Item>, x: Item): (n: nat)
    ensures n <= |tree|
    ensures forall i | 0 <= i < n :: Before(tree[i], x)
    ensures n < |tree| ==> !Before(tree[n], x)
  {
    if tree == [] || !Before(tree[0], x) then 0 else 1 + Place(tree[1..], x)
  }

  /** The tree refuses to replace an item. */
  function Insert(tree: seq<Item>, x: Item): Outcome<seq<Item>> {
    var n := Place(tree, x);
    if n < |tree| && tree[n] == x then Panic("overwrote")
    else Done(tree[..n] + [x] + tree[n..])
  }

  /** The tree refuses to delete an item that is not there. */
  function Erase(tree: seq<Item>, x: Item): Outcome<seq<Item>> {
    var n := Place(tree, x);
    if n < |tree| && tree[n] == x then Done(tree[..n] + tree[n + 1..])
    else Panic("not found")
  }

  lemma PlaceFinds(tree: seq<Item>, x: Item)
    requires Ordered(tree)
    ensures var n := Place(tree, x);
            && (x in tree <==> n < |tree| && tree[n] == x)
            && forall i | n <= i < |tree| && tree[i] != x :: Before(x, tree[i])
  {
    var n := Place(tree, x);
    forall i | n <= i < |tree|
      ensures tree[i] == x || Before(x, tree[i])
      ensures tree[i] == x ==> i == n
    {
      BeforeTotal(tree[n], x);
      if i > n {
        assert Before(tree[n], tree[i]);
        if Before(x, tree[n]) {
          BeforeTransitive(x, tree[n], tree[i]);
        }
        BeforeTotal(x, tree[i]);
      }
    }
    if x in tree {
      var i :| 0 <= i < |tree| && tree[i] == x;
      BeforeTotal(x, x);
      assert i >= n;
    }
  }

  /** Inserting fails only for an item that is there, and keeps the order. */
  lemma InsertDoes(tree: seq<Item>, x: Item)
    requires Ordered(tree)
    ensures Insert(tree, x).Done? <==> x !in tree
    ensures x !in tree ==> Ordered(Insert(tree, x).value) && forall y :: y in Insert(tree, x).value <==> y in tree || y == x
  {
    PlaceFinds(tree, x);
    if x !in tree {
      assert forall i | 0 <= i < |tree| :: tree[i] in tree;
      PutIn(tree, x, Place(tree, x));
    }
  }

  lemma PutIn(tree: seq<Item>, x: Item, n: nat)
    requires Ordered(tree) && n <= |tree|
    requires (forall i | 0 <= i < n :: Before(tree[i], x)) && (forall i | n <= i < |tree| :: Before(x, tree[i]))
    ensures var s := tree[..n] + [x] + tree[n..];
            Ordered(s) && forall y :: y in s <==> y in tree || y == x
  {
    var s := tree[..n] + [x] + tree[n..];
    forall i, j | 0 <= i < j < |s|
      ensures Before(s[i], s[j])
    {
      var i0, j0 := if i < n then i else i - 1, if j < n then j else j - 1;
      assert i != n ==> s[i] == tree[i0];
      assert j != n ==> s[j] == tree[j0];
    }
    forall y
      ensures y in s <==> y in tree || y == x
    {
      assert s[n] == x;
      if y in tree {
        var i :| 0 <= i < |tree| && tree[i] == y;
        assert s[if i < n then i else i + 1] == y;
      }
    }
  }

  /** Deleting fails only for an item that is not there, and keeps the order. */
  lemma EraseDoes(tree: seq<Item>, x: Item)
    requires Ordered(tree)
    ensures Erase(tree, x).Done? <==> x in tree
    ensures x in tree ==> Ordered(Erase(tree, x).value) && forall y :: y in Erase(tree, x).value <==> y in tree && y != x
  {
    PlaceFinds(tree, x);
    if x in tree {
      TakeOut(tree, Place(tree, x));
    }
  }

  lemma TakeOut(tree: seq<Item>, n: nat)
    requires Ordered(tree) && n < |tree|
    ensures var r := tree[..n] + tree[n + 1..];
            Ordered(r) && forall y :: y in r <==> y in tree && y != tree[n]
  {
    var r := tree[..n] + tree[n + 1..];
    BeforeTotal(tree[n], tree[n]);
    forall y
      ensures y in r <==> y in tree && y != tree[n]
    {
      if y in tree && y != tree[n] {
        var i :| 0 <= i < |tree| && tree[i] == y;
        assert r[if i < n then i else i - 1] == y;
      }
      if y in r {
        var i :| 0 <= i < |r| && r[i] == y;
        assert y == tree[if i < n then i else i + 1];
      }
    }
  }

  // ------------------------------------------------------------ tree and keys

  datatype Order = Order(tree: seq<Item>, keys: map<PieceKey, PieceState>)

  /** The tree holds every key with its state, and nothing else, in order. */
  ghost predicate Inv(o: Order) {
    Ordered(o.tree) && forall x :: x in o.tree <==> x.key in o.keys && o.keys[x.key] == x.state
  }

  function Add(o: Order, key: PieceKey, state: PieceState): Outcome<Order> {
    if key in o.keys then Panic("already there")
    else
      var tree :- Insert(o.tree, Item(key, state));
      Done(Order(tree, o.keys[key := state]))
  }

  function Update(o: Order, key: PieceKey, state: PieceState): Outcome<Order> {
    if key !in o.keys then Panic("key should have been added already")
    else if o.keys[key] == state then Done(o)
    else
      var tree1 :- Erase(o.tree, Item(key, o.keys[key]));
      var tree2 :- Insert(tree1, Item(key, state));
      Done(Order(tree2, o.keys[key := state]))
  }

  /** Without an entry the state looked up is the zero value. */
  function Delete(o: Order, key: PieceKey): Outcome<Order> {
    var state := if key in o.keys then o.keys[key] else PieceState(0, false, 0);
    var tree :- Erase(o.tree, Item(key, state));
    Done(Order(tree, o.keys - {key}))
  }

  /** Adding works exactly for new keys: the tree never overwrites. */
  lemma AddDoes(o: Order, key: PieceKey, state: PieceState)
    requires Inv(o)
    ensures Add(o, key, state).Done? <==> key !in o.keys
    ensures key !in o.keys ==> Inv(Add(o, key, state).value) && Add(o, key, state).value.keys == o.keys[key := state]
  {
    InsertDoes(o.tree, Item(key, state));
    assert Item(key, state) in o.tree ==> key in o.keys;
  }

  /** Updating works exactly for known keys: the tree always finds the old item and never overwrites. */
  lemma UpdateDoes(o: Order, key: PieceKey, state: PieceState)
    requires Inv(o)
    ensures Update(o, key, state).Done? <==> key in o.keys
    ensures key in o.keys ==>
              Inv(Update(o, key, state).value) && Update(o, key, state).value.keys == o.keys[key := state]
  {
    if key in o.keys {
      if o.keys[key] == state {
        assert o.keys[key := state] == o.keys;
      } else {
        EraseDoes(o.tree, Item(key, o.keys[key]));
        InsertDoes(Erase(o.tree, Item(key, o.keys[key])).value, Item(key, state));
      }
    }
  }

  /** Deleting works exactly for known keys: the tree always finds the item. */
  lemma DeleteDoes(o: Order, key: PieceKey)
    requires Inv(o)
    ensures Delete(o, key).Done? <==> key in o.keys
    ensures key in o.keys ==> Inv(Delete(o, key).value) && Delete(o, key).value.keys == o.keys - {key}
  {
    var state := if key in o.keys then o.keys[key] else PieceState(0, false, 0);
    EraseDoes(o.tree, Item(key, state));
  }

  /** The tree as an object. */
  class Btree {
    var items: seq<Item>

    constructor ()
      ensures items == []
    {
      items := [];
    }

    method Find(x: Item) returns (n: nat)
      ensures n == Place(items, x)
    {
      n := 0;
      while n < |items| && Before(items[n], x)
        invariant 0 <= n <= |items| && Place(items, x) == n + Place(items[n..], x)
      {
        n := n + 1;
      }
    }

    method Upsert(x: Item) returns (overwrote: bool)
      modifies this
      ensures overwrote <==> Insert(old(items), x).Panic?
      ensures !overwrote ==> Insert(old(items), x) == Done(items)
    {
      var n := Find(x);
      if n < |items| && items[n] == x {
        return true;
      }
      items := items[..n] + [x] + items[n..];
      return false;
    }

    method Remove(x: Item) returns (found: bool)
      modifies this
      ensures found <==> Erase(old(items), x).Done?
      ensures found ==> Erase(old(items), x) == Done(items)
    {
      var n := Find(x);
      if n < |items| && items[n] == x {
        items := items[..n] + items[n + 1..];
        return true;
      }
      return false;
    }
  }

  class PieceRequestOrder {
    const tree: Btree
    var keys: map<PieceKey, PieceState>

    constructor ()
      ensures View() == Order([], map[]) && fresh(tree)
    {
      tree := new Btree();
      keys := map[];
    }

    ghost function View(): Order
      reads this, tree
    {
      Order(tree.items, keys)
    }

    method AddItem(key: PieceKey, state: PieceState)
      requires Inv(View()) && key !in keys
      modifies this, tree
      ensures Add(old(View()), key, state) == Done(View()) && Inv(View())
    {
      AddDoes(View(), key, state);
      var overwrote := tree.Upsert(Item(key, state));
      assert !overwrote;
      keys := keys[key := state];
    }

    method UpdateItem(key: PieceKey, state: PieceState)
      requires Inv(View()) && key in keys
      modifies this, tree
      ensures Update(old(View()), key, state) == Done(View()) && Inv(View())
    {
      UpdateDoes(View(), key, state);
      if keys[key] == state {
        return;
      }
      var found := tree.Remove(Item(key, keys[key]));
      assert found;
      var overwrote := tree.Upsert(Item(key, state));
      assert !overwrote;
      keys := keys[key := state];
    }

    method DeleteItem(key: PieceKey)
      requires Inv(View()) && key in keys
      modifies this, tree
      ensures Delete(old(View()), key) == Done(View()) && Inv(View())
    {
      DeleteDoes(View(), key);
      var found := tree.Remove(Item(key, keys[key]));
      assert found;
      keys := keys - {key};
    }
  }
}
