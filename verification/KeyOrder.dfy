/** The byte-wise order of strings, and the one increasing list of a set of strings. */
module KeyOrder {
  import opened Common

  type Key = seq<byte>

  predicate Less(a: Key, b: Key) {
    if b == [] then false
    else if a == [] then true
    else if a[0] != b[0] then a[0] < b[0]
    else Less(a[1..], b[1..])
  }

  /** The strings agree before `k`, and there the first ends or has the smaller byte. */
  predicate SmallerAt(a: Key, b: Key, k: nat) {
    k <= |a| && k < |b| && a[..k] == b[..k] && (k == |a| || a[k] < b[k])
  }

  lemma SmallerFirst(a: Key, b: Key, k: nat)
    requires SmallerAt(a, b, k)
    ensures k == 0 || (a != [] && b != [] && a[0] == b[0])
  {
    if k > 0 {
      assert a[..k][0] == b[..k][0];
    }
  }

  /** The order is the byte-wise one. */
  lemma {:induction false} LessIff(a: Key, b: Key)
    ensures Less(a, b) <==> exists k: nat :: SmallerAt(a, b, k)
  {
    if a == [] || b == [] || a[0] != b[0] {
      if Less(a, b) {
        assert SmallerAt(a, b, 0);
      }
      forall k: nat | SmallerAt(a, b, k)
        ensures Less(a, b)
      {
        SmallerFirst(a, b, k);
      }
    } else {
      LessIff(a[1..], b[1..]);
      forall k: nat | SmallerAt(a[1..], b[1..], k)
        ensures SmallerAt(a, b, k + 1)
      {
        assert a[..k + 1] == [a[0]] + a[1..][..k] && b[..k + 1] == [b[0]] + b[1..][..k];
      }
      forall k: nat | SmallerAt(a, b, k)
        ensures k > 0 && SmallerAt(a[1..], b[1..], k - 1)
      {
        assert a[1..][..k - 1] == a[..k][1..] && b[1..][..k - 1] == b[..k][1..];
      }
    }
  }

  lemma {:induction false} LessTotal(a: Key, b: Key)
    ensures Less(a, b) || a == b || Less(b, a)
    ensures !(Less(a, b) && Less(b, a)) && (a == b ==> !Less(a, b))
  {
    if a == [] || b == [] || a[0] != b[0] {
    } else {
      LessTotal(a[1..], b[1..]);
      assert a == [a[0]] + a[1..] && b == [b[0]] + b[1..];
    }
  }

  lemma {:induction false} LessTransitive(a: Key, b: Key, c: Key)
    requires Less(a, b) && Less(b, c)
    ensures Less(a, c)
  {
    if a == [] || !(a[0] == b[0] == c[0]) {
    } else {
      LessTransitive(a[1..], b[1..], c[1..]);
    }
  }

  predicate Increasing(ks: seq<Key>) {
    forall i, j | 0 <= i < j < |ks| :: Less(ks[i], ks[j])
  }

  ghost predicate IsLeast(ks: set<Key>, k: Key) {
    k in ks && forall j | j in ks && j != k :: Less(k, j)
  }

  lemma {:induction false} LeastExists(ks: set<Key>)
    requires ks != {}
    ensures exists k :: IsLeast(ks, k)
    decreases |ks|
  {
    var k :| k in ks;
    if ks == {k} {
      assert IsLeast(ks, k);
    } else {
      LeastExists(ks - {k});
      var l :| IsLeast(ks - {k}, l);
      LessTotal(k, l);
      if Less(k, l) {
        forall j | j in ks && j != k
          ensures Less(k, j)
        {
          if j != l {
            LessTransitive(k, l, j);
          }
        }
        assert IsLeast(ks, k);
      } else {
        assert IsLeast(ks, l);
      }
    }
  }

  /** The keys in increasing order. */
  ghost function Sorted(ks: set<Key>): (r: seq<Key>)
    ensures Increasing(r) && (forall k :: k in r <==> k in ks)
    decreases |ks|
  {
    if ks == {} then []
    else
      LeastExists(ks);
      var k :| IsLeast(ks, k);
      var rest := Sorted(ks - {k});
      assert forall i | 0 <= i < |rest| :: rest[i] in rest;
      [k] + rest
  }

  /** Increasing lists with the same members are the same list. */
  lemma {:induction false} IncreasingUnique(a: seq<Key>, b: seq<Key>)
    requires Increasing(a) && Increasing(b) && forall k :: k in a <==> k in b
    ensures a == b
  {
    if a == [] {
      assert b == [] by {
        assert forall i | 0 <= i < |b| :: b[i] in b;
      }
    } else {
      assert a[0] in b && b != [] && b[0] in a;
      FirstSame(a, b);
      forall k
        ensures k in a[1..] <==> k in b[1..]
      {
        TailMembers(a, k);
        TailMembers(b, k);
      }
      IncreasingUnique(a[1..], b[1..]);
      assert a == [a[0]] + a[1..] && b == [b[0]] + b[1..];
    }
  }

  lemma FirstSame(a: seq<Key>, b: seq<Key>)
    requires Increasing(a) && Increasing(b) && a != [] && b != [] && a[0] in b && b[0] in a
    ensures a[0] == b[0]
  {
    if a[0] != b[0] {
      var i :| 0 <= i < |b| && b[i] == a[0];
      var j :| 0 <= j < |a| && a[j] == b[0];
      LessTotal(a[0], b[0]);
    }
  }

  lemma TailMembers(a: seq<Key>, k: Key)
    requires Increasing(a) && a != []
    ensures k in a[1..] <==> k in a && k != a[0]
  {
    if k in a && k != a[0] {
      var i :| 0 <= i < |a| && a[i] == k;
      assert a[1..][i - 1] == k;
    }
    if k in a[1..] {
      var i :| 0 <= i < |a[1..]| && a[1..][i] == k;
      assert a[i + 1] == k;
      LessTotal(a[0], k);
    }
  }

  /** Sort the keys of a map, by taking out the least one again and again. */
  method SortKeys(keys: set<Key>) returns (r: seq<Key>)
    ensures r == Sorted(keys)
  {
    r := [];
    var todo := keys;
    while todo != {}
      invariant todo <= keys && Increasing(r) && forall k :: k in r <==> k in keys - todo
      invariant forall i, k | 0 <= i < |r| && k in todo :: Less(r[i], k)
      decreases todo
    {
      var k := TakeLeast(todo);
      r := r + [k];
      todo := todo - {k};
    }
    IncreasingUnique(r, Sorted(keys));
  }

  method TakeLeast(keys: set<Key>) returns (least: Key)
    requires keys != {}
    ensures IsLeast(keys, least)
  {
    least :| least in keys;
    var todo := keys - {least};
    while todo != {}
      invariant todo <= keys && least in keys - todo
      invariant forall j | j in keys - todo && j != least :: Less(least, j)
      decreases todo
    {
      var k :| k in todo;
      LessTotal(least, k);
      if Less(k, least) {
        forall j | j in keys - todo && j != least
          ensures Less(k, j)
        {
          LessTransitive(k, least, j);
        }
        least := k;
      }
      todo := todo - {k};
    }
  }
}
