/** Small datatypes and finite sums shared by the models. */
module Common {

  /** The result of a step of the program that can hit one of its own `panic`s. */
  datatype Outcome<+S> = Done(value: S) | Panic(why: string) {
    predicate IsFailure() {
      Panic?
    }

    function PropagateFailure<U>(): Outcome<U>
      requires Panic?
    {
      Panic(why)
    }

    function Extract(): S
      requires Done?
    {
      value
    }
  }

  type byte = x: int | 0 <= x < 256

  datatype Option<+T> = None | Some(value: T)

  function Min(a: int, b: int): int {
    if a < b then a else b
  }

  function Max(a: int, b: int): int {
    if a > b then a else b
  }

  /** The sum of the values of a finite map. */
  ghost function Sum<K>(m: map<K, int>): int
    decreases |m|
  {
    if m == map[] then 0
    else
      var k :| k in m;
      m[k] + Sum(m - {k})
  }

  /** Any key can be taken out of a sum first. */
  lemma {:induction false} SumWithout<K>(m: map<K, int>, k: K)
    requires k in m
    ensures Sum(m) == m[k] + Sum(m - {k})
    decreases |m|
  {
    var j :| j in m && Sum(m) == m[j] + Sum(m - {j});
    if j == k {
    } else {
      SumWithout(m - {j}, k);
      SumWithout(m - {k}, j);
      assert (m - {j}) - {k} == (m - {k}) - {j};
    }
  }

  lemma SumUpdate<K>(m: map<K, int>, k: K, v: int)
    ensures Sum(m[k := v]) == Sum(m) + v - (if k in m then m[k] else 0)
  {
    SumWithout(m[k := v], k);
    assert m[k := v] - {k} == m - {k};
    if k in m {
      SumWithout(m, k);
    } else {
      assert m - {k} == m;
    }
  }

  /** A list without repetition of the members of a set is as long as the set is large. */
  lemma {:induction false} ListedCount<T(!new)>(s: seq<T>, xs: set<T>)
    requires forall i, j | 0 <= i < j < |s| :: s[i] != s[j]
    requires forall x :: x in s <==> x in xs
    ensures |s| == |xs|
  {
    if s == [] {
      assert xs == {};
    } else {
      var last := s[|s| - 1];
      assert s == s[..|s| - 1] + [last];
      assert last in xs;
      forall x
        ensures x in s[..|s| - 1] <==> x in xs - {last}
      {
        assert x in s <==> x in s[..|s| - 1] || x == last;
      }
      ListedCount(s[..|s| - 1], xs - {last});
    }
  }
}
