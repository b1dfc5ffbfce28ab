/**
 * The order produced by JavaScript's `Array.prototype.sort` with a numeric
 * comparator `(a, b) => key(a) - key(b)`. That sort is stable, so it is fully
 * described by the permutation of input indices that it applies: ascending by
 * key, and by input position among equal keys.
 *
 * The permutation is computed here by insertion, one index at a time, and is
 * proved to be the one and only permutation ordered that way.
 */
module StableSort {

  /** Index `i` is placed before index `j`: a smaller key, or an equal key and an earlier position. */
  predicate Precedes(keys: seq<real>, i: nat, j: nat) {
    i < |keys| && j < |keys| && (keys[i] < keys[j] || (keys[i] == keys[j] && i < j))
  }

  /** Every index of `o` precedes every later one. */
  predicate StablyOrdered(keys: seq<real>, o: seq<nat>) {
    forall a, b :: 0 <= a < b < |o| ==> Precedes(keys, o[a], o[b])
  }

  /** `o` lists each of the indices `0 .. n-1` exactly once. */
  predicate IsPermutationOfRange(o: seq<nat>, n: nat) {
    && |o| == n
    && (forall k :: 0 <= k < |o| ==> o[k] < n)
    && (forall i :: 0 <= i < n ==> i in o)
  }

  /** The key at position `j`; positions outside `keys` never occur in a sort order. */
  function KeyAt(keys: seq<real>, j: nat): real {
    if j < |keys| then keys[j] else 0.0
  }

  /**
   * Places index `i` after the last entry of `o` whose key is not greater
   * than that of `i`.
   */
  function Insert(keys: seq<real>, o: seq<nat>, i: nat): seq<nat>
    decreases |o|
  {
    if o == [] then [i]
    else if KeyAt(keys, o[|o| - 1]) <= KeyAt(keys, i) then o + [i]
    else Insert(keys, o[..|o| - 1], i) + [o[|o| - 1]]
  }

  /** The stable order of the first `n` indices, built one index at a time. */
  function Order(keys: seq<real>, n: nat): seq<nat>
    decreases n
  {
    if n == 0 then [] else Insert(keys, Order(keys, n - 1), n - 1)
  }

  /** Inserting lengthens the order by one. */
  lemma {:induction false} InsertLength(keys: seq<real>, o: seq<nat>, i: nat)
    ensures |Insert(keys, o, i)| == |o| + 1
    decreases |o|
  {
    if o != [] && KeyAt(keys, o[|o| - 1]) > KeyAt(keys, i) {
      InsertLength(keys, o[..|o| - 1], i);
    }
  }

  /** Inserting adds the inserted index and keeps every other one. */
  lemma {:induction false} InsertMembers(keys: seq<real>, o: seq<nat>, i: nat)
    ensures forall x :: x in Insert(keys, o, i) <==> x in o || x == i
    decreases |o|
  {
    if o != [] {
      var m := |o| - 1;
      assert o == o[..m] + [o[m]];
      if KeyAt(keys, o[m]) > KeyAt(keys, i) {
        InsertMembers(keys, o[..m], i);
      }
    }
  }

  /** Inserting an index larger than all others keeps the order stable. */
  lemma {:induction false} InsertKeepsOrder(keys: seq<real>, o: seq<nat>, i: nat)
    requires i < |keys|
    requires forall k :: 0 <= k < |o| ==> o[k] < i
    requires StablyOrdered(keys, o)
    ensures StablyOrdered(keys, Insert(keys, o, i))
    decreases |o|
  {
    if o != [] {
      var m := |o| - 1;
      if keys[o[m]] <= keys[i] {
        AppendAfterLast(keys, o, i);
      } else {
        InsertKeepsOrder(keys, o[..m], i);
        InsertMembers(keys, o[..m], i);
        var front := Insert(keys, o[..m], i);
        AppendBeforeLast(keys, o, i, front);
      }
    }
  }

  /** Appending an index preceded by every index of an ordered sequence keeps it ordered. */
  lemma AppendOrdered(keys: seq<real>, s: seq<nat>, y: nat)
    requires StablyOrdered(keys, s)
    requires forall k :: 0 <= k < |s| ==> Precedes(keys, s[k], y)
    ensures StablyOrdered(keys, s + [y])
  {
  }

  lemma AppendAfterLast(keys: seq<real>, o: seq<nat>, i: nat)
    requires i < |keys| && o != []
    requires forall k :: 0 <= k < |o| ==> o[k] < i
    requires StablyOrdered(keys, o)
    requires keys[o[|o| - 1]] <= keys[i]
    ensures StablyOrdered(keys, o + [i])
  {
    var m := |o| - 1;
    forall k | 0 <= k < |o| ensures Precedes(keys, o[k], i) {
      if k < m {
        assert Precedes(keys, o[k], o[m]);
      }
    }
    AppendOrdered(keys, o, i);
  }

  lemma AppendBeforeLast(keys: seq<real>, o: seq<nat>, i: nat, front: seq<nat>)
    requires i < |keys| && o != []
    requires forall k :: 0 <= k < |o| ==> o[k] < |keys|
    requires StablyOrdered(keys, o)
    requires keys[i] < keys[o[|o| - 1]]
    requires forall x :: x in front ==> x in o[..|o| - 1] || x == i
    requires StablyOrdered(keys, front)
    ensures StablyOrdered(keys, front + [o[|o| - 1]])
  {
    var m := |o| - 1;
    forall k | 0 <= k < |front| ensures Precedes(keys, front[k], o[m]) {
      var x := front[k];
      assert x in front;
      if x != i {
        assert x in o[..m];
        var j :| 0 <= j < m && o[..m][j] == x;
        assert Precedes(keys, o[j], o[m]);
      }
    }
    AppendOrdered(keys, front, o[m]);
  }

  /** The first `n` indices, inserted one by one, each occur exactly once. */
  lemma {:induction false} OrderIsPermutation(keys: seq<real>, n: nat)
    ensures IsPermutationOfRange(Order(keys, n), n)
    decreases n
  {
    if n > 0 {
      var prev := Order(keys, n - 1);
      OrderIsPermutation(keys, n - 1);
      InsertLength(keys, prev, n - 1);
      InsertMembers(keys, prev, n - 1);
      var o := Order(keys, n);
      assert o == Insert(keys, prev, n - 1);
      forall k | 0 <= k < |o| ensures o[k] < n {
        assert o[k] in o;
      }
      forall x | 0 <= x < n ensures x in o {
        if x < n - 1 {
          assert x in prev;
        }
      }
    }
  }

  /** The first `n` indices, inserted one by one, come out stably ordered. */
  lemma {:induction false} OrderIsStable(keys: seq<real>, n: nat)
    requires n <= |keys|
    ensures StablyOrdered(keys, Order(keys, n))
    decreases n
  {
    if n > 0 {
      OrderIsStable(keys, n - 1);
      OrderIsPermutation(keys, n - 1);
      InsertKeepsOrder(keys, Order(keys, n - 1), n - 1);
    }
  }

  /** The permutation that a stable ascending sort by `keys` applies. */
  function SortOrder(keys: seq<real>): (o: seq<nat>)
    ensures |o| == |keys|
  {
    OrderIsPermutation(keys, |keys|);
    Order(keys, |keys|)
  }

  /** `SortOrder` is a stable sort: a permutation of the positions, in key order, ties by position. */
  lemma SortOrderIsStableSort(keys: seq<real>)
    ensures IsPermutationOfRange(SortOrder(keys), |keys|)
    ensures StablyOrdered(keys, SortOrder(keys))
  {
    OrderIsStable(keys, |keys|);
    OrderIsPermutation(keys, |keys|);
  }

  /** Two stably ordered sequences holding the same indices are equal. */
  lemma {:induction false} StableOrderUnique(keys: seq<real>, o1: seq<nat>, o2: seq<nat>)
    requires |o1| == |o2|
    requires StablyOrdered(keys, o1) && StablyOrdered(keys, o2)
    requires forall x :: x in o1 <==> x in o2
    ensures o1 == o2
  {
    if |o1| > 0 {
      var a, b := o1[0], o2[0];
      HeadPrecedesRest(keys, o1);
      HeadPrecedesRest(keys, o2);
      assert a in o1 && b in o2;
      assert a == b;
      forall x ensures x in o1[1..] <==> x in o2[1..] {
        if x in o1[1..] {
          var i :| 1 <= i < |o1| && o1[i] == x;
          assert Precedes(keys, o1[0], o1[i]);
        }
        if x in o2[1..] {
          var j :| 1 <= j < |o2| && o2[j] == x;
          assert Precedes(keys, o2[0], o2[j]);
        }
        assert x in o1 <==> x in o2;
        assert x in o1 <==> x == o1[0] || x in o1[1..] by { assert o1 == [o1[0]] + o1[1..]; }
        assert x in o2 <==> x == o2[0] || x in o2[1..] by { assert o2 == [o2[0]] + o2[1..]; }
      }
      StableOrderUnique(keys, o1[1..], o2[1..]);
      assert o1 == [a] + o1[1..] && o2 == [b] + o2[1..];
    }
  }

  lemma HeadPrecedesRest(keys: seq<real>, o: seq<nat>)
    requires StablyOrdered(keys, o) && o != []
    ensures forall x :: x in o ==> x == o[0] || Precedes(keys, o[0], x)
  {
    forall x | x in o ensures x == o[0] || Precedes(keys, o[0], x) {
      var k :| 0 <= k < |o| && o[k] == x;
      if k > 0 {
        assert Precedes(keys, o[0], o[k]);
      }
    }
  }

  /** Any stably ordered permutation of the positions is the one `SortOrder` gives. */
  lemma StableSortIsUnique(keys: seq<real>, o: seq<nat>)
    requires IsPermutationOfRange(o, |keys|) && StablyOrdered(keys, o)
    ensures o == SortOrder(keys)
  {
    SortOrderIsStableSort(keys);
    var s := SortOrder(keys);
    forall x ensures x in o <==> x in s {
      if x in o {
        var k :| 0 <= k < |o| && o[k] == x;
      }
      if x in s {
        var k :| 0 <= k < |s| && s[k] == x;
      }
    }
    StableOrderUnique(keys, o, s);
  }

  /** The first index of the sort has the least key, and is the earliest position holding it. */
  lemma FirstIsEarliestLeast(keys: seq<real>)
    requires |keys| > 0
    ensures var f := SortOrder(keys)[0];
      f < |keys| &&
      (forall j :: 0 <= j < |keys| ==> keys[f] <= keys[j]) &&
      (forall j :: 0 <= j < f ==> keys[f] < keys[j])
  {
    SortOrderIsStableSort(keys);
    var o := SortOrder(keys);
    forall j | 0 <= j < |keys| ensures keys[o[0]] <= keys[j] && (j < o[0] ==> keys[o[0]] < keys[j]) {
      assert j in o;
      var k :| 0 <= k < |o| && o[k] == j;
      if k > 0 {
        assert Precedes(keys, o[0], o[k]);
      }
    }
  }

  /** The last index of the sort has the greatest key, and is the latest position holding it. */
  lemma LastIsLatestGreatest(keys: seq<real>)
    requires |keys| > 0
    ensures var l := SortOrder(keys)[|keys| - 1];
      l < |keys| &&
      (forall j :: 0 <= j < |keys| ==> keys[j] <= keys[l]) &&
      (forall j :: l < j < |keys| ==> keys[j] < keys[l])
  {
    SortOrderIsStableSort(keys);
    var o := SortOrder(keys);
    var n := |keys|;
    forall j | 0 <= j < n ensures keys[j] <= keys[o[n - 1]] && (o[n - 1] < j ==> keys[j] < keys[o[n - 1]]) {
      assert j in o;
      var k :| 0 <= k < |o| && o[k] == j;
      if k < n - 1 {
        assert Precedes(keys, o[k], o[n - 1]);
      }
    }
  }
}
