/**
  The stable sort by an integer key that puts layers in z order and cell writes in row order.
*/
module StableSort {

  /** The elements of s whose key is k, in order. */
  function Matching<T>(s: seq<T>, key: T -> int, k: int): (r: seq<T>) {
    if s == [] then []
    else
      var rest := Matching(s[..|s| - 1], key, k);
      if key(s[|s| - 1]) == k then rest + [s[|s| - 1]] else rest
  }

  ghost predicate Ascending<T>(s: seq<T>, key: T -> int) {
    forall i, j :: 0 <= i < j < |s| ==> key(s[i]) <= key(s[j])
  }

  /** Puts t behind every element whose key does not exceed its own. */
  function Insert<T>(s: seq<T>, t: T, key: T -> int): (r: seq<T>)
    ensures |r| == |s| + 1
  {
    if s == [] || key(s[|s| - 1]) <= key(t) then s + [t]
    else Insert(s[..|s| - 1], t, key) + [s[|s| - 1]]
  }

  function Sort<T>(s: seq<T>, key: T -> int): (r: seq<T>)
    ensures |r| == |s|
  {
    if s == [] then [] else Insert(Sort(s[..|s| - 1], key), s[|s| - 1], key)
  }

  lemma {:induction false} InsertBelow<T>(s: seq<T>, t: T, key: T -> int, m: int)
    requires key(t) <= m && forall i :: 0 <= i < |s| ==> key(s[i]) <= m
    ensures forall i :: 0 <= i < |Insert(s, t, key)| ==> key(Insert(s, t, key)[i]) <= m
  {
    if s != [] && key(s[|s| - 1]) > key(t) {
      InsertBelow(s[..|s| - 1], t, key, m);
    }
  }

  lemma {:induction false} InsertAscending<T>(s: seq<T>, t: T, key: T -> int)
    requires Ascending(s, key)
    ensures Ascending(Insert(s, t, key), key)
  {
    if s != [] && key(s[|s| - 1]) > key(t) {
      InsertAscending(s[..|s| - 1], t, key);
      InsertBelow(s[..|s| - 1], t, key, key(s[|s| - 1]));
    }
  }

  lemma {:induction false} InsertMultiset<T>(s: seq<T>, t: T, key: T -> int)
    ensures multiset(Insert(s, t, key)) == multiset(s) + multiset{t}
  {
    if s != [] && key(s[|s| - 1]) > key(t) {
      InsertMultiset(s[..|s| - 1], t, key);
      assert s == s[..|s| - 1] + [s[|s| - 1]];
    }
  }

  lemma {:induction false} InsertMatching<T>(s: seq<T>, t: T, key: T -> int, k: int)
    requires Ascending(s, key)
    ensures Matching(Insert(s, t, key), key, k) == Matching(s + [t], key, k)
  {
    assert (s + [t])[..|s|] == s;
    if s == [] || key(s[|s| - 1]) <= key(t) {
    } else {
      var front, last := s[..|s| - 1], s[|s| - 1];
      InsertMatching(front, t, key, k);
      assert (front + [t])[..|front|] == front;
      var r := Insert(front, t, key);
      assert (r + [last])[..|r|] == r;
      if key(t) == k {
        NoneMatching([last], key, k);
      }
    }
  }

  lemma {:induction false} NoneMatching<T>(s: seq<T>, key: T -> int, k: int)
    requires forall i :: 0 <= i < |s| ==> key(s[i]) != k
    ensures Matching(s, key, k) == []
  {
    if s != [] {
      NoneMatching(s[..|s| - 1], key, k);
    }
  }

  /** Sorting keeps every element and puts the keys in order. */
  lemma {:induction false} SortFacts<T>(s: seq<T>, key: T -> int)
    ensures Ascending(Sort(s, key), key)
    ensures multiset(Sort(s, key)) == multiset(s)
  {
    if s != [] {
      SortFacts(s[..|s| - 1], key);
      InsertAscending(Sort(s[..|s| - 1], key), s[|s| - 1], key);
      InsertMultiset(Sort(s[..|s| - 1], key), s[|s| - 1], key);
      assert s == s[..|s| - 1] + [s[|s| - 1]];
    }
  }

  /** Sorting keeps the order of elements with equal keys. */
  lemma {:induction false} SortIsStable<T>(s: seq<T>, key: T -> int, k: int)
    ensures Matching(Sort(s, key), key, k) == Matching(s, key, k)
  {
    if s != [] {
      var front, last := s[..|s| - 1], s[|s| - 1];
      SortFacts(front, key);
      SortIsStable(front, key, k);
      InsertMatching(Sort(front, key), last, key, k);
      var r := Sort(front, key);
      assert (r + [last])[..|r|] == r;
    }
  }

  lemma {:induction false} MatchingConcat<T>(a: seq<T>, b: seq<T>, key: T -> int, k: int)
    ensures Matching(a + b, key, k) == Matching(a, key, k) + Matching(b, key, k)
  {
    if b == [] {
      assert a + b == a;
    } else {
      MatchingConcat(a, b[..|b| - 1], key, k);
      assert (a + b)[..|a + b| - 1] == a + b[..|b| - 1];
    }
  }

  lemma {:induction false} AllMatching<T>(s: seq<T>, key: T -> int, k: int)
    requires forall i :: 0 <= i < |s| ==> key(s[i]) == k
    ensures Matching(s, key, k) == s
  {
    if s != [] {
      AllMatching(s[..|s| - 1], key, k);
      assert s == s[..|s| - 1] + [s[|s| - 1]];
    }
  }

  /** The part of a sequence between two positions is one key's elements if nothing outside has that key. */
  lemma {:induction false} MatchingSlice<T>(s: seq<T>, key: T -> int, k: int, i: nat, j: nat)
    requires i <= j <= |s|
    requires forall n :: 0 <= n < |s| ==> (key(s[n]) == k <==> i <= n < j)
    ensures Matching(s, key, k) == s[i..j]
  {
    assert s == s[..i] + s[i..j] + s[j..];
    MatchingConcat(s[..i] + s[i..j], s[j..], key, k);
    MatchingConcat(s[..i], s[i..j], key, k);
    NoneMatching(s[..i], key, k);
    AllMatching(s[i..j], key, k);
    NoneMatching(s[j..], key, k);
  }

  /** The order is the only stable one: keys in order and equal keys undisturbed fix the result. */
  lemma {:induction false} StableOrderIsUnique<T>(a: seq<T>, b: seq<T>, key: T -> int)
    requires Ascending(a, key) && Ascending(b, key)
    requires forall k :: Matching(a, key, k) == Matching(b, key, k)
    ensures a == b
  {
    if a != [] {
      KeyOccurs(b, key, key(a[|a| - 1]));
      assert Matching(a, key, key(a[|a| - 1])) != [];
    }
    if b != [] {
      KeyOccurs(a, key, key(b[|b| - 1]));
      assert Matching(b, key, key(b[|b| - 1])) != [];
    }
    if a != [] {
      var x, y := a[|a| - 1], b[|b| - 1];
      assert Matching(a, key, key(x)) == Matching(b, key, key(x));
      assert Matching(a, key, key(y)) == Matching(b, key, key(y));
      assert key(x) == key(y);
      forall k {:trigger Matching(a[..|a| - 1], key, k)}
        ensures Matching(a[..|a| - 1], key, k) == Matching(b[..|b| - 1], key, k)
      {
        assert Matching(a, key, k) == Matching(b, key, k);
        if k == key(x) {
          var m, n := Matching(a[..|a| - 1], key, k), Matching(b[..|b| - 1], key, k);
          assert m == (m + [x])[..|m|] && n == (n + [y])[..|n|];
        }
      }
      StableOrderIsUnique(a[..|a| - 1], b[..|b| - 1], key);
      assert Matching(a, key, key(x))[|Matching(a, key, key(x))| - 1] == x;
      assert Matching(b, key, key(x))[|Matching(b, key, key(x))| - 1] == y;
      assert a == a[..|a| - 1] + [x] && b == b[..|b| - 1] + [y];
    }
  }

  /** A key that some element has is at most the last key of an ascending sequence. */
  lemma {:induction false} KeyOccurs<T>(s: seq<T>, key: T -> int, k: int)
    requires Ascending(s, key)
    ensures Matching(s, key, k) != [] ==> s != [] && k <= key(s[|s| - 1])
  {
    if s != [] && key(s[|s| - 1]) != k {
      KeyOccurs(s[..|s| - 1], key, k);
    }
  }

  /** t is an element of s that belongs after element m. */
  ghost predicate Above<T>(s: seq<T>, key: T -> int, m: nat, t: T)
    requires m < |s|
  {
    exists n :: 0 <= n < |s| && s[n] == t && (key(s[m]) < key(t) || (key(s[m]) == key(t) && m < n))
  }

  /** Element m of s is at k in r, and only what belongs after it comes after it. */
  ghost predicate PlacedAt<T>(s: seq<T>, key: T -> int, m: nat, r: seq<T>, k: nat)
    requires m < |s|
  {
    k < |r| && r[k] == s[m] && forall j :: k < j < |r| ==> Above(s, key, m, r[j])
  }

  /**
    Every element has its place: whatever comes after it has a larger key, or the same key and came
    after it before.
   */
  lemma {:induction false} SortedPlace<T>(s: seq<T>, key: T -> int, m: nat) returns (k: nat)
    requires m < |s|
    ensures PlacedAt(s, key, m, Sort(s, key), k)
  {
    hide PlacedAt, PutIn;
    var front, t := s[..|s| - 1], s[|s| - 1];
    var r := Sort(front, key);
    SortFacts(front, key);
    var i := InsertedPlace(r, t, key);
    if m == |s| - 1 {
      SortedWithin(front, key);
      LastPlaced(front, t, key, r, i, Insert(r, t, key));
      k := i;
    } else {
      var k0 := SortedPlace(front, key, m);
      StillPlaced(front, t, key, m, r, k0, i, Insert(r, t, key));
      k := if k0 < i then k0 else k0 + 1;
    }
    assert s == front + [t];
  }

  lemma {:induction false} SortedWithin<T>(s: seq<T>, key: T -> int)
    ensures forall j :: 0 <= j < |s| ==> Sort(s, key)[j] in s
  {
    SortFacts(s, key);
    var r := Sort(s, key);
    forall j | 0 <= j < |s|
      ensures r[j] in s
    {
      assert r[j] in multiset(r);
    }
  }

  /** t has been put into r as number i, behind what does not exceed it. */
  ghost predicate PutIn<T>(r: seq<T>, t: T, key: T -> int, i: nat, all: seq<T>) {
    && i <= |r| && |all| == |r| + 1
    && (forall j :: 0 <= j < i ==> all[j] == r[j] && key(r[j]) <= key(t))
    && all[i] == t
    && (forall j :: i < j < |all| ==> all[j] == r[j - 1] && key(all[j]) > key(t))
  }

  lemma {:induction false} LastPlaced<T>(front: seq<T>, t: T, key: T -> int, r: seq<T>, i: nat, all: seq<T>)
    requires PutIn(r, t, key, i, all) && forall j :: 0 <= j < |r| ==> r[j] in front
    ensures PlacedAt(front + [t], key, |front|, all, i)
  {
    var s := front + [t];
    forall j | i < j < |all|
      ensures Above(s, key, |front|, all[j])
    {
      var n :| 0 <= n < |front| && front[n] == r[j - 1];
      assert s[n] == all[j];
    }
  }

  lemma {:induction false} StillPlaced<T>(front: seq<T>, t: T, key: T -> int, m: nat, r: seq<T>, k0: nat, i: nat,
                                          all: seq<T>)
    requires m < |front| && PlacedAt(front, key, m, r, k0) && PutIn(r, t, key, i, all)
    ensures PlacedAt(front + [t], key, m, all, if k0 < i then k0 else k0 + 1)
  {
    var s := front + [t];
    forall j | (if k0 < i then k0 else k0 + 1) < j < |all|
      ensures Above(s, key, m, all[j])
    {
      if j == i {
        assert s[|front|] == all[j];
      } else {
        AboveStill(front, t, key, m, r[if j < i then j else j - 1]);
      }
    }
  }

  lemma {:induction false} AboveStill<T>(front: seq<T>, t: T, key: T -> int, m: nat, u: T)
    requires m < |front| && Above(front, key, m, u)
    ensures Above(front + [t], key, m, u)
  {
    var n :| 0 <= n < |front| && front[n] == u && (key(front[m]) < key(u) || (key(front[m]) == key(u) && m < n));
    assert (front + [t])[n] == u;
  }

  lemma {:induction false} InsertedPlace<T>(s: seq<T>, t: T, key: T -> int) returns (i: nat)
    requires Ascending(s, key)
    ensures PutIn(s, t, key, i, Insert(s, t, key))
  {
    if s == [] || key(s[|s| - 1]) <= key(t) {
      i := |s|;
      assert forall j :: 0 <= j < |s| - 1 ==> key(s[j]) <= key(s[|s| - 1]);
    } else {
      var front := s[..|s| - 1];
      i := InsertedPlace(front, t, key);
      PutInMore(front, t, key, i, Insert(front, t, key), s[|s| - 1]);
      assert s == front + [s[|s| - 1]];
    }
  }

  lemma {:induction false} PutInMore<T>(r: seq<T>, t: T, key: T -> int, i: nat, all: seq<T>, last: T)
    requires PutIn(r, t, key, i, all) && key(last) > key(t)
    ensures PutIn(r + [last], t, key, i, all + [last])
  {
  }
}
