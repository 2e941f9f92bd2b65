/** Spelling suggestions: the Levenshtein distance in two rows, and the closest of some names. */
module EditDistance {
  import opened Common

  function Front<T>(s: seq<T>): seq<T>
    requires s != []
  {
    s[..|s| - 1]
  }

  function Last<T>(s: seq<T>): T
    requires s != []
  {
    s[|s| - 1]
  }

  /** The distance by its recursive definition. */
  function Distance<T(==)>(a: seq<T>, b: seq<T>): nat
    decreases |a| + |b|
  {
    if a == [] then |b|
    else if b == [] then |a|
    else
      Min(Min(Distance(a, Front(b)) + 1, Distance(Front(a), b) + 1),
          Distance(Front(a), Front(b)) + if Last(a) == Last(b) then 0 else 1)
  }

  // ---- the distance is the number of edits it takes --------------------------------------------

  /** t is s with one element put in before the k-th. */
  predicate Inserted<T(==)>(s: seq<T>, t: seq<T>, k: nat) {
    k <= |s| && |t| == |s| + 1 && t[..k] == s[..k] && t[k + 1..] == s[k..]
  }

  predicate Replaced<T(==)>(s: seq<T>, t: seq<T>, k: nat) {
    k < |s| && |t| == |s| && t[..k] == s[..k] && t[k + 1..] == s[k + 1..]
  }

  /** One element inserted, deleted or replaced, anywhere. */
  predicate OneEdit<T(==)>(s: seq<T>, t: seq<T>) {
    || (exists k: nat | k <= |s| :: Inserted(s, t, k))
    || (exists k: nat | k <= |t| :: Inserted(t, s, k))
    || (exists k: nat | k < |s| :: Replaced(s, t, k))
  }

  /** A sequence of texts, each one edit from the next. */
  predicate Path<T(==)>(p: seq<seq<T>>) {
    p != [] && forall i :: 0 <= i < |p| - 1 ==> OneEdit(p[i], p[i + 1])
  }

  predicate Connects<T(==)>(p: seq<seq<T>>, a: seq<T>, b: seq<T>) {
    Path(p) && p[0] == a && Last(p) == b
  }

  lemma {:induction false} InsertedFronts<T>(s: seq<T>, t: seq<T>, k: nat)
    requires Inserted(s, t, k) && k < |s|
    ensures Last(s) == Last(t) && Inserted(Front(s), Front(t), k)
  {
    assert Last(t) == t[k + 1..][|s| - k - 1] && Last(s) == s[k..][|s| - k - 1];
    assert Front(t)[..k] == t[..k] && Front(s)[..k] == s[..k];
    assert Front(t)[k + 1..] == t[k + 1..][..|s| - k - 1] && Front(s)[k..] == s[k..][..|s| - k - 1];
  }

  lemma {:induction false} ReplacedFronts<T>(s: seq<T>, t: seq<T>, k: nat)
    requires Replaced(s, t, k) && k < |s| - 1
    ensures Last(s) == Last(t) && Replaced(Front(s), Front(t), k)
  {
    assert Last(t) == t[k + 1..][|s| - k - 2] && Last(s) == s[k + 1..][|s| - k - 2];
    assert Front(t)[..k] == t[..k] && Front(s)[..k] == s[..k];
    assert Front(t)[k + 1..] == t[k + 1..][..|s| - k - 2] && Front(s)[k + 1..] == s[k + 1..][..|s| - k - 2];
  }

  /** An edit is at the very end, or leaves the last element alone. */
  lemma {:induction false} WhereEdited<T>(s: seq<T>, t: seq<T>)
    requires OneEdit(s, t)
    ensures || (t != [] && Front(t) == s) || (s != [] && Front(s) == t)
            || (s != [] && t != [] && Front(s) == Front(t))
            || (s != [] && t != [] && Last(s) == Last(t) && OneEdit(Front(s), Front(t)))
  {
    if k: nat :| k <= |s| && Inserted(s, t, k) {
      if k < |s| {
        InsertedFronts(s, t, k);
      } else {
        assert s[..k] == s && t[..k] == Front(t);
      }
    } else if k: nat :| k <= |t| && Inserted(t, s, k) {
      if k < |t| {
        InsertedFronts(t, s, k);
      } else {
        assert t[..k] == t && s[..k] == Front(s);
      }
    } else {
      var k: nat :| k < |s| && Replaced(s, t, k);
      if k < |s| - 1 {
        ReplacedFronts(s, t, k);
      }
    }
  }

  lemma {:induction false} EditsAreMutual<T>(s: seq<T>, t: seq<T>)
    requires OneEdit(s, t)
    ensures OneEdit(t, s)
  {
    if k: nat :| k < |s| && Replaced(s, t, k) {
      assert Replaced(t, s, k);
    }
  }

  /** Leaving out the last element changes the distance by one at most. */
  lemma {:induction false} OneShorter<T>(a: seq<T>, b: seq<T>)
    requires b != []
    ensures Distance(a, Front(b)) <= Distance(a, b) + 1 && Distance(a, b) <= Distance(a, Front(b)) + 1
  {
    if a != [] {
      OneShorter(Front(a), b);
      assert Front(b) != [] ==> Distance(a, Front(b)) <= Distance(Front(a), Front(b)) + 1;
      assert Front(b) == [] ==> Distance(Front(a), Front(b)) == |a| - 1;
    }
  }

  /** One edit changes the distance by one at most. */
  lemma {:induction false} OneEditCloser<T>(a: seq<T>, b: seq<T>, c: seq<T>)
    requires OneEdit(b, c)
    ensures Distance(a, c) <= Distance(a, b) + 1
    decreases |a| + |b|
  {
    WhereEdited(b, c);
    if c != [] && Front(c) == b {
      OneShorter(a, c);
    } else if b != [] && Front(b) == c {
      OneShorter(a, b);
    } else if a != [] {
      if Front(b) == Front(c) {
        OnlyLast(a, b, c);
      } else {
        OneEditCloser(a, Front(b), Front(c));
        OneEditCloser(Front(a), b, c);
        OneEditCloser(Front(a), Front(b), Front(c));
      }
    }
  }

  lemma {:induction false} OnlyLast<T>(a: seq<T>, b: seq<T>, c: seq<T>)
    requires b != [] && c != [] && Front(b) == Front(c)
    ensures Distance(a, c) <= Distance(a, b) + 1
  {
    if a != [] {
      OnlyLast(Front(a), b, c);
    }
  }

  lemma {:induction false} SameIsZero<T>(a: seq<T>)
    ensures Distance(a, a) == 0
  {
    if a != [] {
      SameIsZero(Front(a));
    }
  }

  /** No path is shorter than the distance. */
  lemma {:induction false} PathsAreLong<T>(p: seq<seq<T>>)
    requires Path(p)
    ensures Distance(p[0], Last(p)) <= |p| - 1
  {
    if |p| == 1 {
      SameIsZero(p[0]);
    } else {
      var q := Front(p);
      PathsAreLong(q);
      assert OneEdit(p[|p| - 2], p[|p| - 1]);
      OneEditCloser(p[0], Last(q), Last(p));
    }
  }

  lemma {:induction false} EndEdits<T>(s: seq<T>, x: T, y: T)
    ensures OneEdit(s, s + [x]) && OneEdit(s + [x], s) && OneEdit(s + [x], s + [y])
  {
    assert Inserted(s, s + [x], |s|);
    assert Replaced(s + [x], s + [y], |s|);
  }

  lemma {:induction false} EditBefore<T>(s: seq<T>, t: seq<T>, x: T)
    requires OneEdit(s, t)
    ensures OneEdit(s + [x], t + [x])
  {
    var u, v := s + [x], t + [x];
    if k: nat :| k <= |s| && Inserted(s, t, k) {
      assert v[..k] == t[..k] && u[..k] == s[..k] && v[k + 1..] == t[k + 1..] + [x] && u[k..] == s[k..] + [x];
      assert Inserted(u, v, k);
    } else if k: nat :| k <= |t| && Inserted(t, s, k) {
      assert v[..k] == t[..k] && u[..k] == s[..k] && u[k + 1..] == s[k + 1..] + [x] && v[k..] == t[k..] + [x];
      assert Inserted(v, u, k);
    } else {
      var k: nat :| k < |s| && Replaced(s, t, k);
      assert v[..k] == t[..k] && u[..k] == s[..k] && u[k + 1..] == s[k + 1..] + [x] && v[k + 1..] == t[k + 1..] + [x];
      assert Replaced(u, v, k);
    }
  }

  /** Every text of a path with an element added at its end. */
  lemma {:induction false} PathBefore<T>(p: seq<seq<T>>, x: T) returns (q: seq<seq<T>>)
    requires Path(p)
    ensures |q| == |p| && Connects(q, p[0] + [x], Last(p) + [x])
  {
    q := seq(|p|, i requires 0 <= i < |p| => p[i] + [x]);
    forall i | 0 <= i < |q| - 1
      ensures OneEdit(q[i], q[i + 1])
    {
      EditBefore(p[i], p[i + 1], x);
    }
  }

  lemma {:induction false} PathThen<T>(p: seq<seq<T>>, t: seq<T>)
    requires Path(p) && OneEdit(Last(p), t)
    ensures Path(p + [t])
  {
  }

  lemma {:induction false} PathFrom<T>(s: seq<T>, p: seq<seq<T>>)
    requires Path(p) && OneEdit(s, p[0])
    ensures Path([s] + p)
  {
    var q := [s] + p;
    assert forall i :: 0 < i < |q| - 1 ==> q[i] == p[i - 1] && q[i + 1] == p[i];
  }

  /** Paths that end with an element more, begin with one less, or run before a common last element. */
  lemma {:induction false} Longer<T>(p: seq<seq<T>>, a: seq<T>, b: seq<T>) returns (q: seq<seq<T>>)
    requires b != [] && Connects(p, a, Front(b))
    ensures Connects(q, a, b) && |q| == |p| + 1
  {
    assert Front(b) + [Last(b)] == b;
    EndEdits(Front(b), Last(b), Last(b));
    PathThen(p, b);
    q := p + [b];
  }

  lemma {:induction false} Earlier<T>(p: seq<seq<T>>, a: seq<T>, b: seq<T>) returns (q: seq<seq<T>>)
    requires a != [] && Connects(p, Front(a), b)
    ensures Connects(q, a, b) && |q| == |p| + 1
  {
    assert Front(a) + [Last(a)] == a;
    EndEdits(Front(a), Last(a), Last(a));
    PathFrom(a, p);
    q := [a] + p;
  }

  lemma {:induction false} Beside<T>(p: seq<seq<T>>, a: seq<T>, b: seq<T>) returns (q: seq<seq<T>>)
    requires a != [] && b != [] && Connects(p, Front(a), Front(b))
    ensures Connects(q, a, b) && |q| == |p| + if Last(a) == Last(b) then 0 else 1
  {
    assert Front(a) + [Last(a)] == a && Front(b) + [Last(b)] == b;
    q := PathBefore(p, Last(a));
    if Last(a) != Last(b) {
      EndEdits(Front(b), Last(a), Last(b));
      PathThen(q, b);
      q := q + [b];
    }
  }

  /** And there is one as short as the distance. */
  lemma {:induction false} ShortestPath<T>(a: seq<T>, b: seq<T>) returns (p: seq<seq<T>>)
    ensures Connects(p, a, b) && |p| == Distance(a, b) + 1
    decreases |a| + |b|
  {
    if a == [] && b == [] {
      return [a];
    }
    if b != [] && Distance(a, b) == Distance(a, Front(b)) + 1 {
      p := ShortestPath(a, Front(b));
      p := Longer(p, a, b);
    } else if a != [] && Distance(a, b) == Distance(Front(a), b) + 1 {
      p := ShortestPath(Front(a), b);
      p := Earlier(p, a, b);
    } else {
      p := ShortestPath(Front(a), Front(b));
      p := Beside(p, a, b);
    }
  }

  /** So the distance is the least number of single edits that lead from one text to the other. */
  lemma {:induction false} DistanceIsFewestEdits<T>(a: seq<T>, b: seq<T>)
    ensures exists p: seq<seq<T>> :: Connects(p, a, b) && |p| - 1 == Distance(a, b)
    ensures forall p: seq<seq<T>> :: Connects(p, a, b) ==> Distance(a, b) <= |p| - 1
  {
    var p := ShortestPath(a, b);
    forall q: seq<seq<T>> | Connects(q, a, b)
      ensures Distance(a, b) <= |q| - 1
    {
      PathsAreLong(q);
    }
  }

  /** Walking a path backwards. */
  lemma {:induction false} Backwards<T>(p: seq<seq<T>>) returns (q: seq<seq<T>>)
    requires Path(p)
    ensures |q| == |p| && Connects(q, Last(p), p[0])
  {
    q := seq(|p|, i requires 0 <= i < |p| => p[|p| - 1 - i]);
    forall i | 0 <= i < |q| - 1
      ensures OneEdit(q[i], q[i + 1])
    {
      EditsAreMutual(p[|p| - 2 - i], p[|p| - 2 - i + 1]);
    }
  }

  lemma {:induction false} NoFurtherBack<T>(a: seq<T>, b: seq<T>)
    ensures Distance(b, a) <= Distance(a, b)
  {
    var p := ShortestPath(a, b);
    var q := Backwards(p);
    PathsAreLong(q);
  }

  lemma {:induction false} Symmetric<T>(a: seq<T>, b: seq<T>)
    ensures Distance(a, b) == Distance(b, a)
  {
    NoFurtherBack(a, b);
    NoFurtherBack(b, a);
  }

  lemma {:induction false} Triangle<T>(a: seq<T>, b: seq<T>, c: seq<T>)
    ensures Distance(a, c) <= Distance(a, b) + Distance(b, c)
  {
    var p := ShortestPath(a, b);
    var q := ShortestPath(b, c);
    var r := p + q[1..];
    forall i | 0 <= i < |r| - 1
      ensures OneEdit(r[i], r[i + 1])
    {
      if i < |p| - 1 {
        assert OneEdit(p[i], p[i + 1]);
      } else {
        assert OneEdit(q[i - (|p| - 1)], q[i - (|p| - 1) + 1]);
      }
    }
    PathsAreLong(r);
  }

  lemma {:induction false} ZeroIsSame<T>(a: seq<T>, b: seq<T>)
    requires Distance(a, b) == 0
    ensures a == b
  {
    var p := ShortestPath(a, b);
  }

  // ---- two rows --------------------------------------------------------------------------------

  /** The row of the table for a prefix of a, filled in up to column n. */
  ghost predicate RowFor(row: seq<int>, a: seq<char>, b: seq<char>, i: nat, n: nat)
    requires i <= |a|
  {
    |row| == |b| + 1 && n <= |b| + 1 && forall j :: 0 <= j < n ==> row[j] == Distance(a[..i], b[..j])
  }

  lemma {:induction false} DistanceUnfolds(x: seq<char>, y: seq<char>)
    requires x != [] && y != []
    ensures Distance(x, y) ==
            Min(Min(Distance(x, Front(y)) + 1, Distance(Front(x), y) + 1),
                Distance(Front(x), Front(y)) + if Last(x) == Last(y) then 0 else 1)
  {
  }

  lemma {:induction false} DistanceStep(a: seq<char>, b: seq<char>, i: nat, j: nat)
    requires 1 <= i <= |a| && 1 <= j <= |b|
    ensures Distance(a[..i], b[..j]) ==
            Min(Min(Distance(a[..i], b[..j - 1]) + 1, Distance(a[..i - 1], b[..j]) + 1),
                Distance(a[..i - 1], b[..j - 1]) + if a[i - 1] == b[j - 1] then 0 else 1)
  {
    hide Distance;
    assert Front(a[..i]) == a[..i - 1] && Front(b[..j]) == b[..j - 1];
    DistanceUnfolds(a[..i], b[..j]);
  }

  /** The next entry of a row comes of the one before it and of two in the row above. */
  lemma {:induction false} NextEntry(prev: seq<int>, cur: seq<int>, a: seq<char>, b: seq<char>, i: nat, j: nat)
    requires 1 <= i <= |a| && 1 <= j <= |b|
    requires RowFor(prev, a, b, i - 1, |b| + 1) && RowFor(cur, a, b, i, j)
    ensures |prev| == |cur| == |b| + 1
    ensures var d := Min(Min(cur[j - 1] + 1, prev[j] + 1), prev[j - 1] + if a[i - 1] == b[j - 1] then 0 else 1);
            RowFor(cur[j := d], a, b, i, j + 1)
  {
    hide Distance;
    DistanceStep(a, b, i, j);
  }

  method FillRow(prev: array<int>, cur: array<int>, a: seq<char>, b: seq<char>, i: nat)
    requires 1 <= i <= |a| && prev.Length == cur.Length == |b| + 1 && prev != cur
    requires RowFor(prev[..], a, b, i - 1, |b| + 1)
    modifies cur
    ensures RowFor(cur[..], a, b, i, |b| + 1)
  {
    cur[0] := i;
    assert RowFor(cur[..], a, b, i, 1);
    hide RowFor, Distance;
    var j := 1;
    while j <= |b|
      invariant 1 <= j <= |b| + 1
      invariant RowFor(cur[..], a, b, i, j) && RowFor(prev[..], a, b, i - 1, |b| + 1)
    {
      var cost := if a[i - 1] == b[j - 1] then 0 else 1;
      ghost var row := cur[..];
      NextEntry(prev[..], row, a, b, i, j);
      cur[j] := Min(Min(cur[j - 1] + 1, prev[j] + 1), prev[j - 1] + cost);
      assert cur[..] == row[j := cur[j]];
      j := j + 1;
    }
  }

  method EditDistance(a: seq<char>, b: seq<char>) returns (d: nat)
    ensures d == Distance(a, b)
  {
    if |a| == 0 {
      return |b|;
    }
    if |b| == 0 {
      return |a|;
    }
    var prev, cur := new int[|b| + 1], new int[|b| + 1];
    for j := 0 to |b| + 1
      invariant forall k :: 0 <= k < j ==> prev[k] == k
    {
      prev[j] := j;
    }
    var i := 1;
    while i <= |a|
      invariant 1 <= i <= |a| + 1 && fresh(prev) && fresh(cur) && prev != cur
      invariant prev.Length == cur.Length == |b| + 1
      invariant RowFor(prev[..], a, b, i - 1, |b| + 1)
    {
      FillRow(prev, cur, a, b, i);
      prev, cur := cur, prev;
      i := i + 1;
    }
    assert a[..|a|] == a && b[..|b|] == b;
    assert prev[..][|b|] == prev[|b|];
    return prev[|b|];
  }

  // ---- the closest name ------------------------------------------------------------------------

  /** At most this far from the target is still a misspelling of it; `bytes` is the target's length in bytes. */
  function Limit(bytes: nat): nat { Min(bytes / 4 + 1, 3) }

  /** One edit for a target of less than four bytes, two for less than eight, and never more than three. */
  lemma {:induction false} LimitByLength(bytes: nat)
    ensures Limit(bytes) == 1 <==> bytes < 4
    ensures Limit(bytes) == 2 <==> 4 <= bytes < 8
    ensures Limit(bytes) == 3 <==> 8 <= bytes
  {
  }

  /**
    The first of the nearest candidates other than the target itself, if it is near enough; otherwise
    nothing. Case does not count towards the distance, but does for being the same name.
   */
  method ClosestName(target: string, bytes: nat, candidates: seq<string>, lower: string -> string)
    returns (best: string)
    ensures best != "" ==>
              exists k :: 0 <= k < |candidates| && candidates[k] == best && Nearest(target, candidates, lower, k)
                          && Distance(lower(target), lower(best)) <= Limit(bytes)
    ensures target != "" ==> forall k ::
              (0 <= k < |candidates| && Nearest(target, candidates, lower, k) &&
               Distance(lower(target), lower(candidates[k])) <= Limit(bytes)) ==> best == candidates[k]
    ensures target == "" ==> best == ""
  {
    if target == "" {
      return "";
    }
    var limit := Limit(bytes);
    var bestDist: nat := limit + 1;
    best := "";
    ghost var at := -1;
    for i := 0 to |candidates|
      invariant -1 <= at < i
      invariant at == -1 ==> best == "" && bestDist == limit + 1
      invariant at >= 0 ==> best == candidates[at] && best != target && bestDist <= limit &&
                            bestDist == Distance(lower(target), lower(best))
      invariant forall j :: 0 <= j < i && candidates[j] != target ==>
                  bestDist <= Distance(lower(target), lower(candidates[j]))
      invariant forall j :: 0 <= j < at && candidates[j] != target ==>
                  bestDist < Distance(lower(target), lower(candidates[j]))
    {
      if candidates[i] == target {
        continue;
      }
      var d := EditDistance(lower(target), lower(candidates[i]));
      if d < bestDist {
        bestDist, best, at := d, candidates[i], i;
      }
    }
    if bestDist > limit {
      return "";
    }
  }

  /** The k-th candidate is not the target, none such is nearer, and none before it as near. */
  ghost predicate Nearest(target: string, candidates: seq<string>, lower: string -> string, k: int)
    requires 0 <= k < |candidates|
  {
    && candidates[k] != target
    && forall j :: 0 <= j < |candidates| && candidates[j] != target ==>
         var d, e := Distance(lower(target), lower(candidates[k])), Distance(lower(target), lower(candidates[j]));
         d <= e && (j < k ==> d < e)
  }
}
