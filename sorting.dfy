/** A stable sort under a three-way comparator, as `list.sort(key=cmp_to_key(cmp))`
    performs it: its specification as an insertion sort, and the laws it obeys
    for every comparator that is a total preorder. */
module Sorting {

  /** `cmp` is consistent: swapping its arguments negates it, and "not after"
      (`cmp(a, b) <= 0`) is transitive. */
  ghost predicate IsTotalPreorder<T(!new)>(cmp: (T, T) -> int) {
    && (forall a, b :: cmp(a, b) == -cmp(b, a))
    && (forall a, b, c :: cmp(a, b) <= 0 && cmp(b, c) <= 0 ==> cmp(a, c) <= 0)
  }

  /** Strict steps stay strict along a chain. */
  lemma StrictTransitive<T(!new)>(cmp: (T, T) -> int, a: T, b: T, c: T)
    requires IsTotalPreorder(cmp)
    requires cmp(a, b) <= 0 && cmp(b, c) <= 0
    requires cmp(a, b) < 0 || cmp(b, c) < 0
    ensures cmp(a, c) < 0
  {
  }

  /** No element is followed by one that sorts before it. */
  predicate Sorted<T>(s: seq<T>, cmp: (T, T) -> int) {
    forall i, j :: 0 <= i < j < |s| ==> cmp(s[i], s[j]) <= 0
  }

  /** Places `x` in front of the first element that sorts strictly after it,
      so that it lands behind every element it is level with. */
  function Insert<T>(x: T, s: seq<T>, cmp: (T, T) -> int): seq<T> {
    if s == [] then [x]
    else if cmp(x, s[0]) < 0 then [x] + s
    else [s[0]] + Insert(x, s[1..], cmp)
  }

  /** The sorted order of `s`: each element in turn, left to right, inserted
      into the sorted order of the elements before it. */
  function SortBy<T>(s: seq<T>, cmp: (T, T) -> int): seq<T> {
    if s == [] then [] else Insert(s[|s| - 1], SortBy(s[..|s| - 1], cmp), cmp)
  }

  /** The elements of `s` level with `f`, in their order in `s`. */
  function LevelWith<T>(s: seq<T>, f: T, cmp: (T, T) -> int): seq<T> {
    if s == [] then []
    else LevelWith(s[..|s| - 1], f, cmp) + (if cmp(s[|s| - 1], f) == 0 then [s[|s| - 1]] else [])
  }

  // ---------------------------------------------------------------------
  // Insert

  lemma {:induction false} InsertPermutes<T>(x: T, s: seq<T>, cmp: (T, T) -> int)
    ensures multiset(Insert(x, s, cmp)) == multiset(s) + multiset{x}
  {
    if s != [] && cmp(x, s[0]) >= 0 {
      InsertPermutes(x, s[1..], cmp);
      assert s == [s[0]] + s[1..];
    }
  }

  lemma {:induction false} InsertKeepsSorted<T(!new)>(x: T, s: seq<T>, cmp: (T, T) -> int)
    requires IsTotalPreorder(cmp)
    requires Sorted(s, cmp)
    ensures Sorted(Insert(x, s, cmp), cmp)
  {
    if s == [] {
    } else if cmp(x, s[0]) < 0 {
      assert forall k :: 0 <= k < |s| ==> cmp(x, s[k]) <= 0;
    } else {
      InsertKeepsSorted(x, s[1..], cmp);
      var t := Insert(x, s[1..], cmp);
      InsertPermutes(x, s[1..], cmp);
      forall k | 0 <= k < |t| ensures cmp(s[0], t[k]) <= 0 {
        assert t[k] in multiset(t);
        if t[k] != x {
          assert t[k] in multiset(s[1..]);
          var m :| 0 <= m < |s[1..]| && s[1..][m] == t[k];
          assert s[m + 1] == t[k];
        }
      }
    }
  }

  /** Inserting is splicing in at the first element that sorts strictly after
      `x` (or at the end). */
  lemma {:induction false} InsertAt<T>(x: T, s: seq<T>, cmp: (T, T) -> int, j: nat)
    requires j <= |s|
    requires forall k :: 0 <= k < j ==> cmp(x, s[k]) >= 0
    requires j == |s| || cmp(x, s[j]) < 0
    ensures Insert(x, s, cmp) == s[..j] + [x] + s[j..]
  {
    if j > 0 {
      InsertAt(x, s[1..], cmp, j - 1);
      assert s[..j] == [s[0]] + s[1..][..j - 1];
      assert s[j..] == s[1..][j - 1..];
    } else if s != [] {
      assert s[j..] == s;
    }
  }

  /** The position `Insert` splices `x` in at. */
  lemma FirstAfter<T>(x: T, s: seq<T>, cmp: (T, T) -> int) returns (j: nat)
    ensures j <= |s|
    ensures forall k :: 0 <= k < j ==> cmp(x, s[k]) >= 0
    ensures j == |s| || cmp(x, s[j]) < 0
  {
    j := 0;
    while j < |s| && cmp(x, s[j]) >= 0
      invariant j <= |s|
      invariant forall k :: 0 <= k < j ==> cmp(x, s[k]) >= 0
    {
      j := j + 1;
    }
  }

  /** When `x` sorts after or level with everything in `s`, it goes last. */
  lemma InsertLast<T(!new)>(x: T, s: seq<T>, cmp: (T, T) -> int)
    requires IsTotalPreorder(cmp)
    requires forall k :: 0 <= k < |s| ==> cmp(s[k], x) <= 0
    ensures Insert(x, s, cmp) == s + [x]
  {
    assert forall k :: 0 <= k < |s| ==> cmp(x, s[k]) >= 0;
    InsertAt(x, s, cmp, |s|);
    assert s[..|s|] == s;
  }

  lemma {:induction false} LevelWithAppend<T>(a: seq<T>, b: seq<T>, f: T, cmp: (T, T) -> int)
    ensures LevelWith(a + b, f, cmp) == LevelWith(a, f, cmp) + LevelWith(b, f, cmp)
  {
    if b == [] {
      assert a + b == a;
    } else {
      assert (a + b)[..|a + b| - 1] == a + b[..|b| - 1];
      LevelWithAppend(a, b[..|b| - 1], f, cmp);
    }
  }

  lemma {:induction false} LevelWithNone<T>(s: seq<T>, f: T, cmp: (T, T) -> int)
    requires forall k :: 0 <= k < |s| ==> cmp(s[k], f) != 0
    ensures LevelWith(s, f, cmp) == []
  {
    if s != [] {
      LevelWithNone(s[..|s| - 1], f, cmp);
    }
  }

  /** In a sorted `s`, nothing from the first element strictly after `x`
      onwards is level with what `x` is level with. */
  lemma AfterNotLevel<T(!new)>(x: T, s: seq<T>, cmp: (T, T) -> int, j: nat, f: T)
    requires IsTotalPreorder(cmp)
    requires Sorted(s, cmp) && j <= |s|
    requires j == |s| || cmp(x, s[j]) < 0
    requires cmp(x, f) == 0
    ensures forall k :: 0 <= k < |s[j..]| ==> cmp(s[j..][k], f) != 0
  {
    forall k | j <= k < |s| ensures cmp(s[k], f) != 0 {
      StrictTransitive(cmp, x, s[j], s[k]);
    }
  }

  /** Inserting `x` appends it to its own level and leaves every other level alone. */
  lemma InsertLevelWith<T(!new)>(x: T, s: seq<T>, cmp: (T, T) -> int, f: T)
    requires IsTotalPreorder(cmp)
    requires Sorted(s, cmp)
    ensures LevelWith(Insert(x, s, cmp), f, cmp) == LevelWith(s, f, cmp) + (if cmp(x, f) == 0 then [x] else [])
  {
    var j := FirstAfter(x, s, cmp);
    InsertAt(x, s, cmp, j);
    if cmp(x, f) == 0 {
      AfterNotLevel(x, s, cmp, j, f);
    }
    SpliceLevelWith(x, s, cmp, j, f);
  }

  /** Splicing `x` in at `j` adds it at the end of its level, provided nothing
      behind position `j` is level with `x`'s level. */
  lemma SpliceLevelWith<T>(x: T, s: seq<T>, cmp: (T, T) -> int, j: nat, f: T)
    requires j <= |s|
    requires cmp(x, f) == 0 ==> forall k :: 0 <= k < |s[j..]| ==> cmp(s[j..][k], f) != 0
    ensures LevelWith(s[..j] + [x] + s[j..], f, cmp) == LevelWith(s, f, cmp) + (if cmp(x, f) == 0 then [x] else [])
  {
    var a, b := s[..j], s[j..];
    assert s == a + b;
    assert (a + [x])[..|a + [x]| - 1] == a;
    assert LevelWith(a + [x], f, cmp) == LevelWith(a, f, cmp) + (if cmp(x, f) == 0 then [x] else []);
    LevelWithAppend(a + [x], b, f, cmp);
    LevelWithAppend(a, b, f, cmp);
    if cmp(x, f) == 0 {
      LevelWithNone(b, f, cmp);
    }
  }

  // ---------------------------------------------------------------------
  // SortBy

  /** Sorting a sequence that grows by one element inserts that element. */
  lemma SortSnoc<T>(s: seq<T>, x: T, cmp: (T, T) -> int)
    ensures SortBy(s + [x], cmp) == Insert(x, SortBy(s, cmp), cmp)
  {
    assert (s + [x])[..|s|] == s;
  }

  /** Sorting only reorders: the result is a permutation of the input. */
  lemma {:induction false} SortPermutes<T>(s: seq<T>, cmp: (T, T) -> int)
    ensures multiset(SortBy(s, cmp)) == multiset(s)
  {
    if s != [] {
      var p := s[..|s| - 1];
      SortPermutes(p, cmp);
      InsertPermutes(s[|s| - 1], SortBy(p, cmp), cmp);
      assert s == p + [s[|s| - 1]];
    }
  }

  lemma {:induction false} SortIsSorted<T(!new)>(s: seq<T>, cmp: (T, T) -> int)
    requires IsTotalPreorder(cmp)
    ensures Sorted(SortBy(s, cmp), cmp)
  {
    if s != [] {
      SortIsSorted(s[..|s| - 1], cmp);
      InsertKeepsSorted(s[|s| - 1], SortBy(s[..|s| - 1], cmp), cmp);
    }
  }

  /** The sort is stable: elements level with one another keep their relative order. */
  lemma {:induction false} SortIsStable<T(!new)>(s: seq<T>, cmp: (T, T) -> int, f: T)
    requires IsTotalPreorder(cmp)
    ensures LevelWith(SortBy(s, cmp), f, cmp) == LevelWith(s, f, cmp)
  {
    if s != [] {
      var p := s[..|s| - 1];
      SortIsStable(p, cmp, f);
      SortIsSorted(p, cmp);
      InsertLevelWith(s[|s| - 1], SortBy(p, cmp), cmp, f);
    }
  }

  /** An already sorted sequence is left exactly as it is. */
  lemma {:induction false} SortedUnchanged<T(!new)>(s: seq<T>, cmp: (T, T) -> int)
    requires IsTotalPreorder(cmp)
    requires Sorted(s, cmp)
    ensures SortBy(s, cmp) == s
  {
    if s != [] {
      var n := |s| - 1;
      var p, x := s[..n], s[n];
      assert Sorted(p, cmp) by {
        forall i, j | 0 <= i < j < |p| ensures cmp(p[i], p[j]) <= 0 {
          assert p[i] == s[i] && p[j] == s[j];
        }
      }
      SortedUnchanged(p, cmp);
      forall k | 0 <= k < |p| ensures cmp(p[k], x) <= 0 {
        assert p[k] == s[k];
      }
      InsertLast(x, p, cmp);
      assert s == p + [x];
    }
  }

  /** Sorting twice gives the same sequence as sorting once. */
  lemma SortIdempotent<T(!new)>(s: seq<T>, cmp: (T, T) -> int)
    requires IsTotalPreorder(cmp)
    ensures SortBy(SortBy(s, cmp), cmp) == SortBy(s, cmp)
  {
    SortIsSorted(s, cmp);
    SortedUnchanged(SortBy(s, cmp), cmp);
  }

  /** Any sorted rearrangement of `s` that keeps every level in its original
      order is `SortBy(s, cmp)`: every stable sort produces this sequence. */
  lemma StableSortUnique<T(!new)>(s: seq<T>, t: seq<T>, cmp: (T, T) -> int)
    requires IsTotalPreorder(cmp)
    requires Sorted(t, cmp)
    requires forall f :: LevelWith(t, f, cmp) == LevelWith(s, f, cmp)
    ensures t == SortBy(s, cmp)
  {
    SortIsSorted(s, cmp);
    forall f ensures LevelWith(t, f, cmp) == LevelWith(SortBy(s, cmp), f, cmp) {
      SortIsStable(s, cmp, f);
    }
    SortedLevelsDetermine(t, SortBy(s, cmp), cmp);
  }

  /** Two sorted sequences that agree on every level are the same sequence. */
  lemma {:induction false} SortedLevelsDetermine<T(!new)>(a: seq<T>, b: seq<T>, cmp: (T, T) -> int)
    requires IsTotalPreorder(cmp)
    requires Sorted(a, cmp) && Sorted(b, cmp)
    requires forall f :: LevelWith(a, f, cmp) == LevelWith(b, f, cmp)
    ensures a == b
    decreases |a| + |b|
  {
    if a == [] && b == [] {
    } else if a == [] {
      LevelWithLast(b, cmp);
      assert false;
    } else if b == [] {
      LevelWithLast(a, cmp);
      assert false;
    } else {
      SameLast(a, b, cmp);
      var a', b', x := a[..|a| - 1], b[..|b| - 1], a[|a| - 1];
      assert a == a' + [x] && b == b' + [x];
      DropLastLevels(a', b', x, cmp);
      assert Sorted(a', cmp) && Sorted(b', cmp);
      SortedLevelsDetermine(a', b', cmp);
    }
  }

  /** Two non-empty sorted sequences that agree on every level end in the same
      element: otherwise the level of the later-sorting last element would be
      missing from the other sequence. */
  lemma SameLast<T(!new)>(a: seq<T>, b: seq<T>, cmp: (T, T) -> int)
    requires IsTotalPreorder(cmp)
    requires Sorted(a, cmp) && Sorted(b, cmp) && a != [] && b != []
    requires forall f :: LevelWith(a, f, cmp) == LevelWith(b, f, cmp)
    ensures a[|a| - 1] == b[|b| - 1]
  {
    var x, y := a[|a| - 1], b[|b| - 1];
    LastsLevel(a, b, cmp);
    LevelWithLast(a, cmp);
    var la, lb := LevelWith(a[..|a| - 1], x, cmp), LevelWith(b[..|b| - 1], x, cmp);
    assert LevelWith(b, x, cmp) == lb + [y];
    assert la + [x] == lb + [y];
    assert (la + [x])[|la|] == x && (lb + [y])[|lb|] == y;
  }

  /** The last elements of two non-empty sorted sequences that agree on every
      level compare level with each other. */
  lemma LastsLevel<T(!new)>(a: seq<T>, b: seq<T>, cmp: (T, T) -> int)
    requires IsTotalPreorder(cmp)
    requires Sorted(a, cmp) && Sorted(b, cmp) && a != [] && b != []
    requires forall f :: LevelWith(a, f, cmp) == LevelWith(b, f, cmp)
    ensures cmp(a[|a| - 1], b[|b| - 1]) == 0
  {
    var x, y := a[|a| - 1], b[|b| - 1];
    if cmp(x, y) < 0 {
      LevelWithLast(b, cmp);
      LastIsMaximal(a, y, cmp);
      assert false;
    } else if cmp(x, y) > 0 {
      LevelWithLast(a, cmp);
      LastIsMaximal(b, x, cmp);
      assert false;
    }
  }

  /** Removing the same last element from two sequences that agree on every
      level leaves two sequences that still agree on every level. */
  lemma DropLastLevels<T>(a': seq<T>, b': seq<T>, x: T, cmp: (T, T) -> int)
    requires forall f :: LevelWith(a' + [x], f, cmp) == LevelWith(b' + [x], f, cmp)
    ensures forall f :: LevelWith(a', f, cmp) == LevelWith(b', f, cmp)
  {
    forall f ensures LevelWith(a', f, cmp) == LevelWith(b', f, cmp) {
      var la, lb := LevelWith(a', f, cmp), LevelWith(b', f, cmp);
      var tail := if cmp(x, f) == 0 then [x] else [];
      assert (a' + [x])[..|a'|] == a' && (b' + [x])[..|b'|] == b';
      assert LevelWith(a' + [x], f, cmp) == la + tail;
      assert LevelWith(b' + [x], f, cmp) == lb + tail;
      assert la == (la + tail)[..|la|];
      assert lb == (lb + tail)[..|lb|];
    }
  }

  /** The last element of `s` ends its own level. */
  lemma LevelWithLast<T(!new)>(s: seq<T>, cmp: (T, T) -> int)
    requires IsTotalPreorder(cmp)
    requires s != []
    ensures LevelWith(s, s[|s| - 1], cmp) == LevelWith(s[..|s| - 1], s[|s| - 1], cmp) + [s[|s| - 1]]
  {
    assert cmp(s[|s| - 1], s[|s| - 1]) == -cmp(s[|s| - 1], s[|s| - 1]);
  }

  /** In a sorted `a` whose last element sorts strictly before `y`, nothing is level with `y`. */
  lemma LastIsMaximal<T(!new)>(a: seq<T>, y: T, cmp: (T, T) -> int)
    requires IsTotalPreorder(cmp)
    requires Sorted(a, cmp) && a != []
    requires cmp(a[|a| - 1], y) < 0
    ensures LevelWith(a, y, cmp) == []
  {
    forall k | 0 <= k < |a| ensures cmp(a[k], y) != 0 {
      if k < |a| - 1 {
        StrictTransitive(cmp, a[k], a[|a| - 1], y);
      }
    }
    LevelWithNone(a, y, cmp);
  }
}
