/** `Array.prototype.sort` with a comparator of the form
    `(a, b) => key(b) - key(a)`, as both the entry list (favourite flag) and
    the analytics page (mood count) use it. Since the 2019 edition of
    ECMA-262 the sort must be stable, so the result is the sequence ordered
    by non-increasing key in which elements of equal key keep their input
    order. `SortDesc` defines that result as a stable insertion sort;
    `SortInPlace` computes it on an array. */
module StableSort {
  import opened Seqs

  /** Places `x` after the last element of `t` whose key is at least
      `key(x)`: the step of a stable insertion sort. */
  function Insert<T>(x: T, t: seq<T>, key: T -> int): (r: seq<T>)
    ensures |r| == |t| + 1
  {
    if t == [] then [x]
    else if key(t[|t| - 1]) >= key(x) then t + [x]
    else Insert(x, t[..|t| - 1], key) + [t[|t| - 1]]
  }

  /** The result of sorting `s` stably by descending `key`. */
  function SortDesc<T>(s: seq<T>, key: T -> int): (r: seq<T>)
    ensures |r| == |s|
  {
    if s == [] then [] else Insert(s[|s| - 1], SortDesc(s[..|s| - 1], key), key)
  }

  /** No element is followed by one of larger key; this is what "the
      comparator never returns a positive value for an earlier element
      against a later one" means for `key(b) - key(a)`. */
  ghost predicate NonIncreasing<T>(s: seq<T>, key: T -> int) {
    forall i, j :: 0 <= i < j < |s| ==> key(s[i]) >= key(s[j])
  }

  /** The elements of key `v`, as a filter predicate. */
  function HasKey<T>(key: T -> int, v: int): T -> bool {
    x => key(x) == v
  }

  lemma {:induction false} InsertMultiset<T>(x: T, t: seq<T>, key: T -> int)
    ensures multiset(Insert(x, t, key)) == multiset(t) + multiset{x}
  {
    if t != [] && key(t[|t| - 1]) < key(x) {
      var t' := t[..|t| - 1];
      var y := t[|t| - 1];
      InsertMultiset(x, t', key);
      assert t == t' + [y];
      calc {
        multiset(Insert(x, t, key));
        multiset(Insert(x, t', key) + [y]);
        multiset(t') + multiset{x} + multiset{y};
        multiset(t' + [y]) + multiset{x};
      }
    }
  }

  /** A lower bound on the keys of `t` and of `x` bounds the keys of the
      insertion. */
  lemma {:induction false} InsertLowerBound<T>(x: T, t: seq<T>, key: T -> int, c: int)
    requires key(x) >= c
    requires forall k :: 0 <= k < |t| ==> key(t[k]) >= c
    ensures forall k :: 0 <= k < |t| + 1 ==> key(Insert(x, t, key)[k]) >= c
  {
    if t != [] && key(t[|t| - 1]) < key(x) {
      var t' := t[..|t| - 1];
      InsertLowerBound(x, t', key, c);
      var u := Insert(x, t', key);
      var r := u + [t[|t| - 1]];
      forall k | 0 <= k < |r| ensures key(r[k]) >= c {
        if k < |u| {
          assert r[k] == u[k];
        }
      }
    }
  }

  lemma {:induction false} InsertSorted<T>(x: T, t: seq<T>, key: T -> int)
    requires NonIncreasing(t, key)
    ensures NonIncreasing(Insert(x, t, key), key)
  {
    if t != [] && key(t[|t| - 1]) < key(x) {
      var t' := t[..|t| - 1];
      var y := t[|t| - 1];
      assert NonIncreasing(t', key) by {
        forall i, j | 0 <= i < j < |t'| ensures key(t'[i]) >= key(t'[j]) {
          assert t'[i] == t[i] && t'[j] == t[j];
        }
      }
      InsertSorted(x, t', key);
      forall k | 0 <= k < |t'| ensures key(t'[k]) >= key(y) {
        assert t'[k] == t[k];
      }
      InsertLowerBound(x, t', key, key(y));
      var u := Insert(x, t', key);
      var r := u + [y];
      forall i, j | 0 <= i < j < |r| ensures key(r[i]) >= key(r[j]) {
        assert r[i] == u[i];
        if j < |u| {
          assert r[j] == u[j];
        }
      }
    }
  }

  /** Inserting an element never moves the elements of any key relative to
      each other, and the new element comes after those of its own key. */
  lemma {:induction false} InsertStable<T>(x: T, t: seq<T>, key: T -> int, v: int)
    ensures Filter(Insert(x, t, key), HasKey(key, v))
         == Filter(t, HasKey(key, v)) + (if key(x) == v then [x] else [])
  {
    var p := HasKey(key, v);
    if t == [] {
      FilterSnoc([], x, p);
      assert [] + [x] == [x];
    } else if key(t[|t| - 1]) >= key(x) {
      FilterSnoc(t, x, p);
    } else {
      var t' := t[..|t| - 1];
      var y := t[|t| - 1];
      InsertStable(x, t', key, v);
      assert t == t' + [y];
      FilterSnoc(t', y, p);
      FilterSnoc(Insert(x, t', key), y, p);
    }
  }

  /** The sort is a permutation of its input. */
  lemma {:induction false} SortDescPermutation<T>(s: seq<T>, key: T -> int)
    ensures multiset(SortDesc(s, key)) == multiset(s)
  {
    if s != [] {
      var s' := s[..|s| - 1];
      var x := s[|s| - 1];
      SortDescPermutation(s', key);
      InsertMultiset(x, SortDesc(s', key), key);
      assert s == s' + [x];
      calc {
        multiset(SortDesc(s, key));
        multiset(Insert(x, SortDesc(s', key), key));
        multiset(SortDesc(s', key)) + multiset{x};
        multiset(s') + multiset{x};
        multiset(s' + [x]);
      }
    }
  }

  /** The sort orders by non-increasing key. */
  lemma {:induction false} SortDescSorted<T>(s: seq<T>, key: T -> int)
    ensures NonIncreasing(SortDesc(s, key), key)
  {
    if s != [] {
      SortDescSorted(s[..|s| - 1], key);
      InsertSorted(s[|s| - 1], SortDesc(s[..|s| - 1], key), key);
    }
  }

  /** The sort is stable: for every key, the elements with that key appear
      in the result in the order they had in the input. */
  lemma {:induction false} SortDescStable<T>(s: seq<T>, key: T -> int, v: int)
    ensures Filter(SortDesc(s, key), HasKey(key, v)) == Filter(s, HasKey(key, v))
  {
    if s != [] {
      var s' := s[..|s| - 1];
      SortDescStable(s', key, v);
      InsertStable(s[|s| - 1], SortDesc(s', key), key, v);
    }
  }

  /** Inserting past elements that all have a smaller key than `x`. */
  lemma {:induction false} InsertPastSmaller<T>(x: T, a: seq<T>, b: seq<T>, key: T -> int)
    requires forall k :: 0 <= k < |b| ==> key(b[k]) < key(x)
    ensures Insert(x, a + b, key) == Insert(x, a, key) + b
    decreases |b|
  {
    if b == [] {
      assert a + b == a;
    } else {
      var b' := b[..|b| - 1];
      var c := a + b;
      assert c[..|c| - 1] == a + b';
      assert c[|c| - 1] == b[|b| - 1];
      InsertPastSmaller(x, a, b', key);
      assert b == b' + [b[|b| - 1]];
    }
  }

  /** `i` is the position of the first element of maximal key. */
  ghost predicate IsFirstMax<T>(s: seq<T>, i: nat, key: T -> int) {
    && i < |s|
    && (forall j :: 0 <= j < |s| ==> key(s[j]) <= key(s[i]))
    && (forall j :: 0 <= j < i ==> key(s[j]) < key(s[i]))
  }

  /** The position of the first element of maximal key, found by a scan
      that replaces the candidate only on a strictly larger key. */
  function FirstMaxIndex<T>(s: seq<T>, key: T -> int): (i: nat)
    requires |s| > 0
    ensures IsFirstMax(s, i, key)
  {
    if |s| == 1 then 0
    else
      var m := FirstMaxIndex(s[..|s| - 1], key);
      if key(s[|s| - 1]) > key(s[m]) then |s| - 1 else m
  }

  lemma {:induction false} InsertHead<T>(x: T, t: seq<T>, key: T -> int)
    requires t != [] && NonIncreasing(t, key)
    ensures Insert(x, t, key)[0] == if key(t[0]) >= key(x) then t[0] else x
  {
    var t' := t[..|t| - 1];
    if key(t[|t| - 1]) < key(x) && t' != [] {
      InsertHead(x, t', key);
    }
  }

  /** The first element of the sorted sequence is the first element of
      maximal key in the input: ties go to the earliest. */
  lemma {:induction false} SortDescHead<T>(s: seq<T>, key: T -> int)
    requires |s| > 0
    ensures SortDesc(s, key)[0] == s[FirstMaxIndex(s, key)]
  {
    var s' := s[..|s| - 1];
    var x := s[|s| - 1];
    if s' != [] {
      SortDescHead(s', key);
      SortDescSorted(s', key);
      InsertHead(x, SortDesc(s', key), key);
    }
  }

  /** Sorts `a` in place, stably by descending `key`: an insertion sort
      that shifts the sorted prefix right past every element of smaller
      key. */
  method SortInPlace<T>(a: array<T>, key: T -> int)
    modifies a
    ensures a[..] == SortDesc(old(a[..]), key)
  {
    ghost var s := a[..];
    var i := 0;
    while i < a.Length
      invariant 0 <= i <= a.Length
      invariant a[..i] == SortDesc(s[..i], key)
      invariant forall k :: i <= k < a.Length ==> a[k] == s[k]
    {
      assert s[..i + 1][..i] == s[..i];
      assert SortDesc(s[..i + 1], key) == Insert(s[i], SortDesc(s[..i], key), key);
      InsertAt(a, i, key);
      i := i + 1;
    }
    assert a[..] == a[..a.Length];
    assert s == s[..a.Length];
  }

  lemma InsertShiftStep<T>(x: T, t: seq<T>, j: nat, key: T -> int)
    requires 0 < j <= |t| && key(t[j - 1]) < key(x)
    ensures Insert(x, t[..j], key) + t[j..] == Insert(x, t[..j - 1], key) + t[j - 1..]
  {
    assert t[..j][..j - 1] == t[..j - 1];
    assert t[j - 1..] == [t[j - 1]] + t[j..];
  }

  lemma InsertStops<T>(x: T, t: seq<T>, j: nat, key: T -> int)
    requires j <= |t| && (j == 0 || key(t[j - 1]) >= key(x))
    ensures Insert(x, t[..j], key) == t[..j] + [x]
  {
  }

  /** One pass of the insertion sort: moves `a[i]` into the sorted prefix
      `a[..i]`. */
  method InsertAt<T>(a: array<T>, i: nat, key: T -> int)
    requires i < a.Length
    modifies a
    ensures a[..i + 1] == Insert(old(a[i]), old(a[..i]), key)
    ensures forall k :: i < k < a.Length ==> a[k] == old(a[k])
  {
    var x := a[i];
    ghost var t := a[..i];
    var j := ShiftRight(a, i, key);
    a[j] := x;
    ghost var r := t[..j] + [x] + t[j..];
    forall k | 0 <= k <= i ensures a[k] == r[k] {
      if k < j {
        assert r[k] == t[k];
      } else if k == j {
        assert r[k] == x;
      } else {
        assert r[k] == t[k - 1];
      }
    }
    assert a[..i + 1] == r;
  }

  /** Shifts right, by one place, the trailing elements of `a[..i]` whose key
      is smaller than that of `a[i]`, and returns the gap left for `a[i]`. */
  method ShiftRight<T>(a: array<T>, i: nat, key: T -> int) returns (j: nat)
    requires i < a.Length
    modifies a
    ensures j <= i
    ensures forall k :: 0 <= k < j ==> a[k] == old(a[k])
    ensures forall k :: j < k <= i ==> a[k] == old(a[k - 1])
    ensures forall k :: i < k < a.Length ==> a[k] == old(a[k])
    ensures Insert(old(a[i]), old(a[..i]), key) == old(a[..i])[..j] + [old(a[i])] + old(a[..i])[j..]
  {
    var x := a[i];
    ghost var t := a[..i];
    j := i;
    assert t[..j] == t && t[j..] == [];
    while j > 0 && key(a[j - 1]) < key(x)
      invariant 0 <= j <= i
      invariant forall k :: 0 <= k < j ==> a[k] == t[k]
      invariant forall k :: j < k <= i ==> a[k] == t[k - 1]
      invariant forall k :: i < k < a.Length ==> a[k] == old(a[k])
      invariant Insert(x, t, key) == Insert(x, t[..j], key) + t[j..]
    {
      InsertShiftStep(x, t, j, key);
      assert a[j - 1] == t[j - 1];
      a[j] := a[j - 1];
      assert forall k :: j <= k <= i ==> a[k] == t[k - 1];
      j := j - 1;
    }
    InsertStops(x, t, j, key);
  }
}
