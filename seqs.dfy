/** Sequence helpers shared by the pages: `Array.prototype.filter`, the
    subsequence relation it establishes, and the "first few, then +N"
    display cap used for images, tags and calendar tiles. */
module Seqs {

  /** `s.filter(p)`: the elements of `s` satisfying `p`, in their order. */
  function Filter<T>(s: seq<T>, p: T -> bool): (r: seq<T>)
    ensures |r| <= |s|
    ensures forall k :: 0 <= k < |r| ==> p(r[k])
  {
    if s == [] then []
    else Filter(s[..|s| - 1], p) + (if p(s[|s| - 1]) then [s[|s| - 1]] else [])
  }

  /** `idx` maps each position of `r` to a position of `s` holding the same
      element, strictly increasingly. */
  ghost predicate IsEmbedding<T>(idx: seq<nat>, r: seq<T>, s: seq<T>) {
    && |idx| == |r|
    && (forall i, j :: 0 <= i < j < |idx| ==> idx[i] < idx[j])
    && (forall i :: 0 <= i < |idx| ==> idx[i] < |s| && r[i] == s[idx[i]])
  }

  /** `r` is obtained from `s` by deleting elements, keeping the order of
      the rest. */
  ghost predicate IsSubsequence<T>(r: seq<T>, s: seq<T>) {
    exists idx: seq<nat> :: IsEmbedding(idx, r, s)
  }

  lemma {:induction false} FilterAppend<T>(a: seq<T>, b: seq<T>, p: T -> bool)
    ensures Filter(a + b, p) == Filter(a, p) + Filter(b, p)
    decreases |b|
  {
    if b == [] {
      assert a + b == a;
    } else {
      var c := a + b;
      var b' := b[..|b| - 1];
      var x := b[|b| - 1];
      var tail := if p(x) then [x] else [];
      assert c[..|c| - 1] == a + b';
      assert c[|c| - 1] == x;
      FilterAppend(a, b', p);
      calc {
        Filter(c, p);
        Filter(a + b', p) + tail;
        (Filter(a, p) + Filter(b', p)) + tail;
        Filter(a, p) + (Filter(b', p) + tail);
        Filter(a, p) + Filter(b, p);
      }
    }
  }

  /** Filtering keeps every element satisfying `p` as often as it occurs
      in `s`, and no other element. */
  lemma {:induction false} FilterMultiset<T>(s: seq<T>, p: T -> bool)
    ensures forall x :: multiset(Filter(s, p))[x] == if p(x) then multiset(s)[x] else 0
    ensures forall x :: x in Filter(s, p) <==> x in s && p(x)
  {
    if s != [] {
      var s' := s[..|s| - 1];
      FilterMultiset(s', p);
      assert s == s' + [s[|s| - 1]];
    }
  }

  /** Filtering a sequence extended by one element. */
  lemma FilterSnoc<T>(s: seq<T>, x: T, p: T -> bool)
    ensures Filter(s + [x], p) == Filter(s, p) + (if p(x) then [x] else [])
  {
    assert (s + [x])[..|s|] == s;
  }

  lemma {:induction false} FilterSubsequence<T>(s: seq<T>, p: T -> bool)
    ensures IsSubsequence(Filter(s, p), s)
  {
    if s == [] {
      assert IsEmbedding([], Filter(s, p), s);
    } else {
      var s' := s[..|s| - 1];
      var x := s[|s| - 1];
      assert s == s' + [x];
      FilterSnoc(s', x, p);
      FilterSubsequence(s', p);
      var f := Filter(s', p);
      var idx: seq<nat> :| IsEmbedding(idx, f, s');
      forall i | 0 <= i < |idx| ensures idx[i] < |s'| && s[idx[i]] == f[i] {
        assert s[idx[i]] == s'[idx[i]];
      }
      if p(x) {
        var idx' := idx + [|s'|];
        var f' := f + [x];
        assert Filter(s, p) == f';
        forall i | 0 <= i < |idx'| ensures idx'[i] < |s| && f'[i] == s[idx'[i]] {
          if i < |idx| {
            assert idx'[i] == idx[i] && f'[i] == f[i];
          }
        }
        forall i, j | 0 <= i < j < |idx'| ensures idx'[i] < idx'[j] {
          if j < |idx| {
            assert idx'[i] == idx[i] && idx'[j] == idx[j];
          } else {
            assert idx'[i] == idx[i];
          }
        }
        assert IsEmbedding(idx', Filter(s, p), s);
      } else {
        assert Filter(s, p) == f;
        assert IsEmbedding(idx, Filter(s, p), s);
      }
    }
  }

  /** The filter is empty exactly when no element satisfies `p`. */
  lemma {:induction false} FilterEmptyIff<T>(s: seq<T>, p: T -> bool)
    ensures Filter(s, p) == [] <==> forall i :: 0 <= i < |s| ==> !p(s[i])
  {
    if s != [] {
      var s' := s[..|s| - 1];
      FilterEmptyIff(s', p);
      if Filter(s, p) == [] {
        assert Filter(s', p) == [] && !p(s[|s| - 1]);
        forall i | 0 <= i < |s| ensures !p(s[i]) {
          if i < |s'| { assert s[i] == s'[i]; }
        }
      }
    }
  }

  /** When exactly one element satisfies `p`, the filter is that element. */
  lemma {:induction false} FilterExactlyOne<T>(s: seq<T>, p: T -> bool, i: nat)
    requires i < |s| && p(s[i])
    requires forall j :: 0 <= j < |s| && j != i ==> !p(s[j])
    ensures Filter(s, p) == [s[i]]
  {
    var s' := s[..|s| - 1];
    if i == |s| - 1 {
      FilterEmptyIff(s', p);
    } else {
      FilterExactlyOne(s', p, i);
    }
  }

  /** Two distinct elements satisfying `p` leave at least two in the filter. */
  lemma FilterAtLeastTwo<T>(s: seq<T>, p: T -> bool, i: nat, j: nat)
    requires i < j < |s| && p(s[i]) && p(s[j])
    ensures |Filter(s, p)| >= 2
  {
    assert s == s[..j] + s[j..];
    FilterAppend(s[..j], s[j..], p);
    FilterEmptyIff(s[..j], p);
    FilterEmptyIff(s[j..], p);
    assert s[j..][0] == s[j];
  }

  /** Filtering a sequence whose every element satisfies `p` changes nothing. */
  lemma {:induction false} FilterAll<T>(s: seq<T>, p: T -> bool)
    requires forall k :: 0 <= k < |s| ==> p(s[k])
    ensures Filter(s, p) == s
  {
    if s != [] {
      var s' := s[..|s| - 1];
      FilterAll(s', p);
      assert s == s' + [s[|s| - 1]];
    }
  }

  /** What a capped list shows: the first items, and how many more there are
      (rendered as "+N" when N > 0). */
  datatype Preview<T> = Preview(shown: seq<T>, more: nat)

  /** `s.slice(0, limit)` with the `s.length - limit` overflow count shown
      only when `s.length > limit`. */
  function PreviewOf<T>(s: seq<T>, limit: nat): (p: Preview<T>)
    ensures |p.shown| == (if |s| < limit then |s| else limit)
    ensures p.shown == s[..|p.shown|]
    ensures |p.shown| + p.more == |s|
    ensures p.more > 0 <==> |s| > limit
  {
    if |s| > limit then Preview(s[..limit], |s| - limit) else Preview(s, 0)
  }
}
