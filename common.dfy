/** Sequence operations shared by the server's table queries and the client's
    list handling: JavaScript's `filter`, `filter(...).length` and `includes`,
    SQL's WHERE, inner JOIN and ORDER BY ... DESC. */
module Lists {

  datatype Option<+T> = None | Some(value: T)

  /** The elements of `s` that satisfy `p`, in their original order. */
  function Filter<T(==)>(s: seq<T>, p: T -> bool): (r: seq<T>)
    ensures |r| <= |s|
    ensures forall i :: 0 <= i < |r| ==> r[i] in s && p(r[i])
    ensures forall i :: 0 <= i < |s| && p(s[i]) ==> s[i] in r
    ensures IsSubsequence(r, s)
  {
    if s == [] then []
    else if p(s[0]) then [s[0]] + Filter(s[1..], p)
    else Filter(s[1..], p)
  }

  lemma FilterMembership<T>(s: seq<T>, p: T -> bool, x: T)
    ensures x in Filter(s, p) <==> x in s && p(x)
  {
    if x in s && p(x) {
      var i :| 0 <= i < |s| && s[i] == x;
    }
  }

  /** A filter drops nothing exactly when every element passes it. */
  lemma {:induction false} FilterDropsNothing<T>(s: seq<T>, p: T -> bool)
    ensures |Filter(s, p)| == |s| <==> forall i :: 0 <= i < |s| ==> p(s[i])
    ensures |Filter(s, p)| == |s| ==> Filter(s, p) == s
  {
    if s != [] {
      FilterDropsNothing(s[1..], p);
      assert forall i :: 0 <= i < |s[1..]| ==> s[1..][i] == s[i + 1];
      if |Filter(s, p)| == |s| {
        assert p(s[0]);
      }
    }
  }

  /** `s.filter(p).length` */
  function Count<T(==)>(s: seq<T>, p: T -> bool): (n: nat)
    ensures n <= |s|
  {
    |Filter(s, p)|
  }

  /** `s.map(x => matches(x) ? f(x) : x)`: the matching elements replaced, the rest kept. */
  function MapWhere<T>(s: seq<T>, matches: T -> bool, f: T -> T): (r: seq<T>)
    ensures |r| == |s|
    ensures forall i :: 0 <= i < |s| && matches(s[i]) ==> r[i] == f(s[i])
    ensures forall i :: 0 <= i < |s| && !matches(s[i]) ==> r[i] == s[i]
  {
    if s == [] then []
    else [if matches(s[0]) then f(s[0]) else s[0]] + MapWhere(s[1..], matches, f)
  }

  /** `a` is `b` with zero or more elements left out, the rest in the same order. */
  predicate IsSubsequence<T(==)>(a: seq<T>, b: seq<T>)
  {
    if a == [] then true
    else if b == [] then false
    else (a[0] == b[0] && IsSubsequence(a[1..], b[1..])) || IsSubsequence(a, b[1..])
  }

  /** Every earlier element stands in `rel` to every later one. */
  ghost predicate Pairwise<T>(s: seq<T>, rel: (T, T) -> bool)
  {
    forall i, j :: 0 <= i < j < |s| ==> rel(s[i], s[j])
  }

  ghost predicate SortedDesc<T>(s: seq<T>, key: T -> int)
  {
    forall i, j :: 0 <= i < j < |s| ==> key(s[i]) >= key(s[j])
  }

  lemma {:induction false} FilterPreservesPairwise<T>(s: seq<T>, p: T -> bool, rel: (T, T) -> bool)
    requires Pairwise(s, rel)
    ensures Pairwise(Filter(s, p), rel)
  {
    if s != [] {
      var tail := Filter(s[1..], p);
      assert Pairwise(s[1..], rel) by {
        forall i, j | 0 <= i < j < |s[1..]| ensures rel(s[1..][i], s[1..][j]) {
          assert s[1..][i] == s[i + 1] && s[1..][j] == s[j + 1];
        }
      }
      FilterPreservesPairwise(s[1..], p, rel);
      if p(s[0]) {
        var r := [s[0]] + tail;
        forall i, j | 0 <= i < j < |r| ensures rel(r[i], r[j]) {
          if i == 0 {
            assert r[j] in s[1..];
            var k :| 0 <= k < |s[1..]| && s[1..][k] == r[j];
            assert s[k + 1] == r[j];
          } else {
            assert r[i] == tail[i - 1] && r[j] == tail[j - 1];
          }
        }
      }
    }
  }

  /** Filtering by `p` and then by `q` is filtering once by a test `both`
      that holds exactly where both do. */
  lemma {:induction false} FilterFilter<T>(s: seq<T>, p: T -> bool, q: T -> bool, both: T -> bool)
    requires forall i :: 0 <= i < |s| ==> both(s[i]) == (p(s[i]) && q(s[i]))
    ensures Filter(Filter(s, p), q) == Filter(s, both)
  {
    if s != [] {
      assert forall i :: 0 <= i < |s[1..]| ==> s[1..][i] == s[i + 1];
      FilterFilter(s[1..], p, q, both);
      if p(s[0]) {
        assert Filter(s, p) == [s[0]] + Filter(s[1..], p);
        assert Filter(s, p)[1..] == Filter(s[1..], p);
      }
    }
  }

  /** A filter that keeps every element leaves the sequence as it was. */
  lemma {:induction false} FilterAll<T>(s: seq<T>, p: T -> bool)
    requires forall i :: 0 <= i < |s| ==> p(s[i])
    ensures Filter(s, p) == s
  {
    if s != [] {
      assert forall i :: 0 <= i < |s[1..]| ==> s[1..][i] == s[i + 1];
      FilterAll(s[1..], p);
    }
  }

  /** Filters by tests that agree on every element give the same result. */
  lemma {:induction false} FilterExt<T>(s: seq<T>, p: T -> bool, q: T -> bool)
    requires forall i :: 0 <= i < |s| ==> p(s[i]) == q(s[i])
    ensures Filter(s, p) == Filter(s, q)
  {
    if s != [] {
      assert forall i :: 0 <= i < |s[1..]| ==> s[1..][i] == s[i + 1];
      FilterExt(s[1..], p, q);
    }
  }

  /** Filtering is idempotent. */
  lemma FilterIdempotent<T>(s: seq<T>, p: T -> bool)
    ensures Filter(Filter(s, p), p) == Filter(s, p)
  {
    FilterAll(Filter(s, p), p);
  }

  /** Filtering a sequence with one more element at the end. */
  lemma {:induction false} FilterSnoc<T>(s: seq<T>, x: T, p: T -> bool)
    ensures Filter(s + [x], p) == Filter(s, p) + (if p(x) then [x] else [])
  {
    if s == [] {
      assert [] + [x] == [x];
    } else {
      assert (s + [x])[0] == s[0];
      assert (s + [x])[1..] == s[1..] + [x];
      FilterSnoc(s[1..], x, p);
    }
  }

  /** Inserts `x` before the first element whose key is not above `key(x)`. */
  function InsertDesc<T>(x: T, s: seq<T>, key: T -> int): seq<T>
  {
    if s == [] || key(x) >= key(s[0]) then [x] + s
    else [s[0]] + InsertDesc(x, s[1..], key)
  }

  lemma SortedDescTail<T>(s: seq<T>, key: T -> int)
    requires s != [] && SortedDesc(s, key)
    ensures SortedDesc(s[1..], key)
  {
    forall i, j | 0 <= i < j < |s[1..]| ensures key(s[1..][i]) >= key(s[1..][j]) {
      assert s[1..][i] == s[i + 1] && s[1..][j] == s[j + 1];
    }
  }

  /** A key `top` that bounds `x` and every key of `s` bounds every key of a
      permutation of `s` with `x` added. */
  lemma AboveAll<T>(top: T, x: T, s: seq<T>, r: seq<T>, key: T -> int)
    requires multiset(r) == multiset(s) + multiset{x}
    requires key(top) >= key(x)
    requires forall k :: 0 <= k < |s| ==> key(top) >= key(s[k])
    ensures forall j :: 0 <= j < |r| ==> key(top) >= key(r[j])
  {
    forall j | 0 <= j < |r| ensures key(top) >= key(r[j]) {
      assert r[j] in multiset(r);
      if r[j] != x {
        assert r[j] in multiset(s);
        var k :| 0 <= k < |s| && s[k] == r[j];
      }
    }
  }

  /** Putting a key no smaller than all others in front keeps a sequence sorted. */
  lemma ConsSorted<T>(top: T, rest: seq<T>, key: T -> int)
    requires SortedDesc(rest, key)
    requires forall j :: 0 <= j < |rest| ==> key(top) >= key(rest[j])
    ensures SortedDesc([top] + rest, key)
  {
    var r := [top] + rest;
    forall i, j | 0 <= i < j < |r| ensures key(r[i]) >= key(r[j]) {
      assert r[j] == rest[j - 1];
      if i > 0 {
        assert r[i] == rest[i - 1];
      }
    }
  }

  lemma {:induction false} InsertDescSorted<T>(x: T, s: seq<T>, key: T -> int)
    requires SortedDesc(s, key)
    ensures SortedDesc(InsertDesc(x, s, key), key)
    ensures multiset(InsertDesc(x, s, key)) == multiset(s) + multiset{x}
  {
    if s == [] || key(x) >= key(s[0]) {
      ConsSorted(x, s, key);
    } else {
      SortedDescTail(s, key);
      InsertDescSorted(x, s[1..], key);
      var rest := InsertDesc(x, s[1..], key);
      assert s == [s[0]] + s[1..];
      AboveAll(s[0], x, s[1..], rest, key);
      ConsSorted(s[0], rest, key);
    }
  }

  /** ORDER BY key DESC: a permutation of `s` whose keys do not increase. */
  function SortByDesc<T>(s: seq<T>, key: T -> int): (r: seq<T>)
    ensures SortedDesc(r, key)
    ensures multiset(r) == multiset(s)
    ensures |r| == |s|
  {
    if s == [] then []
    else
      var rest := SortByDesc(s[1..], key);
      InsertDescSorted(s[0], rest, key);
      assert s == [s[0]] + s[1..];
      InsertDesc(s[0], rest, key)
  }

  lemma SortedMembership<T>(s: seq<T>, key: T -> int, x: T)
    ensures x in SortByDesc(s, key) <==> x in s
  {
    assert x in SortByDesc(s, key) <==> x in multiset(SortByDesc(s, key));
    assert x in s <==> x in multiset(s);
  }

  /** Sorting keeps a property every input row has. */
  lemma SortedAllPass<T>(s: seq<T>, key: T -> int, p: T -> bool)
    requires forall i :: 0 <= i < |s| ==> p(s[i])
    ensures forall i :: 0 <= i < |SortByDesc(s, key)| ==> p(SortByDesc(s, key)[i])
  {
    var r := SortByDesc(s, key);
    forall i | 0 <= i < |r| ensures p(r[i]) {
      assert r[i] in multiset(r);
      assert r[i] in s;
    }
  }

  /** The rows `mk(a, b)` for the `b` in `bs` that `on` pairs with `a`. */
  function JoinOne<A, B, R>(a: A, bs: seq<B>, on: (A, B) -> bool, mk: (A, B) -> R): seq<R>
  {
    if bs == [] then []
    else (if on(a, bs[0]) then [mk(a, bs[0])] else []) + JoinOne(a, bs[1..], on, mk)
  }

  /** SQL inner JOIN: one row `mk(a, b)` per pair with `on(a, b)`, grouped by `a`. */
  function Join<A, B, R>(as_: seq<A>, bs: seq<B>, on: (A, B) -> bool, mk: (A, B) -> R): seq<R>
  {
    if as_ == [] then []
    else JoinOne(as_[0], bs, on, mk) + Join(as_[1..], bs, on, mk)
  }

  lemma {:induction false} JoinOneMembership<A, B, R>(a: A, bs: seq<B>, on: (A, B) -> bool, mk: (A, B) -> R, row: R)
    ensures row in JoinOne(a, bs, on, mk) <==> exists j :: 0 <= j < |bs| && on(a, bs[j]) && row == mk(a, bs[j])
  {
    if bs != [] {
      JoinOneMembership(a, bs[1..], on, mk, row);
      if exists j :: 0 <= j < |bs| && on(a, bs[j]) && row == mk(a, bs[j]) {
        var j :| 0 <= j < |bs| && on(a, bs[j]) && row == mk(a, bs[j]);
        if j > 0 {
          assert bs[1..][j - 1] == bs[j];
        }
      }
      if exists j :: 0 <= j < |bs[1..]| && on(a, bs[1..][j]) && row == mk(a, bs[1..][j]) {
        var j :| 0 <= j < |bs[1..]| && on(a, bs[1..][j]) && row == mk(a, bs[1..][j]);
        assert bs[1..][j] == bs[j + 1];
      }
    }
  }

  /** A row is in the join exactly when some pair of inputs matches and builds it. */
  lemma {:induction false} JoinMembership<A, B, R>(as_: seq<A>, bs: seq<B>, on: (A, B) -> bool, mk: (A, B) -> R, row: R)
    ensures row in Join(as_, bs, on, mk) <==>
            exists i, j :: 0 <= i < |as_| && 0 <= j < |bs| && on(as_[i], bs[j]) && row == mk(as_[i], bs[j])
  {
    if as_ != [] {
      JoinOneMembership(as_[0], bs, on, mk, row);
      JoinMembership(as_[1..], bs, on, mk, row);
      if exists i, j :: 0 <= i < |as_| && 0 <= j < |bs| && on(as_[i], bs[j]) && row == mk(as_[i], bs[j]) {
        var i, j :| 0 <= i < |as_| && 0 <= j < |bs| && on(as_[i], bs[j]) && row == mk(as_[i], bs[j]);
        if i > 0 {
          assert as_[1..][i - 1] == as_[i];
        }
      }
      if exists i, j :: 0 <= i < |as_[1..]| && 0 <= j < |bs| && on(as_[1..][i], bs[j]) && row == mk(as_[1..][i], bs[j]) {
        var i, j :| 0 <= i < |as_[1..]| && 0 <= j < |bs| && on(as_[1..][i], bs[j]) && row == mk(as_[1..][i], bs[j]);
        assert as_[1..][i] == as_[i + 1];
      }
    }
  }

  /** `hay.includes(needle)` */
  predicate Contains(hay: string, needle: string)
  {
    needle <= hay || (hay != [] && Contains(hay[1..], needle))
  }

  /** `needle` occurs in `hay` starting at offset `k`. */
  ghost predicate OccursAt(hay: string, needle: string, k: nat)
  {
    k + |needle| <= |hay| && hay[k..k + |needle|] == needle
  }

  /** `includes` finds `needle` exactly when it occurs at some offset of `hay`. */
  lemma {:induction false} ContainsAt(hay: string, needle: string)
    ensures Contains(hay, needle) <==> exists k: nat :: OccursAt(hay, needle, k)
  {
    if needle <= hay {
      assert OccursAt(hay, needle, 0);
    }
    if hay != [] {
      ContainsAt(hay[1..], needle);
      if exists k: nat :: OccursAt(hay[1..], needle, k) {
        var k: nat :| OccursAt(hay[1..], needle, k);
        assert hay[k + 1..k + 1 + |needle|] == hay[1..][k..k + |needle|];
        assert OccursAt(hay, needle, k + 1);
      }
      if exists k: nat :: OccursAt(hay, needle, k) {
        var k: nat :| OccursAt(hay, needle, k);
        if k > 0 {
          assert hay[1..][k - 1..k - 1 + |needle|] == hay[k..k + |needle|];
          assert OccursAt(hay[1..], needle, k - 1);
        } else {
          assert needle <= hay;
        }
      }
    } else {
      if exists k: nat :: OccursAt(hay, needle, k) {
        assert needle == [];
      }
    }
  }
}
