/** The array operations the application chains: `filter`, `findIndex`/`find` and `slice(0, n)`. */
module Seqs {
  import opened Wrappers

  /** `s.filter(p)`: the elements satisfying `p`, in their original order. */
  function Filter<T(!new)>(s: seq<T>, p: T -> bool): (r: seq<T>)
    ensures |r| <= |s|
    ensures forall x :: x in r <==> x in s && p(x)
  {
    if s == [] then [] else (if p(s[0]) then [s[0]] else []) + Filter(s[1..], p)
  }

  /** Filtering keeps the relative order: it distributes over concatenation. */
  lemma {:induction false} FilterConcat<T(!new)>(a: seq<T>, b: seq<T>, p: T -> bool)
    ensures Filter(a + b, p) == Filter(a, p) + Filter(b, p)
  {
    if a == [] {
      assert a + b == b;
    } else {
      assert (a + b)[1..] == a[1..] + b;
      FilterConcat(a[1..], b, p);
    }
  }

  /** Filtering a sequence around one element: the filtered prefix, the element iff it passes, the filtered suffix. */
  lemma FilterAround<T(!new)>(a: seq<T>, x: T, b: seq<T>, p: T -> bool)
    ensures Filter(a + [x] + b, p) == Filter(a, p) + (if p(x) then [x] else []) + Filter(b, p)
  {
    FilterConcat(a + [x], b, p);
    FilterConcat(a, [x], p);
    assert Filter([x], p) == (if p(x) then [x] else []) + Filter([], p);
  }

  /** A filter that every element passes keeps the sequence as it is. */
  lemma {:induction false} FilterKeepsAll<T(!new)>(s: seq<T>, p: T -> bool)
    requires forall i :: 0 <= i < |s| ==> p(s[i])
    ensures Filter(s, p) == s
  {
    if s != [] {
      FilterKeepsAll(s[1..], p);
    }
  }

  /** A filter that no element passes leaves nothing. */
  lemma {:induction false} FilterNone<T(!new)>(s: seq<T>, p: T -> bool)
    requires forall i :: 0 <= i < |s| ==> !p(s[i])
    ensures Filter(s, p) == []
  {
    if s != [] {
      FilterNone(s[1..], p);
    }
  }

  /** Filtering by `p` and then by a stricter `q` is filtering by `q` alone. */
  lemma {:induction false} FilterAbsorbs<T(!new)>(s: seq<T>, p: T -> bool, q: T -> bool)
    requires forall x :: q(x) ==> p(x)
    ensures Filter(Filter(s, p), q) == Filter(s, q)
  {
    if s != [] {
      var head := if p(s[0]) then [s[0]] else [];
      FilterConcat(head, Filter(s[1..], p), q);
      FilterAbsorbs(s[1..], p, q);
      if p(s[0]) {
        assert Filter(head, q) == (if q(s[0]) then [s[0]] else []) + Filter([], q);
      }
    }
  }

  /** Filters that agree on every element give the same result. */
  lemma {:induction false} FilterExt<T(!new)>(s: seq<T>, p: T -> bool, q: T -> bool)
    requires forall x :: p(x) == q(x)
    ensures Filter(s, p) == Filter(s, q)
  {
    if s != [] {
      FilterExt(s[1..], p, q);
    }
  }

  /** Two filters in a row are one filter by both tests. */
  lemma {:induction false} FilterFilter<T(!new)>(s: seq<T>, p: T -> bool, q: T -> bool, both: T -> bool)
    requires forall x :: both(x) == (p(x) && q(x))
    ensures Filter(Filter(s, p), q) == Filter(s, both)
  {
    if s != [] {
      var head := if p(s[0]) then [s[0]] else [];
      FilterConcat(head, Filter(s[1..], p), q);
      FilterFilter(s[1..], p, q, both);
      if p(s[0]) {
        assert Filter(head, q) == (if q(s[0]) then [s[0]] else []) + Filter([], q);
      }
    }
  }

  /** An element passes or fails the test: the two complementary filters share out the sequence. */
  lemma {:induction false} FilterComplement<T(!new)>(s: seq<T>, p: T -> bool, q: T -> bool)
    requires forall x :: q(x) == !p(x)
    ensures |Filter(s, p)| + |Filter(s, q)| == |s|
  {
    if s != [] {
      FilterComplement(s[1..], p, q);
    }
  }

  /** `s.findIndex(p)`, with `None` for `-1`: the first index whose element satisfies `p`. */
  function IndexWhere<T>(s: seq<T>, p: T -> bool): (r: Option<nat>)
    ensures r.Some? ==> r.value < |s| && p(s[r.value])
    ensures r.Some? ==> forall j :: 0 <= j < r.value ==> !p(s[j])
    ensures r.None? <==> forall j :: 0 <= j < |s| ==> !p(s[j])
  {
    if s == [] then None
    else if p(s[0]) then Some(0)
    else match IndexWhere(s[1..], p)
      case None => None
      case Some(k) => Some(k + 1)
  }

  /** `s.find(p)`: the first element satisfying `p`. */
  function FindWhere<T>(s: seq<T>, p: T -> bool): (r: Option<T>)
    ensures r.Some? ==> exists k :: 0 <= k < |s| && s[k] == r.value && p(s[k]) && forall j :: 0 <= j < k ==> !p(s[j])
    ensures r.None? <==> forall j :: 0 <= j < |s| ==> !p(s[j])
  {
    match IndexWhere(s, p)
    case None => None
    case Some(k) => Some(s[k])
  }

  /** `s.indexOf(x)`: the first position of `x`, or -1. */
  function IndexOf<T(==)>(s: seq<T>, x: T): (r: int)
    ensures -1 <= r < |s|
    ensures r >= 0 ==> s[r] == x && forall j :: 0 <= j < r ==> s[j] != x
    ensures r == -1 <==> x !in s
  {
    if s == [] then -1
    else if s[0] == x then 0
    else
      var k := IndexOf(s[1..], x);
      if k == -1 then -1 else k + 1
  }

  /** Where an element first appears once one more element is put in front. */
  lemma IndexOfCons<T>(c: T, s: seq<T>, x: T)
    ensures IndexOf([c] + s, x) == if c == x then 0 else if IndexOf(s, x) == -1 then -1 else IndexOf(s, x) + 1
  {
    assert ([c] + s)[1..] == s;
  }

  /**
   * `s.filter((x, i) => s.indexOf(x) === i)` from position `i` on: each
   * element at its first position, in the order of those first positions.
   */
  function KeepFirstFrom<T(==)>(s: seq<T>, i: nat): (r: seq<T>)
    requires i <= |s|
    ensures |r| <= |s| - i
    decreases |s| - i
  {
    if i == |s| then []
    else
      var rest := KeepFirstFrom(s, i + 1);
      if IndexOf(s, s[i]) == i then [s[i]] + rest else rest
  }

  /** What survives the first-occurrence filter: exactly the elements first seen at or after `i`. */
  lemma {:induction false} KeepFirstMembers<T>(s: seq<T>, i: nat)
    requires i <= |s|
    ensures forall x :: x in KeepFirstFrom(s, i) <==> x in s && IndexOf(s, x) >= i
    decreases |s| - i
  {
    if i < |s| {
      KeepFirstMembers(s, i + 1);
      var rest := KeepFirstFrom(s, i + 1);
      if IndexOf(s, s[i]) == i {
        assert KeepFirstFrom(s, i) == [s[i]] + rest;
      } else {
        assert KeepFirstFrom(s, i) == rest;
      }
    }
  }

  /** Without repeats, every element is at its first position, so the dedupe keeps everything. */
  lemma {:induction false} KeepFirstDistinct<T>(s: seq<T>, i: nat)
    requires i <= |s| && NoDuplicates(s)
    ensures KeepFirstFrom(s, i) == s[i..]
    decreases |s| - i
  {
    if i < |s| {
      KeepFirstDistinct(s, i + 1);
      assert IndexOf(s, s[i]) == i;
      assert s[i..] == [s[i]] + s[i + 1..];
    }
  }

  /** The survivors of the first-occurrence filter keep the order of their first positions. */
  lemma {:induction false} KeepFirstOrdered<T>(s: seq<T>, i: nat)
    requires i <= |s|
    ensures forall p, q :: 0 <= p < q < |KeepFirstFrom(s, i)| ==>
      IndexOf(s, KeepFirstFrom(s, i)[p]) < IndexOf(s, KeepFirstFrom(s, i)[q])
    decreases |s| - i
  {
    if i < |s| {
      KeepFirstOrdered(s, i + 1);
      KeepFirstMembers(s, i + 1);
      var rest := KeepFirstFrom(s, i + 1);
      var r := KeepFirstFrom(s, i);
      if IndexOf(s, s[i]) == i {
        assert r == [s[i]] + rest;
        forall p, q | 0 <= p < q < |r|
          ensures IndexOf(s, r[p]) < IndexOf(s, r[q])
        {
          assert r[q] == rest[q - 1];
          assert rest[q - 1] in rest;
          assert IndexOf(s, r[q]) >= i + 1;
          if p > 0 {
            assert r[p] == rest[p - 1];
          } else {
            assert r[p] == s[i];
          }
        }
      } else {
        assert r == rest;
      }
    }
  }

  /**
   * The survivors of the first-occurrence filter are closed downwards: an
   * element first seen before a survivor (and not before `i`) survives too,
   * and comes earlier.
   */
  lemma {:induction false} KeepFirstEarlier<T>(s: seq<T>, i: nat, x: T, y: T)
    requires i <= |s|
    requires x in KeepFirstFrom(s, i) && y in s
    requires i <= IndexOf(s, y) < IndexOf(s, x)
    ensures y in KeepFirstFrom(s, i)
    ensures IndexOf(KeepFirstFrom(s, i), y) < IndexOf(KeepFirstFrom(s, i), x)
    decreases |s| - i
  {
    var rest := KeepFirstFrom(s, i + 1);
    var r := KeepFirstFrom(s, i);
    if IndexOf(s, s[i]) == i {
      assert r == [s[i]] + rest;
      IndexOfCons(s[i], rest, x);
      IndexOfCons(s[i], rest, y);
      if IndexOf(s, y) > i {
        assert x != s[i] && y != s[i];
        KeepFirstEarlier(s, i + 1, x, y);
      } else {
        assert y == s[i] && x != s[i];
      }
    } else {
      assert r == rest;
      assert y != s[i];
      KeepFirstEarlier(s, i + 1, x, y);
    }
  }

  /** Filtering keeps first appearances in order: two kept elements appear first in the same order before and after. */
  lemma {:induction false} FilterKeepsFirstOrder<T(!new)>(t: seq<T>, p: T -> bool, u: T, v: T)
    requires u in t && v in t && p(u) && p(v)
    requires IndexOf(t, u) < IndexOf(t, v)
    ensures IndexOf(Filter(t, p), u) < IndexOf(Filter(t, p), v)
  {
    var f := Filter(t, p);
    var g := Filter(t[1..], p);
    assert t == [t[0]] + t[1..];
    IndexOfCons(t[0], t[1..], u);
    IndexOfCons(t[0], t[1..], v);
    if t[0] == u {
      assert f == [u] + g;
      IndexOfCons(u, g, u);
      IndexOfCons(u, g, v);
    } else {
      assert t[0] != v;
      assert u in t[1..] && v in t[1..];
      FilterKeepsFirstOrder(t[1..], p, u, v);
      if p(t[0]) {
        assert f == [t[0]] + g;
        IndexOfCons(t[0], g, u);
        IndexOfCons(t[0], g, v);
      } else {
        assert f == g;
      }
    }
  }

  /** The converse: order among the kept elements is order in the original. */
  lemma {:induction false} FirstOrderFromFiltered<T(!new)>(t: seq<T>, p: T -> bool, u: T, v: T)
    requires u in t && v in t && p(u) && p(v) && u != v
    requires IndexOf(Filter(t, p), u) < IndexOf(Filter(t, p), v)
    ensures IndexOf(t, u) < IndexOf(t, v)
  {
    var i, j := IndexOf(t, u), IndexOf(t, v);
    assert t[i] == u && t[j] == v;
    if j < i {
      FilterKeepsFirstOrder(t, p, v, u);
      assert false;
    }
  }

  /** `s.slice(0, n)`. */
  function Take<T>(s: seq<T>, n: nat): (r: seq<T>)
    ensures |r| == if |s| <= n then |s| else n
    ensures r == s[..|r|]
  {
    if |s| <= n then s else s[..n]
  }

  /** `s.filter((_, j) => j !== i)`: the list without the entry at position `i`, if there is one. */
  function RemoveAt<T>(s: seq<T>, i: int): (r: seq<T>)
    ensures 0 <= i < |s| ==> |r| == |s| - 1 && forall j :: 0 <= j < |r| ==> r[j] == if j < i then s[j] else s[j + 1]
    ensures !(0 <= i < |s|) ==> r == s
  {
    if 0 <= i < |s| then s[..i] + s[i + 1..] else s
  }

  /** Appending an entry and then removing the last one gives the list back. */
  lemma {:induction false} AddThenRemoveLast<T>(s: seq<T>, x: T)
    ensures RemoveAt(s + [x], |s|) == s
  {
    assert (s + [x])[..|s|] == s;
  }

  /** Removing an entry keeps every other entry, in order: the entries before `i` and the entries after it. */
  lemma RemoveAtSplits<T>(s: seq<T>, i: int)
    requires 0 <= i < |s|
    ensures RemoveAt(s, i) == s[..i] + s[i + 1..]
    ensures multiset(RemoveAt(s, i)) + multiset{s[i]} == multiset(s)
  {
    assert s == s[..i] + [s[i]] + s[i + 1..];
  }

  /** Where the first element of a sequence sits in a permutation of it. */
  lemma PermutationPosition<T>(a: seq<T>, b: seq<T>) returns (i: nat)
    requires multiset(a) == multiset(b) && |a| > 0
    ensures i < |b| && b[i] == a[0]
  {
    assert a[0] in multiset(b);
    i :| 0 <= i < |b| && b[i] == a[0];
  }

  /** Dropping the first element of `a` and the same element from its permutation `b` leaves permutations. */
  lemma PermutationTail<T>(a: seq<T>, b: seq<T>, i: nat)
    requires multiset(a) == multiset(b) && |a| > 0 && i < |b| && b[i] == a[0]
    ensures multiset(a[1..]) == multiset(RemoveAt(b, i))
  {
    RemoveAtSplits(b, i);
    assert a == [a[0]] + a[1..];
    assert multiset(a) == multiset(a[1..]) + multiset{a[0]};
    assert multiset(a[1..]) == multiset(a) - multiset{a[0]};
    assert multiset(RemoveAt(b, i)) == multiset(b) - multiset{b[i]};
  }

  /** No element appears twice. */
  predicate NoDuplicates<T(==)>(s: seq<T>) {
    forall i, j :: 0 <= i < j < |s| ==> s[i] != s[j]
  }
}
