/** Order-preserving sub-lists and flattening, shared by the list operations. */
module Seqs {
  import opened Wrappers

  /** `a` is `b` with some elements left out, the rest in their order. */
  predicate Subseq<T(==)>(a: seq<T>, b: seq<T>)
    decreases |b|
  {
    if b == [] then a == []
    else (a != [] && a[|a| - 1] == b[|b| - 1] && Subseq(a[..|a| - 1], b[..|b| - 1]))
         || Subseq(a, b[..|b| - 1])
  }

  lemma SubseqKeep<T>(a: seq<T>, b: seq<T>, x: T)
    requires Subseq(a, b)
    ensures Subseq(a + [x], b + [x])
  {
    assert (a + [x])[..|a|] == a;
    assert (b + [x])[..|b|] == b;
  }

  lemma SubseqDrop<T>(a: seq<T>, b: seq<T>, x: T)
    requires Subseq(a, b)
    ensures Subseq(a, b + [x])
  {
    assert (b + [x])[..|b|] == b;
  }

  lemma {:induction false} SubseqRefl<T>(a: seq<T>)
    ensures Subseq(a, a)
    decreases |a|
  {
    if a != [] {
      SubseqRefl(a[..|a| - 1]);
    }
  }

  /** A sub-list of a sub-list is a sub-list. */
  lemma {:induction false} SubseqTrans<T>(a: seq<T>, b: seq<T>, c: seq<T>)
    requires Subseq(a, b) && Subseq(b, c)
    ensures Subseq(a, c)
    decreases |c|
  {
    if c == [] {
      assert b == [];
    } else {
      var c' := c[..|c| - 1];
      assert c == c' + [c[|c| - 1]];
      if b != [] && b[|b| - 1] == c[|c| - 1] && Subseq(b[..|b| - 1], c') {
        var b' := b[..|b| - 1];
        if a != [] && a[|a| - 1] == b[|b| - 1] && Subseq(a[..|a| - 1], b') {
          SubseqTrans(a[..|a| - 1], b', c');
        } else {
          SubseqTrans(a, b', c');
          SubseqDrop(a, c', c[|c| - 1]);
        }
      } else {
        SubseqTrans(a, b, c');
        SubseqDrop(a, c', c[|c| - 1]);
      }
    }
  }

  /** Every element of a sub-list is an element of the list. */
  lemma {:induction false} SubseqMembers<T>(a: seq<T>, b: seq<T>)
    requires Subseq(a, b)
    ensures forall x :: x in a ==> x in b
    decreases |b|
  {
    if b != [] {
      var b' := b[..|b| - 1];
      assert b == b' + [b[|b| - 1]];
      if a != [] && a[|a| - 1] == b[|b| - 1] && Subseq(a[..|a| - 1], b') {
        SubseqMembers(a[..|a| - 1], b');
        assert a == a[..|a| - 1] + [a[|a| - 1]];
      } else {
        SubseqMembers(a, b');
      }
    }
  }

  /** The sub-list is no longer than the list. */
  lemma {:induction false} SubseqLength<T>(a: seq<T>, b: seq<T>)
    requires Subseq(a, b)
    ensures |a| <= |b|
    decreases |b|
  {
    if b != [] {
      if a != [] && a[|a| - 1] == b[|b| - 1] && Subseq(a[..|a| - 1], b[..|b| - 1]) {
        SubseqLength(a[..|a| - 1], b[..|b| - 1]);
      } else {
        SubseqLength(a, b[..|b| - 1]);
      }
    }
  }

  /** The lists of `xss` one after another. */
  function Flatten<T>(xss: seq<seq<T>>): (r: seq<T>)
    ensures xss == [] ==> r == []
  {
    if xss == [] then [] else Flatten(xss[..|xss| - 1]) + xss[|xss| - 1]
  }

  lemma FlattenSnoc<T>(xss: seq<seq<T>>, xs: seq<T>)
    ensures Flatten(xss + [xs]) == Flatten(xss) + xs
  {
    assert (xss + [xs])[..|xss|] == xss;
  }

  /** An element of a flattened list is an element of one of its parts. */
  lemma {:induction false} FlattenMember<T>(rs: seq<seq<T>>, w: T) returns (k: nat)
    requires w in Flatten(rs)
    ensures k < |rs| && w in rs[k]
  {
    var init := rs[..|rs| - 1];
    if w in rs[|rs| - 1] {
      k := |rs| - 1;
    } else {
      k := FlattenMember(init, w);
      assert rs[k] == init[k];
    }
  }

  /** A flattened list starts with the first element of its first part. */
  lemma {:induction false} FlattenHead<T>(rs: seq<seq<T>>)
    requires rs != [] && rs[0] != []
    ensures Flatten(rs) != [] && Flatten(rs)[0] == rs[0][0]
  {
    if |rs| > 1 {
      var init := rs[..|rs| - 1];
      assert init[0] == rs[0];
      FlattenHead(init);
    }
  }

  lemma Nest5<T>(a: seq<T>, b: seq<T>, c: seq<T>, d: seq<T>, f: seq<T>)
    ensures a + b + c + d + f == a + (b + c + d + f)
  {
  }

  /** The middle of three elements set apart. */
  lemma Around<T>(a: seq<T>, x: T, y: T, z: T, b: seq<T>)
    ensures a + [x, y, z] + b == (a + [x]) + [y] + ([z] + b)
  {
  }

  /** A pair inside a concatenation split between its two neighbours. */
  lemma Unpair<T>(a: seq<T>, x: T, y: T, p: seq<T>, q: seq<T>)
    ensures a + [x, y] + p + q == (a + [x]) + [y] + p + q
  {
  }

  lemma EmptyRight<T>(a: seq<T>)
    ensures a + [] == a
  {
  }

  lemma Regroup3<T>(a: seq<T>, b: seq<T>, c: seq<T>)
    ensures a + (b + c) == a + b + c
  {
  }

  lemma Regroup4<T>(a: seq<T>, b: seq<T>, c: seq<T>, d: seq<T>)
    ensures a + (b + (c + d)) == a + (b + c) + d
  {
  }

  /** Where each of six consecutive pieces sits in their concatenation. */
  lemma Pieces6<T>(line: seq<T>, a: seq<T>, x: seq<T>, b: seq<T>, y: seq<T>, c: seq<T>, z: seq<T>)
    requires line == a + x + b + y + c + z
    ensures var A := |a|; var B := A + |x|; var C := B + |b|; var D := C + |y|; var E := D + |c|;
            |line| == E + |z|
            && (forall i :: 0 <= i < A ==> line[i] == a[i])
            && (forall i :: A <= i < B ==> line[i] == x[i - A])
            && (forall i :: B <= i < C ==> line[i] == b[i - B])
            && (forall i :: C <= i < D ==> line[i] == y[i - C])
            && (forall i :: D <= i < E ==> line[i] == c[i - D])
            && (forall i :: E <= i < |line| ==> line[i] == z[i - E])
            && line[..A] == a && line[A..B] == x && line[B..C] == b && line[C..D] == y
            && line[D..E] == c && line[E..] == z
  {
  }

  /** The six consecutive pieces as slices of their concatenation. */
  lemma Slices6<T>(line: seq<T>, a: seq<T>, x: seq<T>, b: seq<T>, y: seq<T>, c: seq<T>, z: seq<T>)
    requires line == a + x + b + y + c + z
    ensures var A := |a|; var B := A + |x|; var C := B + |b|; var D := C + |y|; var E := D + |c|;
            |line| == E + |z|
            && line[..A] == a && line[A..B] == x && line[B..C] == b && line[C..D] == y
            && line[D..E] == c && line[E..] == z
  {
    Pieces6(line, a, x, b, y, c, z);
  }

  lemma ConsParts<T>(x: T, t: seq<T>)
    ensures ([x] + t)[0] == x && ([x] + t)[1..] == t
  {
  }

  lemma Pair<T>(x: T, y: T, a: T, b: T)
    requires x == a && y == b
    ensures [x, y] == [a, b]
  {
  }

  lemma Triple<T>(x: T, y: T, z: T, a: T, b: T, c: T)
    requires x == a && y == b && z == c
    ensures [x, y, z] == [a, b, c]
  {
  }

  lemma TakeSnoc<T>(s: seq<T>, i: nat)
    requires i < |s|
    ensures s[..i + 1] == s[..i] + [s[i]]
  {
  }

  lemma SplitLast<T>(s: seq<T>, n: nat)
    requires |s| == n + 1
    ensures s == s[..n] + [s[n]]
  {
  }

  /** `s.filter(p)`: the elements satisfying `p`, in their order. */
  function Filter<T>(s: seq<T>, p: T -> bool): (r: seq<T>)
    ensures |r| <= |s|
    decreases |s|
  {
    if s == [] then []
    else
      var init := Filter(s[..|s| - 1], p);
      if p(s[|s| - 1]) then init + [s[|s| - 1]] else init
  }

  /** A filtered list is a sub-list holding exactly the elements that pass. */
  lemma {:induction false} FilterKeeps<T>(s: seq<T>, p: T -> bool)
    ensures Subseq(Filter(s, p), s)
    ensures forall x :: x in Filter(s, p) ==> x in s && p(x)
    ensures forall x :: x in s && p(x) ==> x in Filter(s, p)
    decreases |s|
  {
    if s != [] {
      var init, last := s[..|s| - 1], s[|s| - 1];
      assert s == init + [last];
      FilterKeeps(init, p);
      if p(last) {
        SubseqKeep(Filter(init, p), init, last);
      } else {
        SubseqDrop(Filter(init, p), init, last);
      }
    }
  }

  /** A filter every element passes changes nothing, so filtering twice is filtering once. */
  lemma {:induction false} FilterAll<T>(s: seq<T>, p: T -> bool)
    requires forall x :: x in s ==> p(x)
    ensures Filter(s, p) == s
    decreases |s|
  {
    if s != [] {
      var init := s[..|s| - 1];
      assert forall x :: x in init ==> x in s;
      FilterAll(init, p);
    }
  }

  lemma FilterTwice<T>(s: seq<T>, p: T -> bool)
    ensures Filter(Filter(s, p), p) == Filter(s, p)
  {
    FilterKeeps(s, p);
    forall x | x in Filter(s, p) ensures p(x) {
      assert x in s && p(x);
    }
    FilterAll(Filter(s, p), p);
  }

  /** Two filters one after the other keep what passes both. */
  lemma {:induction false} FilterFilter<T>(s: seq<T>, p: T -> bool, q: T -> bool)
    ensures Filter(Filter(s, p), q) == Filter(s, (x: T) => p(x) && q(x))
    decreases |s|
  {
    if s != [] {
      var init, last := s[..|s| - 1], s[|s| - 1];
      FilterFilter(init, p, q);
      if p(last) {
        assert (Filter(init, p) + [last])[..|Filter(init, p)|] == Filter(init, p);
      }
    }
  }

  /** No element precedes one with a larger key. */
  predicate Descending<T>(s: seq<T>, key: T -> int) {
    forall i, j :: 0 <= i < j < |s| ==> key(s[i]) >= key(s[j])
  }

  /** `x` placed before the first element whose key is not larger. */
  function Insert<T>(x: T, s: seq<T>, key: T -> int): (r: seq<T>)
    ensures |r| == |s| + 1
  {
    if s == [] then [x]
    else if key(s[0]) <= key(x) then [x] + s
    else [s[0]] + Insert(x, s[1..], key)
  }

  /**
   * `s.sort((a, b) => key(b) - key(a))`: a stable sort, largest key first,
   * an element keeping its place before later elements of the same key.
   */
  function NewestFirst<T>(s: seq<T>, key: T -> int): (r: seq<T>)
    ensures |r| == |s|
  {
    if s == [] then [] else Insert(s[0], NewestFirst(s[1..], key), key)
  }

  /** No key of `s` exceeds `k`. */
  predicate KeysAtMost<T>(s: seq<T>, key: T -> int, k: int) {
    forall i :: 0 <= i < |s| ==> key(s[i]) <= k
  }

  lemma {:induction false} InsertAtMost<T>(x: T, s: seq<T>, key: T -> int, k: int)
    requires KeysAtMost(s, key, k) && key(x) <= k
    ensures KeysAtMost(Insert(x, s, key), key, k)
  {
    if s != [] && key(s[0]) > key(x) {
      InsertAtMost(x, s[1..], key, k);
    }
  }

  lemma {:induction false} InsertSorted<T>(x: T, s: seq<T>, key: T -> int)
    requires Descending(s, key)
    ensures Descending(Insert(x, s, key), key)
  {
    if s != [] && key(s[0]) > key(x) {
      var rest := s[1..];
      InsertSorted(x, rest, key);
      InsertAtMost(x, rest, key, key(s[0]));
      var ins := Insert(x, rest, key);
      assert Insert(x, s, key) == [s[0]] + ins;
    }
  }

  lemma {:induction false} InsertPerm<T>(x: T, s: seq<T>, key: T -> int)
    ensures multiset(Insert(x, s, key)) == multiset(s) + multiset{x}
  {
    if s != [] && key(s[0]) > key(x) {
      InsertPerm(x, s[1..], key);
      assert s == [s[0]] + s[1..];
    }
  }

  /** The sort orders by key and only reorders. */
  lemma {:induction false} NewestFirstSorted<T>(s: seq<T>, key: T -> int)
    ensures Descending(NewestFirst(s, key), key)
    ensures multiset(NewestFirst(s, key)) == multiset(s)
  {
    if s != [] {
      NewestFirstSorted(s[1..], key);
      InsertSorted(s[0], NewestFirst(s[1..], key), key);
      InsertPerm(s[0], NewestFirst(s[1..], key), key);
      assert s == [s[0]] + s[1..];
    }
  }

  /** The passing elements newest first: ordered by key, and exactly the elements of `s` that pass. */
  lemma NewestFirstOfFilter<T>(s: seq<T>, p: T -> bool, key: T -> int)
    ensures Descending(NewestFirst(Filter(s, p), key), key)
    ensures forall x :: x in NewestFirst(Filter(s, p), key) <==> x in s && p(x)
  {
    var kept := Filter(s, p);
    FilterKeeps(s, p);
    NewestFirstSorted(kept, key);
    assert forall x :: x in NewestFirst(kept, key) <==> x in multiset(kept);
  }

  /** `s.findIndex(p)`: the first index whose element satisfies `p`, if any. */
  function FindFirst<T>(s: seq<T>, p: T -> bool): (r: Option<nat>)
    ensures r.Some? ==> r.value < |s| && p(s[r.value])
    ensures r.Some? ==> forall j :: 0 <= j < r.value ==> !p(s[j])
    ensures r.None? ==> forall j :: 0 <= j < |s| ==> !p(s[j])
  {
    if s == [] then None
    else if p(s[0]) then Some(0)
    else match FindFirst(s[1..], p)
      case None => None
      case Some(i) => Some(i + 1)
  }

  /** `p` lists each of the indices `0..n-1` exactly once. */
  predicate IsPermutation(p: seq<nat>, n: nat) {
    |p| == n
    && (forall i :: 0 <= i < n ==> p[i] < n)
    && (forall i, j :: 0 <= i < j < n ==> p[i] != p[j])
    && (forall k :: 0 <= k < n ==> k in p)
  }

  /** The elements of `s` in the order `p` picks them. */
  function Permute<T>(s: seq<T>, p: seq<nat>): (r: seq<T>)
    requires IsPermutation(p, |s|)
    ensures |r| == |s|
    ensures forall i :: 0 <= i < |s| ==> r[i] == s[p[i]]
  {
    seq(|s|, i requires 0 <= i < |s| => s[p[i]])
  }

  /** `p` without its entry at `k`, which holds the largest index. */
  lemma DropLargest(p: seq<nat>, n: nat, k: nat)
    requires IsPermutation(p, n + 1) && k <= n && p[k] == n
    ensures IsPermutation(p[..k] + p[k + 1..], n)
  {
    DropLargestRange(p, n, k, p[..k] + p[k + 1..]);
    DropLargestOnto(p, n, k, p[..k] + p[k + 1..]);
  }

  lemma DropLargestRange(p: seq<nat>, n: nat, k: nat, q: seq<nat>)
    requires IsPermutation(p, n + 1) && k <= n && p[k] == n && q == p[..k] + p[k + 1..]
    ensures |q| == n && (forall i :: 0 <= i < n ==> q[i] < n)
    ensures forall i, j :: 0 <= i < j < n ==> q[i] != q[j]
  {
    forall i | 0 <= i < n ensures q[i] == p[if i < k then i else i + 1] { }
  }

  lemma DropLargestOnto(p: seq<nat>, n: nat, k: nat, q: seq<nat>)
    requires IsPermutation(p, n + 1) && k <= n && p[k] == n && q == p[..k] + p[k + 1..]
    ensures forall m :: 0 <= m < n ==> m in q
  {
    forall m | 0 <= m < n ensures m in q {
      assert m in p;
      var i' :| 0 <= i' < n + 1 && p[i'] == m;
      var i := if i' < k then i' else i' - 1;
      assert q[i] == m;
    }
  }

  /** Picking the elements in another order keeps each with its multiplicity. */
  lemma {:induction false} PermuteMultiset<T>(s: seq<T>, p: seq<nat>)
    requires IsPermutation(p, |s|)
    ensures multiset(Permute(s, p)) == multiset(s)
    decreases |s|
  {
    if s != [] {
      var n := |s| - 1;
      var k := LargestAt(p, n);
      var q := p[..k] + p[k + 1..];
      DropLargest(p, n, k);
      var init := s[..n];
      PermuteMultiset(init, q);
      PermuteSplit(s, p, k, q);
      MultisetSplice(Permute(s, p), Permute(init, q), k, s[n], init, s);
    }
  }

  /** Where a permutation of `0..n` puts `n`. */
  lemma LargestAt(p: seq<nat>, n: nat) returns (k: nat)
    requires IsPermutation(p, n + 1)
    ensures k < |p| && p[k] == n
  {
    assert n in p;
    k :| 0 <= k < |p| && p[k] == n;
  }

  /** Inserting `x` into a rearrangement of `init` rearranges `init + [x]`. */
  lemma MultisetSplice<T>(r: seq<T>, r0: seq<T>, k: nat, x: T, init: seq<T>, s: seq<T>)
    requires k <= |r0| && r == r0[..k] + [x] + r0[k..]
    requires multiset(r0) == multiset(init) && s == init + [x]
    ensures multiset(r) == multiset(s)
  {
    assert r0 == r0[..k] + r0[k..];
  }

  /** Permuting by `p` puts the last element at `k` among the others permuted by `q`. */
  lemma PermuteSplit<T>(s: seq<T>, p: seq<nat>, k: nat, q: seq<nat>)
    requires |s| > 0 && IsPermutation(p, |s|) && k < |s| && p[k] == |s| - 1
    requires q == p[..k] + p[k + 1..] && IsPermutation(q, |s| - 1)
    ensures var r0 := Permute(s[..|s| - 1], q);
            Permute(s, p) == r0[..k] + [s[|s| - 1]] + r0[k..]
  {
    var n := |s| - 1;
    var r, r0 := Permute(s, p), Permute(s[..n], q);
    var t := r0[..k] + [s[n]] + r0[k..];
    forall i | 0 <= i < |r| ensures r[i] == t[i] {
      if i < k {
        assert q[i] == p[i] && t[i] == r0[i];
      } else if i > k {
        assert q[i - 1] == p[i] && t[i] == r0[i - 1];
      }
    }
  }

  /** `s.slice(0, k)`: the first `k` elements, or all of a shorter list. */
  function Take<T>(s: seq<T>, k: nat): (r: seq<T>)
    ensures |r| == if k < |s| then k else |s|
  {
    if k < |s| then s[..k] else s
  }
}
