/** Key order of a sorted map, its iteration order, and the stable sort the listings use. */
module Ordering {

  /** Strict lexicographic order, the order of string keys in a sorted map. */
  predicate LexLess(a: string, b: string) {
    b != [] && (a == [] || a[0] < b[0] || (a[0] == b[0] && LexLess(a[1..], b[1..])))
  }

  lemma {:induction false} LexTrichotomy(a: string, b: string)
    ensures LexLess(a, b) || a == b || LexLess(b, a)
    ensures !(LexLess(a, b) && LexLess(b, a))
    ensures !LexLess(a, a)
  {
    if a != [] {
      LexTrichotomy(a[1..], if b == [] then [] else b[1..]);
      if b != [] && a[0] == b[0] && a[1..] == b[1..] {
        assert a == [a[0]] + a[1..] == b;
      }
    }
  }

  lemma {:induction false} LexTransitive(a: string, b: string, c: string)
    requires LexLess(a, b) && LexLess(b, c)
    ensures LexLess(a, c)
  {
    if a != [] && a[0] == b[0] == c[0] {
      LexTransitive(a[1..], b[1..], c[1..]);
    }
  }

  /** A string never sorts before one of its prefixes. */
  lemma {:induction false} PrefixFirst(prefix: string, k: string)
    requires prefix <= k
    ensures !LexLess(k, prefix)
  {
    if prefix != [] {
      PrefixFirst(prefix[1..], k[1..]);
    }
  }

  /** Keys that share a prefix are contiguous, starting at the prefix itself. */
  lemma {:induction false} PrefixContiguous(prefix: string, a: string, b: string)
    requires !LexLess(a, prefix) && LexLess(a, b) && prefix <= b
    ensures prefix <= a
  {
    if prefix != [] {
      assert a != [] && a[0] == b[0] == prefix[0];
      PrefixContiguous(prefix[1..], a[1..], b[1..]);
      assert prefix == [prefix[0]] + prefix[1..] && a == [a[0]] + a[1..];
    }
  }

  ghost predicate Ascending(keys: seq<string>) {
    forall i, j :: 0 <= i < j < |keys| ==> LexLess(keys[i], keys[j])
  }

  predicate IsLeast(k: string, s: set<string>) {
    k in s && forall other :: other in s && other != k ==> LexLess(k, other)
  }

  lemma {:induction false} LeastExists(s: set<string>) returns (k: string)
    requires s != {}
    ensures IsLeast(k, s)
  {
    var x :| x in s;
    if s == {x} {
      k := x;
    } else {
      var rest := s - {x};
      k := LeastExists(rest);
      LexTrichotomy(x, k);
      if LexLess(x, k) {
        forall other | other in s && other != x ensures LexLess(x, other) {
          if other != k {
            LexTransitive(x, k, other);
          }
        }
        k := x;
      }
    }
  }

  lemma LeastUnique(s: set<string>)
    ensures forall a, b :: IsLeast(a, s) && IsLeast(b, s) ==> a == b
  {
    forall a, b | IsLeast(a, s) && IsLeast(b, s) ensures a == b {
      LexTrichotomy(a, b);
    }
  }

  lemma LeastWitness(s: set<string>)
    requires s != {}
    ensures exists k :: IsLeast(k, s)
  {
    var k := LeastExists(s);
  }

  /** In-order iteration over the keys of a sorted map. */
  function SortedKeys(s: set<string>): (keys: seq<string>)
    ensures Ascending(keys)
    ensures forall k :: k in keys <==> k in s
  {
    if s == {} then []
    else
      LeastWitness(s); LeastUnique(s);
      var k :| IsLeast(k, s);
      [k] + SortedKeys(s - {k})
  }

  /** An ascending listing is determined by its set of keys. */
  lemma {:induction false} AscendingUnique(a: seq<string>, b: seq<string>)
    requires Ascending(a) && Ascending(b)
    requires forall k :: k in a <==> k in b
    ensures a == b
  {
    if a == [] {
      assert forall i :: 0 <= i < |b| ==> b[i] in b;
    } else {
      assert a[0] in b;
      assert b[0] in a;
      LexTrichotomy(a[0], b[0]);
      forall k ensures k in a[1..] <==> k in b[1..] {
        LexTrichotomy(a[0], k);
        assert k in a <==> k == a[0] || k in a[1..];
        assert k in b <==> k == b[0] || k in b[1..];
      }
      AscendingUnique(a[1..], b[1..]);
      assert a == [a[0]] + a[1..] && b == [b[0]] + b[1..];
    }
  }

  // ------------------------------------------------------------ stable sort

  function Insert<T>(x: T, xs: seq<T>, key: T -> int): seq<T> {
    if xs == [] || key(x) <= key(xs[0]) then [x] + xs else [xs[0]] + Insert(x, xs[1..], key)
  }

  /** `sort_by_key`: a stable sort, smallest key first. */
  function SortBy<T>(xs: seq<T>, key: T -> int): seq<T> {
    if xs == [] then [] else Insert(xs[0], SortBy(xs[1..], key), key)
  }

  ghost predicate SortedBy<T>(xs: seq<T>, key: T -> int) {
    forall i, j :: 0 <= i < j < |xs| ==> key(xs[i]) <= key(xs[j])
  }

  /** The members of `xs` whose key is `v`, in order. */
  function WithKey<T>(xs: seq<T>, key: T -> int, v: int): seq<T> {
    if xs == [] then []
    else (if key(xs[0]) == v then [xs[0]] else []) + WithKey(xs[1..], key, v)
  }

  lemma {:induction false} InsertPermutes<T>(x: T, xs: seq<T>, key: T -> int)
    ensures multiset(Insert(x, xs, key)) == multiset{x} + multiset(xs)
  {
    if xs != [] && key(x) > key(xs[0]) {
      InsertPermutes(x, xs[1..], key);
      assert xs == [xs[0]] + xs[1..];
    }
  }

  lemma SortedCons<T>(head: T, tail: seq<T>, x: T, xs: seq<T>, key: T -> int)
    requires SortedBy(tail, key) && multiset(tail) == multiset{x} + multiset(xs)
    requires key(head) <= key(x) && forall i :: 0 <= i < |xs| ==> key(head) <= key(xs[i])
    ensures SortedBy([head] + tail, key)
  {
    forall i | 0 <= i < |tail| ensures key(head) <= key(tail[i]) {
      assert tail[i] in multiset(tail);
    }
  }

  lemma {:induction false} InsertSorts<T>(x: T, xs: seq<T>, key: T -> int)
    requires SortedBy(xs, key)
    ensures SortedBy(Insert(x, xs, key), key)
  {
    if xs != [] && key(x) > key(xs[0]) {
      InsertSorts(x, xs[1..], key);
      InsertPermutes(x, xs[1..], key);
      SortedCons(xs[0], Insert(x, xs[1..], key), x, xs[1..], key);
    }
  }

  lemma WithKeyCons<T>(x: T, xs: seq<T>, key: T -> int, v: int)
    ensures WithKey([x] + xs, key, v) == (if key(x) == v then [x] else []) + WithKey(xs, key, v)
  {
    assert ([x] + xs)[1..] == xs;
  }

  lemma {:induction false} InsertStable<T>(x: T, xs: seq<T>, key: T -> int, v: int)
    ensures WithKey(Insert(x, xs, key), key, v) == (if key(x) == v then [x] else []) + WithKey(xs, key, v)
  {
    if xs == [] || key(x) <= key(xs[0]) {
      WithKeyCons(x, xs, key, v);
    } else {
      InsertStable(x, xs[1..], key, v);
      WithKeyCons(xs[0], Insert(x, xs[1..], key), key, v);
    }
  }

  /** Sorting permutes, orders, and keeps the order of equal keys. */
  lemma {:induction false} SortByIsStableSort<T>(xs: seq<T>, key: T -> int)
    ensures SortedBy(SortBy(xs, key), key)
    ensures multiset(SortBy(xs, key)) == multiset(xs)
    ensures forall v :: WithKey(SortBy(xs, key), key, v) == WithKey(xs, key, v)
  {
    if xs != [] {
      var rest := SortBy(xs[1..], key);
      SortByIsStableSort(xs[1..], key);
      InsertSorts(xs[0], rest, key);
      InsertPermutes(xs[0], rest, key);
      assert xs == [xs[0]] + xs[1..];
      forall v ensures WithKey(SortBy(xs, key), key, v) == WithKey(xs, key, v) {
        InsertStable(xs[0], rest, key, v);
      }
    }
  }

  // ------------------------------------------------------------ distinct tags

  ghost predicate DistinctBy<T>(xs: seq<T>, tag: T -> string) {
    forall i, j :: 0 <= i < j < |xs| ==> tag(xs[i]) != tag(xs[j])
  }

  lemma TwiceMeansTwo<T>(s: seq<T>, i: nat, j: nat)
    requires i < j < |s| && s[i] == s[j]
    ensures multiset(s)[s[i]] >= 2
  {
    assert s == s[..j] + s[j..];
    assert multiset(s) == multiset(s[..j]) + multiset(s[j..]);
    assert s[..j][i] == s[i] && s[j..][0] == s[i];
    assert s[i] in multiset(s[..j]) && s[i] in multiset(s[j..]);
  }

  lemma {:induction false} DistinctMeansOnce<T>(xs: seq<T>, tag: T -> string, x: T)
    requires DistinctBy(xs, tag)
    ensures multiset(xs)[x] == if x in xs then 1 else 0
  {
    if xs != [] {
      DistinctMeansOnce(xs[1..], tag, x);
      assert xs == [xs[0]] + xs[1..];
      assert multiset(xs) == multiset{xs[0]} + multiset(xs[1..]);
      assert xs[0] !in xs[1..];
    }
  }

  /** Listings with distinct tags and the same members are permutations of each other. */
  lemma SameMembersPermute<T(!new)>(xs: seq<T>, ys: seq<T>, tag: T -> string)
    requires DistinctBy(xs, tag) && DistinctBy(ys, tag)
    requires forall x :: x in xs <==> x in ys
    ensures multiset(xs) == multiset(ys)
  {
    forall x ensures multiset(xs)[x] == multiset(ys)[x] {
      DistinctMeansOnce(xs, tag, x);
      DistinctMeansOnce(ys, tag, x);
    }
  }

  /** A permutation has the same members, and keeps distinct tags distinct. */
  lemma PermutationKeepsDistinct<T>(xs: seq<T>, ys: seq<T>, tag: T -> string)
    requires multiset(xs) == multiset(ys) && DistinctBy(xs, tag)
    ensures DistinctBy(ys, tag)
    ensures forall x :: x in ys <==> x in xs
  {
    assert forall x :: x in ys <==> x in multiset(ys);
    assert forall x :: x in xs <==> x in multiset(xs);
    forall i, j | 0 <= i < j < |ys| ensures tag(ys[i]) != tag(ys[j]) {
      if tag(ys[i]) == tag(ys[j]) {
        assert ys[i] in xs && ys[j] in xs;
        TwiceMeansTwo(ys, i, j);
        DistinctMeansOnce(xs, tag, ys[i]);
        assert false;
      }
    }
  }
}
