/** Sequence helpers with Python meanings: `dict.fromkeys` de-duplication,
    string ordering, `sorted` of a set of strings and the stable `sorted(..., key=...)`. */
module Seqs {

  predicate NoDup<T(==)>(s: seq<T>) {
    forall i, j :: 0 <= i < j < |s| ==> s[i] != s[j]
  }

  /** A sequence without duplicates has as many elements as its set. */
  lemma {:induction false} NoDupCardinality<T>(s: seq<T>)
    requires NoDup(s)
    ensures |set x | x in s| == |s|
    decreases |s|
  {
    if s != [] {
      var p := s[..|s| - 1];
      var y := s[|s| - 1];
      NoDupCardinality(p);
      assert s == p + [y];
      assert y !in p;
      assert (set x | x in s) == (set x | x in p) + {y};
    }
  }

  /** Concatenation is associative. Stated as a lemma so that proofs about
      sequences of strings can use it without element-wise reasoning. */
  lemma AppendAssoc<T>(a: seq<T>, b: seq<T>, c: seq<T>)
    ensures a + b + c == a + (b + c)
  {
  }

  /** The empty sequence is a unit of concatenation. */
  lemma AppendEmpty<T>(a: seq<T>)
    ensures [] + a == a && a + [] == a
  {
  }

  lemma ConsOfTail<T>(s: seq<T>)
    requires s != []
    ensures [s[0]] + s[1..] == s
  {
  }

  lemma TakeStep<T>(s: seq<T>, i: nat)
    requires i < |s|
    ensures s[..i + 1] == s[..i] + [s[i]]
  {
  }

  lemma TakeOfTake<T>(s: seq<T>, i: nat)
    requires i < |s|
    ensures s[..i + 1][..i] == s[..i]
  {
  }

  /** The three parts of a concatenation can be sliced back out. */
  lemma ConcatParts<T>(a: seq<T>, b: seq<T>, c: seq<T>)
    ensures (a + b + c)[..|a|] == a
    ensures (a + b + c)[|a|..|a| + |b|] == b
    ensures (a + b + c)[|a| + |b|..] == c
  {
  }

  lemma DropConcat<T>(a: seq<T>, b: seq<T>, k: nat)
    requires k <= |b|
    ensures (a + b)[|a| + k..] == b[k..]
  {
  }

  /** Appending the image of the next element keeps `ys` the pointwise image
      of a prefix of `xs`. */
  lemma SnocPointwise<A, B>(xs: seq<A>, ys: seq<B>, y: B, f: A -> B)
    requires |ys| < |xs| && y == f(xs[|ys|])
    requires forall k :: 0 <= k < |ys| ==> ys[k] == f(xs[k])
    ensures forall k :: 0 <= k < |ys| + 1 ==> (ys + [y])[k] == f(xs[k])
  {
  }

  /** A property of every element of two sequences holds of every element of their concatenation. */
  lemma AllOfAppend<T>(a: seq<T>, b: seq<T>, p: T -> bool)
    requires forall k :: 0 <= k < |a| ==> p(a[k])
    requires forall k :: 0 <= k < |b| ==> p(b[k])
    ensures forall k :: 0 <= k < |a + b| ==> p((a + b)[k])
  {
  }

  lemma FirstIsMember<T>(s: seq<T>)
    requires s != []
    ensures s[0] in s
  {
  }

  /** Index of the first occurrence of `x` in `s`. */
  function IndexOf<T(==)>(s: seq<T>, x: T): (k: nat)
    requires x in s
    ensures k < |s| && s[k] == x
    ensures forall j :: 0 <= j < k ==> s[j] != x
    decreases |s|
  {
    if s[0] == x then 0 else 1 + IndexOf(s[1..], x)
  }

  lemma {:induction false} IndexOfPrefix<T>(p: seq<T>, y: T, x: T)
    requires x in p
    ensures IndexOf(p + [y], x) == IndexOf(p, x)
    decreases |p|
  {
    if p[0] != x {
      assert (p + [y])[1..] == p[1..] + [y];
      IndexOfPrefix(p[1..], y, x);
    }
  }

  /** `list(dict.fromkeys(s))`: each element once, where it first occurs. */
  function Dedup<T(==,!new)>(s: seq<T>): (r: seq<T>)
    ensures NoDup(r)
    ensures forall x :: x in r <==> x in s
    decreases |s|
  {
    if s == [] then []
    else
      var p := s[..|s| - 1];
      var d := Dedup(p);
      assert s == p + [s[|s| - 1]];
      if s[|s| - 1] in d then d else d + [s[|s| - 1]]
  }

  /** De-duplication keeps first occurrences in their original order. */
  lemma {:induction false} DedupFirstOccurrenceOrder<T(!new)>(s: seq<T>)
    ensures forall i, j :: 0 <= i < j < |Dedup(s)| ==> IndexOf(s, Dedup(s)[i]) < IndexOf(s, Dedup(s)[j])
    decreases |s|
  {
    if s != [] {
      var p := s[..|s| - 1];
      var y := s[|s| - 1];
      assert s == p + [y];
      DedupFirstOccurrenceOrder(p);
      var d := Dedup(p);
      forall x | x in d ensures IndexOf(s, x) == IndexOf(p, x) {
        IndexOfPrefix(p, y, x);
      }
      if y !in d {
        assert Dedup(s) == d + [y];
        assert IndexOf(s, y) == |p|;
      }
    }
  }

  /** A sequence without duplicates is its own de-duplication. */
  lemma {:induction false} DedupOfNoDup<T(!new)>(s: seq<T>)
    requires NoDup(s)
    ensures Dedup(s) == s
    decreases |s|
  {
    if s != [] {
      var p := s[..|s| - 1];
      DedupOfNoDup(p);
      assert s == p + [s[|s| - 1]];
    }
  }

  /** De-duplicating one more element: it is kept only when it is new. */
  lemma DedupSnoc<T(!new)>(s: seq<T>, x: T)
    ensures Dedup(s + [x]) == if x in s then Dedup(s) else Dedup(s) + [x]
  {
    assert (s + [x])[..|s|] == s;
  }

  /** De-duplicating one more element of `s`, as a loop over `s` does. */
  lemma DedupStep<T(!new)>(s: seq<T>, i: nat)
    requires i < |s|
    ensures Dedup(s[..i + 1]) == if s[i] in Dedup(s[..i]) then Dedup(s[..i]) else Dedup(s[..i]) + [s[i]]
  {
    assert s[..i + 1] == s[..i] + [s[i]];
    DedupSnoc(s[..i], s[i]);
  }

  /** De-duplication of a longer sequence begins with that of its prefix. */
  lemma {:induction false} DedupAppendPrefix<T(!new)>(a: seq<T>, b: seq<T>)
    ensures |Dedup(a)| <= |Dedup(a + b)| && Dedup(a + b)[..|Dedup(a)|] == Dedup(a)
    decreases |b|
  {
    if b == [] {
      assert a + b == a;
    } else {
      var p := b[..|b| - 1];
      DedupAppendPrefix(a, p);
      AppendAssoc(a, p, [b[|b| - 1]]);
      assert p + [b[|b| - 1]] == b;
      DedupSnoc(a + p, b[|b| - 1]);
    }
  }

  function Flatten<T>(xss: seq<seq<T>>): seq<T>
    decreases |xss|
  {
    if xss == [] then [] else Flatten(xss[..|xss| - 1]) + xss[|xss| - 1]
  }

  // ---------------------------------------------------------- string order

  /** Python's `<` on strings: lexicographic by code point, a proper prefix first. */
  predicate StrLt(a: string, b: string)
    decreases |a|
  {
    if a == [] then b != []
    else if b == [] then false
    else if a[0] != b[0] then a[0] < b[0]
    else StrLt(a[1..], b[1..])
  }

  lemma {:induction false} StrLtIrreflexive(a: string)
    ensures !StrLt(a, a)
    decreases |a|
  {
    if a != [] {
      StrLtIrreflexive(a[1..]);
    }
  }

  lemma {:induction false} StrLtTransitive(a: string, b: string, c: string)
    requires StrLt(a, b) && StrLt(b, c)
    ensures StrLt(a, c)
    decreases |a|
  {
    if a != [] && b != [] && c != [] && a[0] == b[0] && b[0] == c[0] {
      StrLtTransitive(a[1..], b[1..], c[1..]);
    }
  }

  lemma {:induction false} StrLtTotal(a: string, b: string)
    ensures a == b || StrLt(a, b) || StrLt(b, a)
    decreases |a|
  {
    if a != [] && b != [] && a[0] == b[0] {
      StrLtTotal(a[1..], b[1..]);
      if a[1..] == b[1..] {
        assert a == [a[0]] + a[1..] && b == [b[0]] + b[1..];
      }
    }
  }

  lemma StrLtAsymmetric(a: string, b: string)
    requires StrLt(a, b)
    ensures !StrLt(b, a)
  {
    if StrLt(b, a) {
      StrLtTransitive(a, b, a);
      StrLtIrreflexive(a);
    }
  }

  predicate StrictlySorted(s: seq<string>) {
    forall i, j :: 0 <= i < j < |s| ==> StrLt(s[i], s[j])
  }

  lemma StrictlySortedNoDup(s: seq<string>)
    requires StrictlySorted(s)
    ensures NoDup(s)
  {
    forall i, j | 0 <= i < j < |s| ensures s[i] != s[j] {
      StrLtIrreflexive(s[i]);
    }
  }

  /** Insert `x` into a strictly sorted sequence that lacks it. */
  function InsertSorted(r: seq<string>, x: string): seq<string>
    decreases |r|
  {
    if r == [] then [x]
    else if StrLt(x, r[0]) then [x] + r
    else [r[0]] + InsertSorted(r[1..], x)
  }

  lemma {:induction false} InsertSortedProps(r: seq<string>, x: string)
    requires StrictlySorted(r) && x !in r
    ensures StrictlySorted(InsertSorted(r, x))
    ensures forall y :: y in InsertSorted(r, x) <==> y in r || y == x
    decreases |r|
  {
    if r != [] {
      if StrLt(x, r[0]) {
        forall j | 0 <= j < |r| ensures StrLt(x, r[j]) {
          if j > 0 {
            StrLtTransitive(x, r[0], r[j]);
          }
        }
      } else {
        InsertSortedProps(r[1..], x);
        StrLtTotal(x, r[0]);
        var t := InsertSorted(r[1..], x);
        assert InsertSorted(r, x) == [r[0]] + t;
        forall j | 0 <= j < |t| ensures StrLt(r[0], t[j]) {
          assert t[j] in r[1..] || t[j] == x;
        }
      }
    }
  }

  /** `sorted(s)` for a set of strings: the unique strictly increasing listing of it. */
  method SortSet(s: set<string>) returns (r: seq<string>)
    ensures StrictlySorted(r)
    ensures forall y :: y in r <==> y in s
  {
    r := [];
    var rest := s;
    while rest != {}
      invariant StrictlySorted(r)
      invariant forall y :: y in r <==> y in s && y !in rest
      invariant rest <= s
      decreases rest
    {
      var x :| x in rest;
      InsertSortedProps(r, x);
      r := InsertSorted(r, x);
      rest := rest - {x};
    }
  }

  /** Two strictly sorted listings of the same strings are equal, so sorting is determined by the set. */
  lemma {:induction false} StrictlySortedUnique(a: seq<string>, b: seq<string>)
    requires StrictlySorted(a) && StrictlySorted(b)
    requires forall y :: y in a <==> y in b
    ensures a == b
    decreases |a|
  {
    SameElementsEmpty(a, b);
    if a != [] && b != [] {
      assert a[0] in a && b[0] in b;
      SortedHeadIsLeast(a, b[0]);
      SortedHeadIsLeast(b, a[0]);
      if StrLt(a[0], b[0]) {
        StrLtAsymmetric(a[0], b[0]);
      }
      forall y ensures y in a[1..] <==> y in b[1..] {
        if y in a[1..] {
          var i :| 1 <= i < |a| && a[i] == y;
          StrLtIrreflexive(a[0]);
          assert y in a;
          assert y in b;
          var j :| 0 <= j < |b| && b[j] == y;
          assert j != 0;
          assert b[1..][j - 1] == y;
        }
        if y in b[1..] {
          var i :| 1 <= i < |b| && b[i] == y;
          StrLtIrreflexive(b[0]);
          assert y in b;
          assert y in a;
          var j :| 0 <= j < |a| && a[j] == y;
          assert j != 0;
          assert a[1..][j - 1] == y;
        }
      }
      StrictlySortedUnique(a[1..], b[1..]);
      assert a == [a[0]] + a[1..] && b == [b[0]] + b[1..];
    }
  }

  lemma SameElementsEmpty<T>(a: seq<T>, b: seq<T>)
    requires forall y :: y in a <==> y in b
    ensures a == [] <==> b == []
  {
    if a != [] {
      assert a[0] in a;
    }
    if b != [] {
      assert b[0] in b;
    }
  }

  lemma SortedHeadIsLeast(a: seq<string>, y: string)
    requires StrictlySorted(a) && y in a
    ensures y == a[0] || StrLt(a[0], y)
  {
  }

  // ------------------------------------------------------ stable sort by key

  /** Non-decreasing by key. */
  predicate SortedByKey<T>(s: seq<T>, key: T -> string) {
    forall i, j :: 0 <= i < j < |s| ==> !StrLt(key(s[j]), key(s[i]))
  }

  /** Insert `x` after every element whose key is not greater than its own. */
  function InsertByKey<T>(r: seq<T>, x: T, key: T -> string): seq<T>
    decreases |r|
  {
    if r == [] then [x]
    else if StrLt(key(x), key(r[0])) then [x] + r
    else [r[0]] + InsertByKey(r[1..], x, key)
  }

  /** `sorted(s, key=key)`: Python's sort is stable, as insertion sort is. */
  function SortByKey<T>(s: seq<T>, key: T -> string): seq<T>
    decreases |s|
  {
    if s == [] then [] else InsertByKey(SortByKey(s[..|s| - 1], key), s[|s| - 1], key)
  }

  /** The elements of `s` whose key is `k`, in order. */
  function WithKey<T>(s: seq<T>, key: T -> string, k: string): seq<T>
    decreases |s|
  {
    if s == [] then [] else (if key(s[0]) == k then [s[0]] else []) + WithKey(s[1..], key, k)
  }

  lemma {:induction false} WithKeyAppend<T>(s: seq<T>, x: T, key: T -> string, k: string)
    ensures WithKey(s + [x], key, k) == WithKey(s, key, k) + (if key(x) == k then [x] else [])
    decreases |s|
  {
    if s != [] {
      assert (s + [x])[1..] == s[1..] + [x];
      WithKeyAppend(s[1..], x, key, k);
    }
  }

  lemma {:induction false} InsertByKeyMultiset<T>(r: seq<T>, x: T, key: T -> string)
    ensures multiset(InsertByKey(r, x, key)) == multiset(r) + multiset{x}
    decreases |r|
  {
    if r != [] {
      assert r == [r[0]] + r[1..];
      if !StrLt(key(x), key(r[0])) {
        InsertByKeyMultiset(r[1..], x, key);
      }
    }
  }

  /** Insertion puts `x` after the elements that share its key. */
  lemma {:induction false} InsertByKeyStable<T>(r: seq<T>, x: T, key: T -> string, k: string)
    requires SortedByKey(r, key)
    ensures WithKey(InsertByKey(r, x, key), key, k) == WithKey(r, key, k) + (if key(x) == k then [x] else [])
    decreases |r|
  {
    var tail := if key(x) == k then [x] else [];
    if r == [] {
      assert WithKey([x], key, k) == tail + WithKey([], key, k);
    } else if StrLt(key(x), key(r[0])) {
      assert InsertByKey(r, x, key) == [x] + r;
      assert ([x] + r)[1..] == r;
      assert WithKey([x] + r, key, k) == tail + WithKey(r, key, k);
      if key(x) == k {
        NoneWithKey(r, key, k);
      }
    } else {
      var rest := InsertByKey(r[1..], x, key);
      assert InsertByKey(r, x, key) == [r[0]] + rest;
      assert ([r[0]] + rest)[1..] == rest;
      var head := if key(r[0]) == k then [r[0]] else [];
      assert WithKey([r[0]] + rest, key, k) == head + WithKey(rest, key, k);
      InsertByKeyStable(r[1..], x, key, k);
      assert WithKey(r, key, k) == head + WithKey(r[1..], key, k);
    }
  }

  /** In a key-sorted sequence whose first key is above `k`, no element has key `k`. */
  lemma {:induction false} NoneWithKey<T>(r: seq<T>, key: T -> string, k: string)
    requires SortedByKey(r, key) && r != [] && StrLt(k, key(r[0]))
    ensures WithKey(r, key, k) == []
    decreases |r|
  {
    if key(r[0]) == k {
      StrLtIrreflexive(k);
    }
    if |r| > 1 {
      if StrLt(key(r[1]), k) || key(r[1]) == k {
        if key(r[1]) != k {
          StrLtTransitive(key(r[1]), k, key(r[0]));
        }
      }
      StrLtTotal(key(r[1]), k);
      NoneWithKey(r[1..], key, k);
    }
  }

  /** Sorting by key yields a non-decreasing permutation of the input. */
  lemma {:induction false} SortByKeyProps<T>(s: seq<T>, key: T -> string)
    ensures SortedByKey(SortByKey(s, key), key)
    ensures multiset(SortByKey(s, key)) == multiset(s)
    decreases |s|
  {
    if s != [] {
      var p := s[..|s| - 1];
      SortByKeyProps(p, key);
      InsertByKeySortedOnly(SortByKey(p, key), s[|s| - 1], key);
      InsertByKeyMultiset(SortByKey(p, key), s[|s| - 1], key);
      assert s == p + [s[|s| - 1]];
    }
  }

  /** Stability: elements with equal keys keep their relative input order. */
  lemma {:induction false} SortByKeyStable<T>(s: seq<T>, key: T -> string, k: string)
    ensures WithKey(SortByKey(s, key), key, k) == WithKey(s, key, k)
    decreases |s|
  {
    if s != [] {
      var p := s[..|s| - 1];
      SortByKeyStable(p, key, k);
      SortByKeySorted(p, key);
      InsertByKeyStable(SortByKey(p, key), s[|s| - 1], key, k);
      WithKeyAppend(p, s[|s| - 1], key, k);
      assert s == p + [s[|s| - 1]];
    }
  }

  lemma {:induction false} SortByKeySorted<T>(s: seq<T>, key: T -> string)
    ensures SortedByKey(SortByKey(s, key), key)
    decreases |s|
  {
    if s != [] {
      var p := s[..|s| - 1];
      SortByKeySorted(p, key);
      InsertByKeySortedOnly(SortByKey(p, key), s[|s| - 1], key);
    }
  }

  lemma {:induction false} InsertByKeySortedOnly<T>(r: seq<T>, x: T, key: T -> string)
    requires SortedByKey(r, key)
    ensures SortedByKey(InsertByKey(r, x, key), key)
    ensures forall y :: y in InsertByKey(r, x, key) ==> y in r || y == x
    decreases |r|
  {
    if r != [] {
      if StrLt(key(x), key(r[0])) {
        forall j | 0 <= j < |r| ensures !StrLt(key(r[j]), key(x)) {
          if StrLt(key(r[j]), key(x)) {
            StrLtTransitive(key(r[j]), key(x), key(r[0]));
            if j == 0 {
              StrLtIrreflexive(key(r[0]));
            }
          }
        }
      } else {
        InsertByKeySortedOnly(r[1..], x, key);
        var t := InsertByKey(r[1..], x, key);
        assert InsertByKey(r, x, key) == [r[0]] + t;
        forall j | 0 <= j < |t| ensures !StrLt(key(t[j]), key(r[0])) {
          assert t[j] in r[1..] || t[j] == x;
        }
      }
    }
  }

  // ------------------------------------------------------------------- maps

  /** Maps with the same keys and the same value at each key are equal. */
  lemma MapsEqual<K, V>(a: map<K, V>, b: map<K, V>)
    requires forall k :: k in a <==> k in b
    requires forall k :: k in a ==> a[k] == b[k]
    ensures a == b
  {
  }
}
