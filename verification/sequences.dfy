/**
 * Sequence helpers standing in for the JavaScript array operations the chat
 * service uses: `sort` with a numeric comparator, `sort()` on strings,
 * `Array.from(new Set(xs))`, and the key order of a snapshot's `forEach`.
 */
module Sequences {
  import opened Strings

  predicate Distinct<T(==)>(xs: seq<T>) {
    forall i, j :: 0 <= i < j < |xs| ==> xs[i] != xs[j]
  }

  /** `order` lists every key of `keys` exactly once: how a snapshot's `forEach` visits children. */
  predicate Enumerates<T(==)>(order: seq<T>, keys: set<T>) {
    Distinct(order) && (set k | k in order) == keys
  }

  /** A duplicate-free sequence has as many elements as its set. */
  lemma {:induction false} DistinctCardinality<T>(xs: seq<T>)
    requires Distinct(xs)
    ensures |set k | k in xs| == |xs|
  {
    if |xs| > 0 {
      var rest := xs[1..];
      DistinctCardinality(rest);
      assert (set k | k in xs) == (set k | k in rest) + {xs[0]};
      assert xs[0] !in rest by {
        forall i | 0 <= i < |rest| ensures rest[i] != xs[0] {
          assert rest[i] == xs[i + 1];
        }
      }
    }
  }

  lemma EnumeratesCardinality<T>(order: seq<T>, keys: set<T>)
    requires Enumerates(order, keys)
    ensures |order| == |keys|
  {
    DistinctCardinality(order);
  }

  // ---------------------------------------------------------------------
  // Sorting by an integer key (`xs.sort((a, b) => key(a) - key(b))`)
  // ---------------------------------------------------------------------

  /** Every element's key is at most the key of every later element. */
  predicate SortedBy<T>(xs: seq<T>, key: T -> int) {
    forall i, j :: 0 <= i < j < |xs| ==> key(xs[i]) <= key(xs[j])
  }

  /** Inserts `x` in front of the first element whose key is at least its own. */
  function InsertBy<T>(x: T, xs: seq<T>, key: T -> int): (r: seq<T>)
    requires SortedBy(xs, key)
    ensures SortedBy(r, key)
    ensures multiset(r) == multiset(xs) + multiset{x}
    ensures |r| > 0 && (r[0] == x || (|xs| > 0 && r[0] == xs[0]))
  {
    if |xs| == 0 then [x]
    else if key(x) <= key(xs[0]) then [x] + xs
    else
      var rest := InsertBy(x, xs[1..], key);
      assert xs == [xs[0]] + xs[1..];
      assert key(xs[0]) <= key(rest[0]);
      [xs[0]] + rest
  }

  /** Insertion sort; elements with equal keys keep their relative order, as with `Array.prototype.sort`. */
  function SortBy<T>(xs: seq<T>, key: T -> int): (r: seq<T>)
    ensures SortedBy(r, key)
    ensures multiset(r) == multiset(xs)
    ensures |r| == |xs|
  {
    if |xs| == 0 then []
    else
      assert xs == [xs[0]] + xs[1..];
      InsertBy(xs[0], SortBy(xs[1..], key), key)
  }

  /** No two elements share an `id`. */
  predicate DistinctBy<T, K(==)>(xs: seq<T>, id: T -> K) {
    forall i, j :: 0 <= i < j < |xs| ==> id(xs[i]) != id(xs[j])
  }

  /** Reordering keeps ids duplicate-free: what sorting a list of keyed records relies on. */
  lemma DistinctByPermutation<T, K>(xs: seq<T>, ys: seq<T>, id: T -> K)
    requires DistinctBy(xs, id)
    requires multiset(ys) == multiset(xs)
    ensures DistinctBy(ys, id)
  {
    forall i, j | 0 <= i < j < |ys| ensures id(ys[i]) != id(ys[j]) {
      if id(ys[i]) == id(ys[j]) {
        assert ys[i] in multiset(xs) && ys[j] in multiset(xs);
        var a :| 0 <= a < |xs| && xs[a] == ys[i];
        var b :| 0 <= b < |xs| && xs[b] == ys[j];
        assert a == b;
        OccursAtMostOnce(xs, id, ys[i]);
        OccursTwice(ys, i, j);
        assert false;
      }
    }
  }

  /** A reordering has the same members. */
  lemma PermutationSameMembers<T>(xs: seq<T>, ys: seq<T>)
    requires multiset(ys) == multiset(xs)
    ensures forall e :: e in ys <==> e in xs
  {
    forall e ensures e in ys <==> e in xs {
      assert e in ys <==> e in multiset(ys);
      assert e in xs <==> e in multiset(xs);
    }
  }

  /** With duplicate-free ids every element occurs at most once. */
  lemma {:induction false} OccursAtMostOnce<T, K>(xs: seq<T>, id: T -> K, v: T)
    requires DistinctBy(xs, id)
    ensures multiset(xs)[v] <= 1
  {
    if |xs| > 0 {
      var rest := xs[1..];
      OccursAtMostOnce(rest, id, v);
      assert xs == [xs[0]] + rest;
      if xs[0] == v {
        assert v !in rest by {
          forall k | 0 <= k < |rest| ensures rest[k] != v {
            assert rest[k] == xs[k + 1];
          }
        }
      }
    }
  }

  /** An element found at two positions occurs at least twice. */
  lemma OccursTwice<T>(ys: seq<T>, i: int, j: int)
    requires 0 <= i < j < |ys| && ys[i] == ys[j]
    ensures multiset(ys)[ys[i]] >= 2
  {
    assert ys == ys[..i] + ys[i..j] + ys[j..];
    assert ys[i..j][0] == ys[i] && ys[j..][0] == ys[j];
  }

  // ---------------------------------------------------------------------
  // Sorting strings (`xs.sort()` with no comparator)
  // ---------------------------------------------------------------------

  /** Adjacent elements are in lexicographic order. */
  predicate SortedStrings(xs: seq<string>) {
    forall i :: 0 < i < |xs| ==> StrLe(xs[i - 1], xs[i])
  }

  function InsertString(x: string, xs: seq<string>): (r: seq<string>)
    requires SortedStrings(xs)
    ensures SortedStrings(r)
    ensures multiset(r) == multiset(xs) + multiset{x}
    ensures |r| > 0 && (r[0] == x || (|xs| > 0 && r[0] == xs[0]))
  {
    if |xs| == 0 then [x]
    else if StrLe(x, xs[0]) then [x] + xs
    else
      StrLeTotal(x, xs[0]);
      assert xs == [xs[0]] + xs[1..];
      [xs[0]] + InsertString(x, xs[1..])
  }

  /** Insertion sort of strings in lexicographic order. */
  function SortStrings(xs: seq<string>): (r: seq<string>)
    ensures SortedStrings(r)
    ensures multiset(r) == multiset(xs)
  {
    if |xs| == 0 then []
    else
      assert xs == [xs[0]] + xs[1..];
      InsertString(xs[0], SortStrings(xs[1..]))
  }

  // ---------------------------------------------------------------------
  // `Array.from(new Set(xs))`
  // ---------------------------------------------------------------------

  /** Keeps the first occurrence of every element, in order of first appearance. */
  function Dedup<T(==)>(xs: seq<T>): (r: seq<T>)
    ensures Distinct(r)
    ensures (set x | x in r) == (set x | x in xs)
  {
    if |xs| == 0 then []
    else
      var init := xs[..|xs| - 1];
      var d := Dedup(init);
      var last := xs[|xs| - 1];
      assert xs == init + [last];
      assert (set x | x in xs) == (set x | x in init) + {last};
      if last in d then d
      else
        assert (set x | x in d + [last]) == (set x | x in d) + {last};
        d + [last]
  }

  /** Deduplicating a sequence that already has no duplicates leaves it as it is. */
  lemma {:induction false} DedupOfDistinct<T>(xs: seq<T>)
    requires Distinct(xs)
    ensures Dedup(xs) == xs
  {
    if |xs| > 0 {
      var init := xs[..|xs| - 1];
      DedupOfDistinct(init);
      assert xs[|xs| - 1] !in init by {
        forall i | 0 <= i < |init| ensures init[i] != xs[|xs| - 1] {
        }
      }
      assert xs == init + [xs[|xs| - 1]];
    }
  }

  /** Appending elements never disturbs the deduplicated prefix. */
  lemma {:induction false} DedupPrefix<T>(xs: seq<T>, ys: seq<T>)
    ensures |Dedup(xs)| <= |Dedup(xs + ys)|
    ensures Dedup(xs + ys)[..|Dedup(xs)|] == Dedup(xs)
    decreases |ys|
  {
    if |ys| == 0 {
      assert xs + ys == xs;
    } else {
      var init := ys[..|ys| - 1];
      DedupPrefix(xs, init);
      assert (xs + ys)[..|xs + ys| - 1] == xs + init;
    }
  }
}
