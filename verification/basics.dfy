/** Small generic building blocks shared by every module: an optional value,
    order-preserving filtering and the two de-duplication disciplines the
    pipeline uses (keep the first occurrence, keep the last occurrence). */
module Basics {

  /** Python's `None`-or-value, also used for absent dictionary keys. */
  datatype Option<+T> = None | Some(value: T) {
    function GetOr(default: T): T {
      match this
      case Some(v) => v
      case None => default
    }
  }

  /** `a` can be obtained from `b` by deleting elements (relative order kept). */
  ghost predicate IsSubsequence<T>(a: seq<T>, b: seq<T>)
    decreases |b|
  {
    if a == [] then true
    else if b == [] then false
    else (a[0] == b[0] && IsSubsequence(a[1..], b[1..])) || IsSubsequence(a, b[1..])
  }

  lemma {:induction false} SubsequenceRefl<T>(s: seq<T>)
    ensures IsSubsequence(s, s)
    decreases |s|
  {
    if s != [] {
      SubsequenceRefl(s[1..]);
    }
  }

  /** Every element of a subsequence is an element of the whole. */
  lemma {:induction false} SubsequenceWithin<T>(a: seq<T>, b: seq<T>)
    requires IsSubsequence(a, b)
    ensures forall x :: x in a ==> x in b
    decreases |b|
  {
    if a != [] {
      if a[0] == b[0] && IsSubsequence(a[1..], b[1..]) {
        SubsequenceWithin(a[1..], b[1..]);
        assert forall x :: x in a ==> x == a[0] || x in a[1..];
      } else {
        SubsequenceWithin(a, b[1..]);
      }
      assert forall x :: x in b[1..] ==> x in b;
    }
  }

  /** A subsequence of a sequence with distinct keys has distinct keys. */
  lemma {:induction false} SubsequenceDistinct<T, K>(a: seq<T>, b: seq<T>, key: T -> K)
    requires IsSubsequence(a, b) && DistinctKeys(b, key)
    ensures DistinctKeys(a, key)
    decreases |b|
  {
    if a != [] {
      assert DistinctKeys(b[1..], key) by {
        assert forall i :: 0 <= i < |b| - 1 ==> b[1..][i] == b[i + 1];
      }
      if a[0] == b[0] && IsSubsequence(a[1..], b[1..]) {
        SubsequenceDistinct(a[1..], b[1..], key);
        SubsequenceWithin(a[1..], b[1..]);
        forall i, j | 0 <= i < j < |a| ensures key(a[i]) != key(a[j]) {
          if i == 0 {
            assert a[j] in a[1..] by { assert a[j] == a[1..][j - 1]; }
            var m :| 0 <= m < |b| - 1 && b[1..][m] == a[j];
            assert b[m + 1] == a[j];
          } else {
            assert a[i] == a[1..][i - 1] && a[j] == a[1..][j - 1];
          }
        }
      } else {
        SubsequenceDistinct(a, b[1..], key);
      }
    }
  }

  /** The list comprehension `[x for x in s if f(x)]`. */
  function Filter<T(!new)>(s: seq<T>, f: T -> bool): (r: seq<T>)
    ensures |r| <= |s|
    ensures forall x :: multiset(r)[x] == if f(x) then multiset(s)[x] else 0
    ensures forall x :: x in r <==> x in s && f(x)
    ensures IsSubsequence(r, s)
  {
    if s == [] then []
    else
      assert s == [s[0]] + s[1..];
      var rest := Filter(s[1..], f);
      if f(s[0]) then [s[0]] + rest else rest
  }

  /** Some element of `s` carries key `k`. */
  ghost predicate HasKey<T, K>(s: seq<T>, key: T -> K, k: K) {
    exists i :: 0 <= i < |s| && key(s[i]) == k
  }

  /** No two elements of `s` share a key. */
  ghost predicate DistinctKeys<T, K>(s: seq<T>, key: T -> K) {
    forall i, j :: 0 <= i < j < |s| ==> key(s[i]) != key(s[j])
  }

  /** First-wins de-duplication with a `seen` set, as in a loop that skips
      every element whose key was already seen and records the rest. */
  function DedupFirst<T, K(==)>(s: seq<T>, key: T -> K, seen: set<K>): (r: seq<T>)
    ensures IsSubsequence(r, s)
    ensures DistinctKeys(r, key)
    ensures forall i :: 0 <= i < |r| ==> key(r[i]) !in seen
    decreases |s|
  {
    if s == [] then []
    else if key(s[0]) in seen then DedupFirst(s[1..], key, seen)
    else
      var rest := DedupFirst(s[1..], key, seen + {key(s[0])});
      var r := [s[0]] + rest;
      assert forall i :: 1 <= i < |r| ==> r[i] == rest[i - 1];
      r
  }

  /** Every key of `s` that was not already seen survives de-duplication. */
  lemma {:induction false} DedupFirstCovers<T, K>(s: seq<T>, key: T -> K, seen: set<K>, k: K)
    requires HasKey(s, key, k) && k !in seen
    ensures HasKey(DedupFirst(s, key, seen), key, k)
    decreases |s|
  {
    var r := DedupFirst(s, key, seen);
    if key(s[0]) == k {
      assert r[0] == s[0];
    } else {
      var i :| 0 <= i < |s| && key(s[i]) == k;
      assert key(s[1..][i - 1]) == k;
      if key(s[0]) in seen {
        DedupFirstCovers(s[1..], key, seen, k);
      } else {
        DedupFirstCovers(s[1..], key, seen + {key(s[0])}, k);
        var rest := DedupFirst(s[1..], key, seen + {key(s[0])});
        var j :| 0 <= j < |rest| && key(rest[j]) == k;
        assert r[j + 1] == rest[j];
      }
    }
  }

  /** The survivor of a key under first-wins de-duplication is its first
      occurrence: it is an element of `s` and no earlier element shares its key. */
  lemma {:induction false} DedupFirstKeepsFirst<T, K>(s: seq<T>, key: T -> K, seen: set<K>, n: nat)
    requires n < |DedupFirst(s, key, seen)|
    ensures exists i :: 0 <= i < |s| && s[i] == DedupFirst(s, key, seen)[n] &&
              forall j :: 0 <= j < i ==> key(s[j]) != key(s[i])
    decreases |s|
  {
    var r := DedupFirst(s, key, seen);
    var x := r[n];
    if key(s[0]) in seen {
      DedupFirstKeepsFirst(s[1..], key, seen, n);
      var i :| 0 <= i < |s| - 1 && s[1..][i] == x &&
               forall j :: 0 <= j < i ==> key(s[1..][j]) != key(s[1..][i]);
      assert key(x) !in seen;
      assert s[i + 1] == x;
      forall j | 0 <= j < i + 1 ensures key(s[j]) != key(x) {
        if j > 0 { assert s[j] == s[1..][j - 1]; }
      }
    } else if n == 0 {
      assert s[0] == x;
    } else {
      var rest := DedupFirst(s[1..], key, seen + {key(s[0])});
      assert x == rest[n - 1];
      DedupFirstKeepsFirst(s[1..], key, seen + {key(s[0])}, n - 1);
      var i :| 0 <= i < |s| - 1 && s[1..][i] == x &&
               forall j :: 0 <= j < i ==> key(s[1..][j]) != key(s[1..][i]);
      assert key(x) != key(s[0]);
      assert s[i + 1] == x;
      forall j | 0 <= j < i + 1 ensures key(s[j]) != key(x) {
        if j > 0 { assert s[j] == s[1..][j - 1]; }
      }
    }
  }

  /** Last-wins de-duplication: an element survives only if no later element
      shares its key (pandas `drop_duplicates(keep='last')`). */
  function DedupLast<T, K(==)>(s: seq<T>, key: T -> K): (r: seq<T>)
    ensures IsSubsequence(r, s)
    ensures DistinctKeys(r, key)
    ensures forall i :: 0 <= i < |r| ==> HasKey(s, key, key(r[i]))
    decreases |s|
  {
    if s == [] then []
    else
      var rest := DedupLast(s[1..], key);
      assert forall i :: 0 <= i < |rest| ==> HasKey(s, key, key(rest[i])) by {
        forall i | 0 <= i < |rest| ensures HasKey(s, key, key(rest[i])) {
          var m :| 0 <= m < |s| - 1 && key(s[1..][m]) == key(rest[i]);
          assert key(s[m + 1]) == key(rest[i]);
        }
      }
      if exists m :: 1 <= m < |s| && key(s[m]) == key(s[0]) then rest
      else
        var r := [s[0]] + rest;
        assert forall i :: 1 <= i < |r| ==> r[i] == rest[i - 1];
        forall i | 0 <= i < |rest| ensures key(rest[i]) != key(s[0]) {
          var m :| 0 <= m < |s| - 1 && key(s[1..][m]) == key(rest[i]);
          assert key(s[m + 1]) == key(rest[i]);
        }
        r
  }

  /** Every key of `s` survives last-wins de-duplication. */
  lemma {:induction false} DedupLastCovers<T, K>(s: seq<T>, key: T -> K, k: K)
    requires HasKey(s, key, k)
    ensures HasKey(DedupLast(s, key), key, k)
    decreases |s|
  {
    var r := DedupLast(s, key);
    var rest := DedupLast(s[1..], key);
    var i :| 0 <= i < |s| && key(s[i]) == k;
    if i > 0 {
      assert key(s[1..][i - 1]) == k;
      DedupLastCovers(s[1..], key, k);
      var j :| 0 <= j < |rest| && key(rest[j]) == k;
      if r != rest { assert r[j + 1] == rest[j]; }
    } else if exists m :: 1 <= m < |s| && key(s[m]) == key(s[0]) {
      var m :| 1 <= m < |s| && key(s[m]) == key(s[0]);
      assert key(s[1..][m - 1]) == k;
      DedupLastCovers(s[1..], key, k);
    } else {
      assert r[0] == s[0];
    }
  }

  /** Every survivor of last-wins de-duplication is the last element of `s`
      carrying its key. */
  lemma {:induction false} DedupLastKeepsLast<T, K>(s: seq<T>, key: T -> K, n: nat)
    requires n < |DedupLast(s, key)|
    ensures exists i :: 0 <= i < |s| && s[i] == DedupLast(s, key)[n] &&
              forall j :: i < j < |s| ==> key(s[j]) != key(s[i])
    decreases |s|
  {
    var r := DedupLast(s, key);
    var rest := DedupLast(s[1..], key);
    var x := r[n];
    if r == rest || n > 0 {
      var n' := if r == rest then n else n - 1;
      assert x == rest[n'];
      DedupLastKeepsLast(s[1..], key, n');
      var i :| 0 <= i < |s| - 1 && s[1..][i] == x &&
               forall j :: i < j < |s| - 1 ==> key(s[1..][j]) != key(s[1..][i]);
      assert s[i + 1] == x;
      forall j | i + 1 < j < |s| ensures key(s[j]) != key(x) {
        assert s[j] == s[1..][j - 1];
      }
    } else {
      assert x == s[0];
      assert !exists m :: 1 <= m < |s| && key(s[m]) == key(s[0]);
    }
  }

  /** The first element of `s` carrying key `k`, if any. */
  function FirstWithKey<T, K(==)>(s: seq<T>, key: T -> K, k: K): (r: Option<T>)
    ensures r.None? <==> !HasKey(s, key, k)
    ensures r.Some? ==> key(r.value) == k && exists i :: (0 <= i < |s| && s[i] == r.value &&
              forall j :: 0 <= j < i ==> key(s[j]) != k)
    decreases |s|
  {
    if s == [] then None
    else if key(s[0]) == k then Some(s[0])
    else
      var r := FirstWithKey(s[1..], key, k);
      assert forall i :: 1 <= i < |s| ==> s[i] == s[1..][i - 1];
      r
  }

  /** First-wins de-duplication does not change which element is found first
      for a key that was not already seen. */
  lemma {:induction false} DedupFirstKeepsFirstWithKey<T, K>(s: seq<T>, key: T -> K, seen: set<K>, k: K)
    requires k !in seen
    ensures FirstWithKey(DedupFirst(s, key, seen), key, k) == FirstWithKey(s, key, k)
    decreases |s|
  {
    if s != [] {
      var r := DedupFirst(s, key, seen);
      if key(s[0]) in seen {
        DedupFirstKeepsFirstWithKey(s[1..], key, seen, k);
      } else if key(s[0]) != k {
        var rest := DedupFirst(s[1..], key, seen + {key(s[0])});
        DedupFirstKeepsFirstWithKey(s[1..], key, seen + {key(s[0])}, k);
        assert r[1..] == rest;
      }
    }
  }

  /** Index of the first element satisfying `p`, if any. */
  function FirstIndex<T>(s: seq<T>, p: T -> bool): (r: Option<nat>)
    ensures r.Some? ==> r.value < |s| && p(s[r.value]) &&
                        forall j :: 0 <= j < r.value ==> !p(s[j])
    ensures r.None? ==> forall j :: 0 <= j < |s| ==> !p(s[j])
    decreases |s|
  {
    if s == [] then None
    else if p(s[0]) then Some(0)
    else
      match FirstIndex(s[1..], p)
      case None => None
      case Some(k) => Some(k + 1)
  }

  /** First-wins de-duplication of a sequence that already has distinct keys,
      none of them seen, keeps it whole. */
  lemma {:induction false} DedupFirstOfDistinct<T, K>(s: seq<T>, key: T -> K, seen: set<K>)
    requires DistinctKeys(s, key)
    requires forall i :: 0 <= i < |s| ==> key(s[i]) !in seen
    ensures DedupFirst(s, key, seen) == s
    decreases |s|
  {
    if s != [] {
      var k := key(s[0]);
      assert forall i :: 1 <= i < |s| ==> key(s[i]) != k;
      assert forall i :: 0 <= i < |s| - 1 ==> s[1..][i] == s[i + 1];
      DedupFirstOfDistinct(s[1..], key, seen + {k});
      assert s == [s[0]] + s[1..];
    }
  }

  /** How many elements of `s` satisfy `p`. */
  function Count<T>(s: seq<T>, p: T -> bool): (n: nat)
    ensures n <= |s|
  {
    if s == [] then 0 else (if p(s[0]) then 1 else 0) + Count(s[1..], p)
  }

  /** Counting agrees with the length of the filtered sequence. */
  lemma {:induction false} CountIsFilterLength<T(!new)>(s: seq<T>, p: T -> bool)
    ensures Count(s, p) == |Filter(s, p)|
  {
    if s != [] {
      CountIsFilterLength(s[1..], p);
    }
  }

  /** Elements satisfying `p` and elements satisfying its complement `q` add
      up to all. */
  lemma {:induction false} CountComplement<T>(s: seq<T>, p: T -> bool, q: T -> bool)
    requires forall i :: 0 <= i < |s| ==> (q(s[i]) <==> !p(s[i]))
    ensures Count(s, p) + Count(s, q) == |s|
  {
    if s != [] {
      assert forall i :: 0 <= i < |s| - 1 ==> s[1..][i] == s[i + 1];
      CountComplement(s[1..], p, q);
    }
  }

  /** A suffix is its first element followed by the next suffix. */
  lemma SuffixStep<T>(s: seq<T>, k: nat)
    requires k < |s|
    ensures s[k..] == [s[k]] + s[k + 1..]
  {
  }

  /** Filtering with a predicate every element satisfies keeps everything. */
  lemma {:induction false} FilterKeepsAll<T(!new)>(s: seq<T>, f: T -> bool)
    requires forall i :: 0 <= i < |s| ==> f(s[i])
    ensures Filter(s, f) == s
  {
    if s != [] {
      assert forall i :: 0 <= i < |s| - 1 ==> s[1..][i] == s[i + 1];
      FilterKeepsAll(s[1..], f);
      assert s == [s[0]] + s[1..];
    }
  }

  /** Filtering depends only on the predicate's values on the elements. */
  lemma {:induction false} FilterCongruent<T(!new)>(s: seq<T>, f: T -> bool, g: T -> bool)
    requires forall i :: 0 <= i < |s| ==> f(s[i]) == g(s[i])
    ensures Filter(s, f) == Filter(s, g)
  {
    if s != [] {
      assert forall i :: 0 <= i < |s| - 1 ==> s[1..][i] == s[i + 1];
      FilterCongruent(s[1..], f, g);
    }
  }

  /** One step of `Filter`, for callers that peel off the head. */
  lemma FilterStep<T(!new)>(s: seq<T>, f: T -> bool)
    requires s != []
    ensures Filter(s, f) == (if f(s[0]) then [s[0]] else []) + Filter(s[1..], f)
  {
  }

  /** Counting is monotone in the predicate. */
  lemma {:induction false} CountMonotone<T>(s: seq<T>, p: T -> bool, q: T -> bool)
    requires forall i :: 0 <= i < |s| && p(s[i]) ==> q(s[i])
    ensures Count(s, p) <= Count(s, q)
  {
    if s != [] {
      assert forall i :: 0 <= i < |s| - 1 ==> s[1..][i] == s[i + 1];
      CountMonotone(s[1..], p, q);
    }
  }

  /** Nothing is counted when no element satisfies the predicate. */
  lemma {:induction false} CountAbsent<T>(s: seq<T>, p: T -> bool)
    requires forall i :: 0 <= i < |s| ==> !p(s[i])
    ensures Count(s, p) == 0
  {
    if s != [] {
      assert forall i :: 0 <= i < |s| - 1 ==> s[1..][i] == s[i + 1];
      CountAbsent(s[1..], p);
    }
  }

  /** The elements of `s` that `keep` accepts, each mapped through `f`, in
      order: a list comprehension with a condition. */
  function FilterMap<T, U>(s: seq<T>, keep: T -> bool, f: T -> U): (r: seq<U>)
    ensures |r| == Count(s, keep)
  {
    if s == [] then [] else (if keep(s[0]) then [f(s[0])] else []) + FilterMap(s[1..], keep, f)
  }

  /** The comprehension distributes over concatenation. */
  lemma {:induction false} FilterMapAppend<T, U>(a: seq<T>, b: seq<T>, keep: T -> bool, f: T -> U)
    ensures FilterMap(a + b, keep, f) == FilterMap(a, keep, f) + FilterMap(b, keep, f)
  {
    if a == [] {
      assert a + b == b;
    } else {
      assert (a + b)[0] == a[0];
      assert (a + b)[1..] == a[1..] + b;
      FilterMapAppend(a[1..], b, keep, f);
    }
  }

  /** Elements that are all kept and mapped to themselves come through
      unchanged. */
  lemma {:induction false} FilterMapIdentity<T>(s: seq<T>, keep: T -> bool, f: T -> T)
    requires forall i :: 0 <= i < |s| ==> keep(s[i]) && f(s[i]) == s[i]
    ensures FilterMap(s, keep, f) == s
  {
    if s != [] {
      assert forall i :: 0 <= i < |s| - 1 ==> s[1..][i] == s[i + 1];
      FilterMapIdentity(s[1..], keep, f);
      assert s == [s[0]] + s[1..];
    }
  }

  /** Every kept element is in the result, mapped. */
  lemma {:induction false} FilterMapKeeps<T, U>(s: seq<T>, keep: T -> bool, f: T -> U)
    ensures forall j :: 0 <= j < |s| && keep(s[j]) ==> f(s[j]) in FilterMap(s, keep, f)
  {
    if s != [] {
      FilterMapKeeps(s[1..], keep, f);
      forall j | 1 <= j < |s| && keep(s[j])
        ensures f(s[j]) in FilterMap(s, keep, f)
      {
        assert s[j] == s[1..][j - 1];
      }
    }
  }

  /** A property every kept element has after mapping holds throughout the
      result. */
  lemma {:induction false} FilterMapAll<T, U>(s: seq<T>, keep: T -> bool, f: T -> U, p: U -> bool)
    requires forall i :: 0 <= i < |s| && keep(s[i]) ==> p(f(s[i]))
    ensures forall i :: 0 <= i < |FilterMap(s, keep, f)| ==> p(FilterMap(s, keep, f)[i])
  {
    if s != [] {
      assert forall i :: 0 <= i < |s| - 1 ==> s[1..][i] == s[i + 1];
      FilterMapAll(s[1..], keep, f, p);
    }
  }

  /** When the first `j` elements are dropped and element `j` is kept, the
      result starts with element `j`, mapped. */
  lemma {:induction false} FilterMapFirst<T, U>(s: seq<T>, keep: T -> bool, f: T -> U, j: nat)
    requires j < |s| && keep(s[j])
    requires forall k :: 0 <= k < j ==> !keep(s[k])
    ensures FilterMap(s, keep, f) != [] && FilterMap(s, keep, f)[0] == f(s[j])
  {
    if j > 0 {
      assert !keep(s[0]);
      assert forall k :: 0 <= k < j - 1 ==> s[1..][k] == s[k + 1];
      FilterMapFirst(s[1..], keep, f, j - 1);
    }
  }
}
