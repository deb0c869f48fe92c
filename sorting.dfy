/** Ordering and grouping used by the views: string order (the model of localeCompare and of
    the default Array.prototype.sort on strings), the stable sort of Array.prototype.sort with
    a comparator, and grouping of a list into a dictionary of lists, as Array.prototype.reduce
    builds one. */
module Sorting {

  /** Lexicographic order on strings by character code. */
  predicate StrLeq(a: string, b: string) {
    if a == [] then true
    else if b == [] then false
    else if a[0] != b[0] then a[0] < b[0]
    else StrLeq(a[1..], b[1..])
  }

  lemma {:induction false} StrLeqTotal(a: string, b: string)
    ensures StrLeq(a, b) || StrLeq(b, a)
  {
    if a != [] && b != [] && a[0] == b[0] {
      StrLeqTotal(a[1..], b[1..]);
    }
  }

  lemma {:induction false} StrLeqTrans(a: string, b: string, c: string)
    requires StrLeq(a, b) && StrLeq(b, c)
    ensures StrLeq(a, c)
  {
    if a != [] && b != [] && c != [] && a[0] == b[0] && b[0] == c[0] {
      StrLeqTrans(a[1..], b[1..], c[1..]);
    }
  }

  lemma {:induction false} StrLeqAntisym(a: string, b: string)
    requires StrLeq(a, b) && StrLeq(b, a)
    ensures a == b
  {
    if a != [] && b != [] {
      StrLeqAntisym(a[1..], b[1..]);
      assert a == [a[0]] + a[1..] && b == [b[0]] + b[1..];
    }
  }

  /** A comparator that Array.prototype.sort can rely on: total and transitive. */
  ghost predicate TotalPreorder<T(!new)>(leq: (T, T) -> bool) {
    (forall x, y :: leq(x, y) || leq(y, x)) &&
    (forall x, y, z :: leq(x, y) && leq(y, z) ==> leq(x, z))
  }

  lemma StrLeqTotalPreorder()
    ensures TotalPreorder(StrLeq)
  {
    forall x, y ensures StrLeq(x, y) || StrLeq(y, x) {
      StrLeqTotal(x, y);
    }
    forall x, y, z | StrLeq(x, y) && StrLeq(y, z) ensures StrLeq(x, z) {
      StrLeqTrans(x, y, z);
    }
  }

  predicate SortedBy<T>(s: seq<T>, leq: (T, T) -> bool) {
    forall i, j :: 0 <= i < j < |s| ==> leq(s[i], s[j])
  }

  /** Places x after every leading element that is not greater than it, so that equal
      elements keep their input order. */
  function Insert<T>(s: seq<T>, x: T, leq: (T, T) -> bool): (r: seq<T>)
    ensures |r| == |s| + 1
    ensures multiset(r) == multiset(s) + multiset{x}
  {
    if s == [] then [x]
    else if !leq(s[0], x) then [x] + s
    else
      assert s == [s[0]] + s[1..];
      [s[0]] + Insert(s[1..], x, leq)
  }

  /** The stable sort of Array.prototype.sort, with `leq(a, b)` standing for `cmp(a, b) <= 0`. */
  function SortBy<T>(xs: seq<T>, leq: (T, T) -> bool): (r: seq<T>)
    ensures |r| == |xs|
    ensures multiset(r) == multiset(xs)
  {
    if xs == [] then []
    else
      assert xs == xs[..|xs| - 1] + [xs[|xs| - 1]];
      Insert(SortBy(xs[..|xs| - 1], leq), xs[|xs| - 1], leq)
  }

  lemma {:induction false} InsertSorted<T(!new)>(s: seq<T>, x: T, leq: (T, T) -> bool)
    requires TotalPreorder(leq) && SortedBy(s, leq)
    ensures SortedBy(Insert(s, x, leq), leq)
  {
    if s == [] {
    } else if !leq(s[0], x) {
      assert leq(x, s[0]);
    } else {
      var rest := Insert(s[1..], x, leq);
      InsertSorted(s[1..], x, leq);
      forall j | 0 <= j < |rest| ensures leq(s[0], rest[j]) {
        assert rest[j] in multiset(rest);
        if rest[j] != x {
          assert rest[j] in multiset(s[1..]);
          var k :| 0 <= k < |s[1..]| && s[1..][k] == rest[j];
          assert s[k + 1] == rest[j];
        }
      }
    }
  }

  /** The sorted list is ordered by the comparator (and by SortBy's contract a permutation). */
  lemma {:induction false} SortBySorted<T(!new)>(xs: seq<T>, leq: (T, T) -> bool)
    requires TotalPreorder(leq)
    ensures SortedBy(SortBy(xs, leq), leq)
  {
    if xs != [] {
      SortBySorted(xs[..|xs| - 1], leq);
      InsertSorted(SortBy(xs[..|xs| - 1], leq), xs[|xs| - 1], leq);
    }
  }

  /** Insertion compares the inserted element with the leading elements only, so comparators
      that agree on those comparisons insert alike. */
  lemma {:induction false} InsertAgree<T>(s: seq<T>, x: T, leq1: (T, T) -> bool, leq2: (T, T) -> bool)
    requires forall a :: a in s ==> leq1(a, x) == leq2(a, x)
    ensures Insert(s, x, leq1) == Insert(s, x, leq2)
  {
    if s != [] {
      assert s[0] in s;
      InsertAgree(s[1..], x, leq1, leq2);
    }
  }

  /** Two comparators that agree on every pair of elements of xs sort xs alike. */
  lemma {:induction false} SortByAgree<T>(xs: seq<T>, leq1: (T, T) -> bool, leq2: (T, T) -> bool)
    requires forall a, b :: a in xs && b in xs ==> leq1(a, b) == leq2(a, b)
    ensures SortBy(xs, leq1) == SortBy(xs, leq2)
  {
    if xs != [] {
      var init, x := xs[..|xs| - 1], xs[|xs| - 1];
      assert forall a :: a in init ==> a in xs;
      SortByAgree(init, leq1, leq2);
      var s := SortBy(init, leq1);
      forall a | a in s ensures leq1(a, x) == leq2(a, x) {
        assert a in multiset(s);
        assert a in init;
      }
      InsertAgree(s, x, leq1, leq2);
    }
  }

  /** Strings sorted by StrLeq and free of duplicates are strictly increasing. */
  lemma SortedDistinctStrict(s: seq<string>)
    requires SortedBy(s, StrLeq)
    requires forall i, j :: 0 <= i < j < |s| ==> s[i] != s[j]
    ensures forall i, j :: 0 <= i < j < |s| ==> StrLeq(s[i], s[j]) && !StrLeq(s[j], s[i])
  {
    forall i, j | 0 <= i < j < |s| ensures !StrLeq(s[j], s[i]) {
      if StrLeq(s[j], s[i]) {
        StrLeqAntisym(s[i], s[j]);
      }
    }
  }

  /** The elements of xs whose key is k, in input order. */
  function FilterKey<T(!new)>(xs: seq<T>, key: T -> string, k: string): (r: seq<T>)
    ensures |r| <= |xs|
    ensures forall x :: x in r <==> x in xs && key(x) == k
    ensures (forall x :: x in xs ==> key(x) != k) ==> r == []
  {
    if xs == [] then []
    else
      var init := FilterKey(xs[..|xs| - 1], key, k);
      assert xs == xs[..|xs| - 1] + [xs[|xs| - 1]];
      if key(xs[|xs| - 1]) == k then init + [xs[|xs| - 1]] else init
  }

  /** The dictionary `reduce` builds: each element appended to the list under its key. */
  function GroupBy<T>(xs: seq<T>, key: T -> string): (g: map<string, seq<T>>)
  {
    if xs == [] then map[]
    else
      var g := GroupBy(xs[..|xs| - 1], key);
      var x := xs[|xs| - 1];
      g[key(x) := (if key(x) in g then g[key(x)] else []) + [x]]
  }

  /** Each group holds exactly the elements with its key, in input order, and there is a group
      for exactly the keys that occur. */
  lemma {:induction false} GroupByFilters<T(!new)>(xs: seq<T>, key: T -> string, k: string)
    ensures k in GroupBy(xs, key) <==> exists x :: x in xs && key(x) == k
    ensures k in GroupBy(xs, key) ==> GroupBy(xs, key)[k] == FilterKey(xs, key, k)
  {
    if xs != [] {
      var init := xs[..|xs| - 1];
      GroupByFilters(init, key, k);
      assert xs == init + [xs[|xs| - 1]];
      if !(k in GroupBy(init, key)) {
        if exists x :: x in xs && key(x) == k {
          var x :| x in xs && key(x) == k;
          assert x == xs[|xs| - 1];
        }
      }
    }
  }

  /** The distinct keys of xs in order of first appearance (the order of Object.keys). */
  function KeysInOrder<T(!new)>(xs: seq<T>, key: T -> string): (ks: seq<string>)
    ensures forall k :: k in ks <==> exists x :: x in xs && key(x) == k
    ensures forall i, j :: 0 <= i < j < |ks| ==> ks[i] != ks[j]
  {
    if xs == [] then []
    else
      var ks := KeysInOrder(xs[..|xs| - 1], key);
      var x := xs[|xs| - 1];
      assert xs == xs[..|xs| - 1] + [x];
      if key(x) in ks then ks else ks + [key(x)]
  }

  /** The distinct keys of xs in increasing order: the keys of a grouping, sorted. */
  function SortedKeys<T(!new)>(xs: seq<T>, key: T -> string): seq<string> {
    SortBy(KeysInOrder(xs, key), StrLeq)
  }

  /** The sorted keys are exactly the keys that occur, each once, in strictly increasing order. */
  lemma SortedKeysIncreasing<T(!new)>(xs: seq<T>, key: T -> string)
    ensures var ks := SortedKeys(xs, key);
      (forall k :: k in ks <==> exists x :: x in xs && key(x) == k) &&
      forall i, j :: 0 <= i < j < |ks| ==> StrLeq(ks[i], ks[j]) && !StrLeq(ks[j], ks[i])
  {
    var keys := KeysInOrder(xs, key);
    var ks := SortedKeys(xs, key);
    StrLeqTotalPreorder();
    SortBySorted(keys, StrLeq);
    forall k ensures k in ks <==> k in keys {
      assert k in ks <==> k in multiset(ks);
      assert k in keys <==> k in multiset(keys);
    }
    forall i, j | 0 <= i < j < |ks| ensures ks[i] != ks[j] {
      DistinctCount(keys, ks[i]);
      PairCount(ks, i, j);
    }
    SortedDistinctStrict(ks);
  }

  /** A value occurs at most once in a sequence of pairwise distinct values. */
  lemma DistinctCount(s: seq<string>, x: string)
    requires forall i, j :: 0 <= i < j < |s| ==> s[i] != s[j]
    ensures multiset(s)[x] <= 1
  {
    if s != [] {
      assert s == [s[0]] + s[1..];
      DistinctCount(s[1..], x);
      if s[0] == x {
        assert x !in s[1..];
      }
    }
  }

  /** Two positions holding the same value count twice. */
  lemma PairCount(s: seq<string>, i: int, j: int)
    requires 0 <= i < j < |s|
    ensures s[i] == s[j] ==> multiset(s)[s[i]] >= 2
  {
    assert s == s[..i] + [s[i]] + s[i + 1..j] + [s[j]] + s[j + 1..];
  }

  /** Builds a dictionary of lists by pushing each element onto the list of its key, creating
      the list on the key's first appearance; also returns the keys in that order. */
  method Group<T(!new)>(xs: seq<T>, key: T -> string) returns (g: map<string, seq<T>>, order: seq<string>)
    ensures g == GroupBy(xs, key)
    ensures order == KeysInOrder(xs, key)
  {
    g := map[];
    order := [];
    for i := 0 to |xs|
      invariant g == GroupBy(xs[..i], key)
      invariant order == KeysInOrder(xs[..i], key)
    {
      assert xs[..i + 1][..i] == xs[..i];
      var k := key(xs[i]);
      GroupByFilters(xs[..i], key, k);
      if k !in g {
        g := g[k := []];
        order := order + [k];
      }
      g := g[k := g[k] + [xs[i]]];
    }
    assert xs[..|xs|] == xs;
  }
}
