/** Stable sorting by a comparison, and the one-pass search for its first element. */
module StableSort {

  /** The laws a comparison must obey for a sort to make sense of it. */
  ghost predicate StrictWeak<T(!new)>(less: (T, T) -> bool) {
    && (forall a :: !less(a, a))
    && (forall a, b, c {:trigger less(a, b), less(b, c)} :: !less(a, b) && !less(b, c) ==> !less(a, c))
    && (forall a, b :: less(a, b) ==> !less(b, a))
  }

  /** No element precedes one it should follow. */
  ghost predicate Sorted<T>(less: (T, T) -> bool, s: seq<T>) {
    forall i, j :: 0 <= i < j < |s| ==> !less(s[j], s[i])
  }

  /** Places x before the elements it ties with. */
  function Insert<T>(less: (T, T) -> bool, x: T, s: seq<T>): (r: seq<T>)
    ensures |r| == |s| + 1
    ensures multiset(r) == multiset([x] + s)
  {
    if s == [] then [x]
    else if less(s[0], x) then
      var rest := Insert(less, x, s[1..]);
      assert s == [s[0]] + s[1..];
      [s[0]] + rest
    else [x] + s
  }

  /** A stable sort: a permutation in which ties keep their order. */
  function Sort<T>(less: (T, T) -> bool, s: seq<T>): (r: seq<T>)
    ensures |r| == |s|
    ensures multiset(r) == multiset(s)
  {
    if s == [] then []
    else
      assert s == [s[0]] + s[1..];
      Insert(less, s[0], Sort(less, s[1..]))
  }

  lemma SameElements<T>(a: seq<T>, b: seq<T>)
    requires multiset(a) == multiset(b)
    ensures forall x :: x in a <==> x in b
  {
    forall x ensures x in a <==> x in b {
      assert x in a <==> x in multiset(a);
      assert x in b <==> x in multiset(b);
    }
  }

  lemma {:induction false} InsertSorted<T(!new)>(less: (T, T) -> bool, x: T, s: seq<T>)
    requires StrictWeak(less) && Sorted(less, s)
    ensures Sorted(less, Insert(less, x, s))
  {
    if s != [] && less(s[0], x) {
      InsertSorted(less, x, s[1..]);
      var rest := Insert(less, x, s[1..]);
      SameElements(rest, [x] + s[1..]);
      forall j | 0 <= j < |rest| ensures !less(rest[j], s[0]) {
        assert rest[j] in [x] + s[1..];
      }
    } else if s != [] {
      forall j | 0 <= j < |s| ensures !less(s[j], x) {
        if j > 0 { assert !less(s[j], s[0]) && !less(s[0], x); }
      }
    }
  }

  lemma {:induction false} SortSorted<T(!new)>(less: (T, T) -> bool, s: seq<T>)
    requires StrictWeak(less)
    ensures Sorted(less, Sort(less, s))
  {
    if s != [] {
      SortSorted(less, s[1..]);
      InsertSorted(less, s[0], Sort(less, s[1..]));
    }
  }

  /** s[i] is beaten by nothing and beats everything before it. */
  ghost predicate FirstBest<T>(less: (T, T) -> bool, s: seq<T>, i: nat) {
    && i < |s|
    && (forall j :: 0 <= j < |s| ==> !less(s[j], s[i]))
    && (forall j :: 0 <= j < i ==> less(s[i], s[j]))
  }

  lemma FirstBestIsUnique<T>(less: (T, T) -> bool, s: seq<T>, i: nat, k: nat)
    requires FirstBest(less, s, i) && FirstBest(less, s, k)
    ensures i == k
  {
    var x, y := s[i], s[k];
    assert !less(x, y) && !less(y, x);
  }

  lemma PrependBest<T(!new)>(less: (T, T) -> bool, x: T, s: seq<T>, k: nat)
    requires StrictWeak(less) && FirstBest(less, s, k)
    ensures FirstBest(less, [x] + s, if less(s[k], x) then k + 1 else 0)
  {
    var all := [x] + s;
    if less(s[k], x) {
      forall j | 0 <= j < |all| ensures !less(all[j], s[k]) && (j < k + 1 ==> less(s[k], all[j])) {
        if j > 0 { assert all[j] == s[j - 1]; }
      }
    } else {
      forall j | 0 <= j < |all| ensures !less(all[j], x) {
        if j > 0 { assert all[j] == s[j - 1] && !less(s[j - 1], s[k]); }
      }
    }
  }

  lemma SortHeadStep<T>(less: (T, T) -> bool, s: seq<T>)
    requires |s| > 1
    ensures var rest := Sort(less, s[1..]);
            Sort(less, s)[0] == if less(rest[0], s[0]) then rest[0] else s[0]
  {
  }

  /** Where the first best element is. */
  function BestIndex<T>(less: (T, T) -> bool, s: seq<T>): (i: nat)
    requires s != []
    ensures i < |s|
  {
    if |s| == 1 then 0
    else
      var k := BestIndex(less, s[1..]);
      if less(s[k + 1], s[0]) then k + 1 else 0
  }

  lemma {:induction false} SortHeadIsAtBestIndex<T>(less: (T, T) -> bool, s: seq<T>)
    requires s != []
    ensures Sort(less, s)[0] == s[BestIndex(less, s)]
  {
    if |s| > 1 {
      SortHeadIsAtBestIndex(less, s[1..]);
      SortHeadStep(less, s);
    }
  }

  lemma {:induction false} BestIndexIsFirstBest<T(!new)>(less: (T, T) -> bool, s: seq<T>)
    requires StrictWeak(less) && s != []
    ensures FirstBest(less, s, BestIndex(less, s))
  {
    if |s| > 1 {
      BestIndexIsFirstBest(less, s[1..]);
      PrependBest(less, s[0], s[1..], BestIndex(less, s[1..]));
      assert s == [s[0]] + s[1..];
    }
  }

  /** The head of the stable sort is the first best element. */
  lemma SortHead<T(!new)>(less: (T, T) -> bool, s: seq<T>) returns (i: nat)
    requires StrictWeak(less) && s != []
    ensures FirstBest(less, s, i) && Sort(less, s)[0] == s[i]
  {
    SortHeadIsAtBestIndex(less, s);
    BestIndexIsFirstBest(less, s);
    i := BestIndex(less, s);
  }

  /** One more element for a best-so-far scan. */
  lemma ScanStep<T(!new)>(less: (T, T) -> bool, s: seq<T>, i: nat, x: T)
    requires StrictWeak(less) && FirstBest(less, s, i)
    ensures FirstBest(less, s + [x], if less(x, s[i]) then |s| else i)
  {
    if less(x, s[i]) {
      forall j | 0 <= j < |s| ensures less(x, s[j]) {
        assert !less(s[j], s[i]);
      }
    }
  }

  lemma SameHead<T>(less: (T, T) -> bool, a: seq<T>, b: seq<T>)
    requires a != [] && b != [] && Sorted(less, a) && Sorted(less, b) && a[0] in b && b[0] in a
    requires a[0] != b[0] ==> less(a[0], b[0]) || less(b[0], a[0])
    ensures a[0] == b[0]
  {
    var k :| 0 <= k < |b| && b[k] == a[0];
    var m :| 0 <= m < |a| && a[m] == b[0];
    assert k > 0 ==> !less(b[k], b[0]);
    assert m > 0 ==> !less(a[m], a[0]);
  }

  lemma SameTail<T>(a: seq<T>, b: seq<T>)
    requires a != [] && b != [] && a[0] == b[0] && multiset(a) == multiset(b)
    ensures multiset(a[1..]) == multiset(b[1..])
  {
    assert a == [a[0]] + a[1..] && b == [b[0]] + b[1..];
    assert multiset(a[1..]) == multiset(a) - multiset{a[0]};
    assert multiset(b[1..]) == multiset(b) - multiset{b[0]};
  }

  function Without<T>(s: seq<T>, k: nat): (r: seq<T>)
    requires k < |s|
    ensures |r| == |s| - 1
  {
    s[..k] + s[k + 1..]
  }

  lemma RemoveAt<T>(s: seq<T>, k: nat)
    requires k < |s|
    ensures multiset(s) == multiset(Without(s, k)) + multiset{s[k]}
  {
    assert s == s[..k] + [s[k]] + s[k + 1..];
  }

  lemma CancelOne<T>(a: multiset<T>, b: multiset<T>, x: T)
    requires a + multiset{x} == b + multiset{x}
    ensures a == b
  {
    assert a == (a + multiset{x}) - multiset{x};
    assert b == (b + multiset{x}) - multiset{x};
  }

  function Map<T, U>(f: T -> U, s: seq<T>): (r: seq<U>)
    ensures |r| == |s| && forall i :: 0 <= i < |r| ==> r[i] == f(s[i])
  {
    seq(|s|, i requires 0 <= i < |s| => f(s[i]))
  }

  lemma MapMember<T, U>(f: T -> U, s: seq<T>, y: U)
    ensures y in Map(f, s) <==> exists x :: x in s && f(x) == y
  {
    if y in Map(f, s) {
      var k :| 0 <= k < |s| && Map(f, s)[k] == y;
      assert s[k] in s && f(s[k]) == y;
    }
    if x :| x in s && f(x) == y {
      var k :| 0 <= k < |s| && s[k] == x;
      assert Map(f, s)[k] == y;
    }
  }

  lemma MapRemoveAt<T, U>(f: T -> U, s: seq<T>, k: nat)
    requires k < |s|
    ensures multiset(Map(f, s)) == multiset(Map(f, Without(s, k))) + multiset{f(s[k])}
  {
    RemoveAt(Map(f, s), k);
    assert Without(Map(f, s), k) == Map(f, Without(s, k));
  }

  /** Mapping carries permutations to permutations. */
  lemma {:induction false} MapPermutes<T, U>(f: T -> U, a: seq<T>, b: seq<T>)
    requires multiset(a) == multiset(b)
    ensures multiset(Map(f, a)) == multiset(Map(f, b))
    decreases |a|
  {
    if a == [] {
      assert |multiset(b)| == |b|;
    } else {
      var k := Locate(a, b);
      RemoveAt(a, 0);
      RemoveAt(b, k);
      CancelOne(multiset(Without(a, 0)), multiset(Without(b, k)), a[0]);
      MapPermutes(f, Without(a, 0), Without(b, k));
      MapRemoveAt(f, a, 0);
      MapRemoveAt(f, b, k);
    }
  }

  lemma Locate<T>(a: seq<T>, b: seq<T>) returns (k: nat)
    requires a != [] && multiset(a) == multiset(b)
    ensures k < |b| && b[k] == a[0]
  {
    assert a[0] in multiset(b);
    k :| 0 <= k < |b| && b[k] == a[0];
  }

  /** No two distinct elements tie. */
  ghost predicate Separates<T>(less: (T, T) -> bool, s: seq<T>) {
    forall i, j :: 0 <= i < |s| && 0 <= j < |s| && s[i] != s[j] ==> less(s[i], s[j]) || less(s[j], s[i])
  }

  /** Sorting forgets the order of the input when no two distinct elements tie. */
  lemma {:induction false} SortedIsUnique<T>(less: (T, T) -> bool, a: seq<T>, b: seq<T>)
    requires Sorted(less, a) && Sorted(less, b) && multiset(a) == multiset(b) && Separates(less, a)
    ensures a == b
  {
    SameElements(a, b);
    assert |multiset(a)| == |a| && |multiset(b)| == |b|;
    if a != [] {
      assert a[0] in a && b[0] in b;
      var m :| 0 <= m < |a| && a[m] == b[0];
      SameHead(less, a, b);
      SameTail(a, b);
      SortedIsUnique(less, a[1..], b[1..]);
      assert a == [a[0]] + a[1..] && b == [b[0]] + b[1..];
    }
  }

  /** No element occurs twice. */
  ghost predicate Distinct<T>(s: seq<T>) {
    forall i, j :: 0 <= i < j < |s| ==> s[i] != s[j]
  }

  lemma {:induction false} DistinctMeansOnce<T>(s: seq<T>, x: T)
    requires Distinct(s)
    ensures multiset(s)[x] <= 1
  {
    if s != [] {
      var front, last := s[..|s| - 1], s[|s| - 1];
      assert s == front + [last];
      DistinctMeansOnce(front, x);
      if last == x {
        assert x !in front;
      }
    }
  }

  lemma RepeatMeansTwice<T>(s: seq<T>, i: nat, j: nat)
    requires i < j < |s| && s[i] == s[j]
    ensures multiset(s)[s[i]] >= 2
  {
    RemoveAt(s, i);
    var rest := Without(s, i);
    assert rest[j - 1] == s[i];
    assert s[i] in multiset(rest);
  }

  /** Permuting keeps elements distinct. */
  lemma DistinctPermutes<T>(a: seq<T>, b: seq<T>)
    requires multiset(a) == multiset(b) && Distinct(a)
    ensures Distinct(b)
  {
    forall i, j | 0 <= i < j < |b| ensures b[i] != b[j] {
      DistinctMeansOnce(a, b[i]);
      if b[i] == b[j] { RepeatMeansTwice(b, i, j); }
    }
  }

  // ---- sorting a mapped list ----

  lemma SortMapMember<T>(less: (T, T) -> bool, f: T -> T, s: seq<T>, q: T)
    ensures q in Sort(less, Map(f, s)) <==> exists p :: p in s && f(p) == q
  {
    SameElements(Sort(less, Map(f, s)), Map(f, s));
    MapMember(f, s, q);
  }

  lemma SortMapIndex<T>(less: (T, T) -> bool, f: T -> T, s: seq<T>, i: nat) returns (k: nat)
    requires i < |s|
    ensures k < |s| && Sort(less, Map(f, s))[k] == f(s[i])
  {
    SortMapMember(less, f, s, f(s[i]));
    k :| 0 <= k < |s| && Sort(less, Map(f, s))[k] == f(s[i]);
  }

  lemma MapOfMap<T, U>(f: T -> T, key: T -> U, s: seq<T>)
    requires forall x :: x in s ==> key(f(x)) == key(x)
    ensures Map(key, Map(f, s)) == Map(key, s)
  {
  }

  /** Sorting a mapped list keeps keys distinct when the mapping keeps keys. */
  lemma SortMapDistinct<T, U>(less: (T, T) -> bool, f: T -> T, key: T -> U, s: seq<T>)
    requires forall x :: x in s ==> key(f(x)) == key(x)
    ensures Distinct(Map(key, Sort(less, Map(f, s)))) <==> Distinct(Map(key, s))
  {
    var before, after := Map(key, s), Map(key, Sort(less, Map(f, s)));
    MapPermutes(key, Sort(less, Map(f, s)), Map(f, s));
    MapOfMap(f, key, s);
    if Distinct(before) { DistinctPermutes(before, after); }
    if Distinct(after) { DistinctPermutes(after, before); }
  }
}

/** Sorting strings. */
module SortedStrings {
  import opened GoStrings
  import opened StableSort

  lemma LessIsStrictWeak()
    ensures StrictWeak(Less)
  {
    forall a: string ensures !Less(a, a) { LessIrreflexive(a); }
    forall a: string, b: string | Less(a, b) ensures !Less(b, a) { LessAsymmetric(a, b); }
    forall a: string, b: string, c: string | !Less(a, b) && !Less(b, c) ensures !Less(a, c) {
      LessNegativelyTransitive(a, b, c);
    }
  }

  lemma SortedNames(names: seq<string>)
    ensures Sorted(Less, Sort(Less, names)) && forall n :: n in Sort(Less, names) <==> n in names
  {
    LessIsStrictWeak();
    SortSorted(Less, names);
    SameElements(Sort(Less, names), names);
  }
}
