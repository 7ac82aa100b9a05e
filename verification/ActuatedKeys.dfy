/** The bounded record of signal keys an actuator has already acted on. */
module ActuatedKeys {
  import opened Wrappers
  import opened GoStrings
  import opened StableSort
  import opened SortedStrings

  const MAX_ACTUATED_KEYS := 64

  /** The keys of a set that sort after k. */
  function Greater(keys: set<string>, k: string): set<string> {
    set g | g in keys && Less(k, g)
  }

  /** The n greatest keys: those with fewer than n greater ones. */
  function Top(keys: set<string>, n: nat): set<string> {
    set k | k in keys && |Greater(keys, k)| < n
  }

  // ---- pruning ----

  function ToSet(s: seq<string>): set<string> {
    set x | x in s
  }

  lemma {:induction false} DistinctCardinality(s: seq<string>)
    requires Distinct(s)
    ensures |ToSet(s)| == |s|
  {
    if s != [] {
      var front, last := s[..|s| - 1], s[|s| - 1];
      DistinctCardinality(front);
      assert s == front + [last];
      assert ToSet(s) == ToSet(front) + {last};
      assert last !in front;
    }
  }

  ghost predicate Ascending(s: seq<string>) {
    forall i, j :: 0 <= i < j < |s| ==> Less(s[i], s[j])
  }

  /** In ascending order a key is followed by exactly the greater ones. */
  lemma GreaterIsSuffix(s: seq<string>, i: nat)
    requires Ascending(s) && i < |s|
    ensures |Greater(ToSet(s), s[i])| == |s| - 1 - i
  {
    var rest := s[i + 1..];
    forall j, k | 0 <= j < k < |rest| ensures rest[j] != rest[k] {
      assert Less(s[i + 1 + j], s[i + 1 + k]);
      LessIrreflexive(rest[j]);
    }
    DistinctCardinality(rest);
    forall x ensures x in Greater(ToSet(s), s[i]) <==> x in ToSet(rest) {
      if x in Greater(ToSet(s), s[i]) {
        var j :| 0 <= j < |s| && s[j] == x;
        if j <= i { AtMost(s, j, i); }
        assert rest[j - i - 1] == x;
      }
      if x in ToSet(rest) {
        var j :| 0 <= j < |rest| && rest[j] == x;
        assert s[i + 1 + j] == x && Less(s[i], s[i + 1 + j]);
      }
    }
    assert Greater(ToSet(s), s[i]) == ToSet(rest);
  }

  lemma AtMost(s: seq<string>, j: nat, i: nat)
    requires Ascending(s) && j <= i < |s|
    ensures !Less(s[i], s[j])
  {
    LessIrreflexive(s[i]);
    if j < i { LessAsymmetric(s[j], s[i]); }
  }

  function Prune(keys: seq<string>): seq<string> {
    if |keys| <= MAX_ACTUATED_KEYS then keys else keys[|keys| - MAX_ACTUATED_KEYS..]
  }

  lemma PruneIsSuffix(s: seq<string>, j: nat)
    requires j < |Prune(s)|
    ensures |Prune(s)| <= |s| && Prune(s)[j] == s[|s| - |Prune(s)| + j]
  {
  }

  lemma KeptIsTop(s: seq<string>, x: string)
    requires Ascending(s) && x in Prune(s)
    ensures x in Top(ToSet(s), MAX_ACTUATED_KEYS)
  {
    var j :| 0 <= j < |Prune(s)| && Prune(s)[j] == x;
    PruneIsSuffix(s, j);
    GreaterIsSuffix(s, |s| - |Prune(s)| + j);
  }

  lemma TopIsKept(s: seq<string>, x: string)
    requires Ascending(s) && x in Top(ToSet(s), MAX_ACTUATED_KEYS)
    ensures x in Prune(s)
  {
    var i :| 0 <= i < |s| && s[i] == x;
    GreaterIsSuffix(s, i);
    assert Prune(s)[i - (|s| - |Prune(s)|)] == x;
  }

  /** Dropping from the front of the ascending list keeps the greatest keys. */
  lemma PruneKeepsTop(s: seq<string>)
    requires Ascending(s)
    ensures Ascending(Prune(s)) && ToSet(Prune(s)) == Top(ToSet(s), MAX_ACTUATED_KEYS)
  {
    forall x | x in Prune(s) ensures x in Top(ToSet(s), MAX_ACTUATED_KEYS) { KeptIsTop(s, x); }
    forall x | x in Top(ToSet(s), MAX_ACTUATED_KEYS) ensures x in Prune(s) { TopIsKept(s, x); }
  }

  lemma SortedDistinctIsAscending(s: seq<string>)
    requires Sorted(Less, s) && Distinct(s)
    ensures Ascending(s)
  {
    forall i, j | 0 <= i < j < |s| ensures Less(s[i], s[j]) {
      LessTotal(s[i], s[j]);
    }
  }

  /** The keys of the seen set in ascending order. */
  method SortedKeys(seen: set<string>) returns (keys: seq<string>)
    ensures Ascending(keys) && ToSet(keys) == seen
  {
    keys := [];
    var left := seen;
    ghost var done: set<string> := {};
    while left != {}
      invariant done + left == seen && done !! left
      invariant ToSet(keys) == done && Distinct(keys)
    {
      var key :| key in left;
      assert key !in ToSet(keys);
      left := left - {key};
      done := done + {key};
      keys := keys + [key];
    }
    var sorted := Sort(Less, keys);
    SortedNames(keys);
    DistinctPermutes(keys, sorted);
    SortedDistinctIsAscending(sorted);
    keys := sorted;
  }

  /** The seen set as it is written down: ascending, bounded, and exactly its greatest keys. */
  method RenderActuatedKeys(seen: set<string>) returns (keys: seq<string>)
    ensures Ascending(keys) && |keys| <= MAX_ACTUATED_KEYS
    ensures ToSet(keys) == Top(seen, MAX_ACTUATED_KEYS)
  {
    var sorted := SortedKeys(seen);
    PruneKeepsTop(sorted);
    keys := Prune(sorted);
  }

  // ---- pruning commutes with union ----

  lemma GreaterMonotone(small: set<string>, large: set<string>, k: string)
    requires small <= large
    ensures Greater(small, k) <= Greater(large, k) && |Greater(small, k)| <= |Greater(large, k)|
  {
    Subset(Greater(small, k), Greater(large, k));
  }

  lemma Subset(a: set<string>, b: set<string>)
    requires a <= b
    ensures |a| <= |b|
  {
    assert b == a + (b - a);
  }

  /** If at least n keys are greater than g, then n of the top keys are. */
  lemma TopCoversGreater(keys: set<string>, n: nat, g: string)
    requires |Greater(keys, g)| >= n
    ensures |Greater(Top(keys, n), g)| >= n
    decreases |Greater(keys, g)|
  {
    var above := Greater(keys, g);
    if above <= Top(keys, n) {
      assert above <= Greater(Top(keys, n), g);
      Subset(above, Greater(Top(keys, n), g));
    } else {
      var h :| h in above && h !in Top(keys, n);
      GreaterShrinks(keys, g, h);
      TopCoversGreater(keys, n, h);
      GreaterShrinks(Top(keys, n), g, h);
    }
  }

  lemma GreaterShrinks(keys: set<string>, g: string, h: string)
    requires Less(g, h)
    ensures Greater(keys, h) <= Greater(keys, g) && |Greater(keys, h)| <= |Greater(keys, g)|
    ensures h in keys ==> |Greater(keys, h)| < |Greater(keys, g)|
  {
    forall x | x in Greater(keys, h) ensures x in Greater(keys, g) { LessTransitive(g, h, x); }
    LessIrreflexive(h);
    Subset(Greater(keys, h), Greater(keys, g));
    if h in keys {
      assert h in Greater(keys, g) && h !in Greater(keys, h);
      Subset(Greater(keys, h) + {h}, Greater(keys, g));
    }
  }

  /** Keys dropped by an earlier pruning would be dropped by a later one of the union. */
  lemma TopOfUnion(a: set<string>, b: set<string>, n: nat)
    ensures Top(Top(a, n) + b, n) == Top(a + b, n)
  {
    var pruned, full := Top(a, n) + b, a + b;
    forall k ensures k in Top(pruned, n) <==> k in Top(full, n) {
      GreaterMonotone(pruned, full, k);
      GreaterMonotone(a, full, k);
      if k in Top(pruned, n) { PrunedCountIsFull(a, b, n, k); }
    }
  }

  lemma PrunedCountIsFull(a: set<string>, b: set<string>, n: nat, k: string)
    requires |Greater(Top(a, n) + b, k)| < n
    ensures |Greater(a + b, k)| < n
  {
    if |Greater(a, k)| >= n {
      TopCoversGreater(a, n, k);
      GreaterMonotone(Top(a, n), Top(a, n) + b, k);
    } else {
      forall g | g in Greater(a, k) ensures g in Top(a, n) {
        GreaterShrinks(a, k, g);
      }
      assert Greater(Top(a, n) + b, k) == Greater(a + b, k);
    }
  }
}
