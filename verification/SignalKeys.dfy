/** The keys that identify signals: how they are built, and how far their order is the order of issue. */
module SignalKeys {
  import opened GoStrings
  import opened ActuatedKeys

  /** An issue time as it is written: the fixed-width text of the second, whose order is time order, and the
      digits of the fraction with trailing zeros trimmed. */
  datatype Stamp = Stamp(second: string, fraction: string)

  const SECOND_WIDTH := 19

  predicate AllDigits(s: string) {
    forall i :: 0 <= i < |s| ==> '0' <= s[i] <= '9'
  }

  predicate Trimmed(fraction: string) {
    AllDigits(fraction) && |fraction| <= 9 && (fraction != "" ==> fraction[|fraction| - 1] != '0')
  }

  predicate WellFormed(t: Stamp) {
    |t.second| == SECOND_WIDTH && Trimmed(t.fraction)
  }

  function FractionText(fraction: string): string {
    if fraction == "" then "Z" else ['.'] + (fraction + ['Z'])
  }

  function Text(t: Stamp): string {
    t.second + FractionText(t.fraction)
  }

  function Pow10(n: nat): nat {
    if n == 0 then 1 else 10 * Pow10(n - 1)
  }

  /** The value of fraction digits in units of ten to the minus `width`. */
  function Units(fraction: string, width: nat): nat
    requires AllDigits(fraction) && |fraction| <= width
  {
    if fraction == "" then 0
    else (fraction[0] as int - '0' as int) * Pow10(width - 1) + Units(fraction[1..], width - 1)
  }

  /** Time order. */
  predicate Earlier(a: Stamp, b: Stamp)
    requires WellFormed(a) && WellFormed(b)
  {
    Less(a.second, b.second) || (a.second == b.second && Units(a.fraction, 9) < Units(b.fraction, 9))
  }

  // ---- fractions ----

  lemma Digit(d: nat, e: nat, unit: nat, x: nat, y: nat)
    requires d < e && x < unit
    ensures d * unit + x < e * unit + y
  {
    assert (d + 1) * unit <= e * unit;
  }

  lemma {:induction false} UnitsBound(f: string, width: nat)
    requires AllDigits(f) && |f| <= width
    ensures Units(f, width) < Pow10(width)
    ensures Trimmed(f) && f != "" ==> Units(f, width) > 0
  {
    PowPositive(width);
    if f != "" {
      UnitsBound(f[1..], width - 1);
      var d := f[0] as int - '0' as int;
      Digit(d, 10, Pow10(width - 1), Units(f[1..], width - 1), 0);
      if Trimmed(f) {
        PowPositive(width - 1);
        if |f| == 1 {
          assert d >= 1;
          Digit(0, d, Pow10(width - 1), 0, Units(f[1..], width - 1));
        } else {
          assert Trimmed(f[1..]);
        }
      }
    }
  }

  lemma {:induction false} PowPositive(n: nat)
    ensures Pow10(n) > 0
  {
    if n > 0 { PowPositive(n - 1); }
  }

  /** Trimmed digits order by value as they do as strings. */
  lemma {:induction false} UnitsOrder(f: string, g: string, width: nat)
    requires Trimmed(f) && Trimmed(g) && |f| <= width && |g| <= width
    ensures Units(f, width) < Units(g, width) <==> Less(f, g)
  {
    UnitsBound(f, width);
    UnitsBound(g, width);
    if f != "" && g != "" {
      UnitsBound(f[1..], width - 1);
      UnitsBound(g[1..], width - 1);
      var d, e, unit := f[0] as int - '0' as int, g[0] as int - '0' as int, Pow10(width - 1);
      if f[0] == g[0] {
        UnitsOrder(f[1..], g[1..], width - 1);
      } else if d < e {
        Digit(d, e, unit, Units(f[1..], width - 1), Units(g[1..], width - 1));
      } else {
        Digit(e, d, unit, Units(g[1..], width - 1), Units(f[1..], width - 1));
      }
    }
  }

  /** The closing letter sorts after every digit, so of two fractions the longer continuation comes first. */
  lemma {:induction false} ClosedOrder(f: string, g: string)
    requires AllDigits(f) && AllDigits(g)
    ensures Less(f + ['Z'], g + ['Z']) <==> if f < g then false else if g < f then true else Less(f, g)
  {
    if f != "" && g != "" && f[0] == g[0] {
      ClosedOrder(f[1..], g[1..]);
      assert (f + ['Z'])[1..] == f[1..] + ['Z'] && (g + ['Z'])[1..] == g[1..] + ['Z'];
      assert f == [f[0]] + f[1..] && g == [g[0]] + g[1..];
    }
  }

  lemma FractionOrder(f: string, g: string)
    requires AllDigits(f) && AllDigits(g)
    ensures Less(FractionText(f), FractionText(g)) <==> if f < g then false else if g < f then true else Less(f, g)
  {
    if f != "" && g != "" {
      CommonPrefix(['.'], f + ['Z'], g + ['Z']);
      ClosedOrder(f, g);
    }
  }

  // ---- stamps ----

  lemma {:induction false} CommonPrefix(p: string, x: string, y: string)
    ensures Less(p + x, p + y) <==> Less(x, y)
  {
    if p == [] {
      assert p + x == x && p + y == y;
    } else {
      CommonPrefix(p[1..], x, y);
      assert (p + x)[1..] == p[1..] + x && (p + y)[1..] == p[1..] + y;
    }
  }

  /** Neither string starts with the other. */
  predicate Diverge(p: string, q: string) {
    !(p <= q) && !(q <= p)
  }

  lemma {:induction false} DivergingPrefix(p: string, q: string, x: string, y: string)
    requires Diverge(p, q)
    ensures Less(p + x, q + y) <==> Less(p, q)
  {
    if p[0] == q[0] {
      DivergingPrefix(p[1..], q[1..], x, y);
      assert (p + x)[1..] == p[1..] + x && (q + y)[1..] == q[1..] + y;
    }
  }

  /** One of the fractions continues the other. */
  predicate Continues(f: string, g: string) {
    f < g || g < f
  }

  lemma TextOrder(a: Stamp, b: Stamp)
    requires WellFormed(a) && WellFormed(b)
    ensures Less(Text(a), Text(b)) <==>
            if a.second == b.second && Continues(a.fraction, b.fraction) then b.fraction < a.fraction else Earlier(a, b)
  {
    if a.second == b.second {
      LessIrreflexive(a.second);
      CommonPrefix(a.second, FractionText(a.fraction), FractionText(b.fraction));
      FractionOrder(a.fraction, b.fraction);
      UnitsOrder(a.fraction, b.fraction, 9);
    } else {
      DivergingPrefix(a.second, b.second, FractionText(a.fraction), FractionText(b.fraction));
    }
  }

  /** A fraction that continues another is later. */
  lemma {:induction false} ContinuationIsGreater(f: string, g: string)
    requires f < g
    ensures Less(f, g)
  {
    if f != "" {
      ContinuationIsGreater(f[1..], g[1..]);
    }
  }

  /** Exactly when two stamps order as texts as they do in time: unless they fall into one second and the
      fraction of one continues the fraction of the other. */
  lemma StampsOrderByTimeExactlyWhen(a: Stamp, b: Stamp)
    requires WellFormed(a) && WellFormed(b)
    ensures (Less(Text(a), Text(b)) <==> Earlier(a, b)) <==> !(a.second == b.second && Continues(a.fraction, b.fraction))
  {
    TextOrder(a, b);
    if a.second == b.second && Continues(a.fraction, b.fraction) {
      LessIrreflexive(a.second);
      UnitsOrder(a.fraction, b.fraction, 9);
      if a.fraction < b.fraction {
        ContinuationIsGreater(a.fraction, b.fraction);
      } else {
        ContinuationIsGreater(b.fraction, a.fraction);
        LessAsymmetric(a.fraction, b.fraction);
      }
    }
  }

  // ---- keys ----

  datatype ShutdownSignal = ShutdownSignal(executionId: string, nodeName: string, planConfigHash: string, stamp: Stamp)

  function Prefix(s: ShutdownSignal): string {
    s.executionId + ([':'] + (s.nodeName + ([':'] + (s.planConfigHash + [':']))))
  }

  function SignalKey(s: ShutdownSignal): string {
    Prefix(s) + Text(s.stamp)
  }

  /** Ids, names and hashes carry no colon. */
  predicate Plain(s: ShutdownSignal) {
    ':' !in s.executionId && ':' !in s.nodeName && ':' !in s.planConfigHash && WellFormed(s.stamp)
  }

  predicate SameOrigin(a: ShutdownSignal, b: ShutdownSignal) {
    a.executionId == b.executionId && a.nodeName == b.nodeName && a.planConfigHash == b.planConfigHash
  }

  lemma {:induction false} FieldsAgree(f: string, g: string, x: string, y: string)
    requires ':' !in f && ':' !in g && f + ([':'] + x) <= g + ([':'] + y)
    ensures f == g && x <= y
  {
    var left, right := f + ([':'] + x), g + ([':'] + y);
    assert left[0] == right[0];
    if f != "" && g != "" {
      assert left[1..] == f[1..] + ([':'] + x) && right[1..] == g[1..] + ([':'] + y);
      FieldsAgree(f[1..], g[1..], x, y);
      assert f == [f[0]] + f[1..] && g == [g[0]] + g[1..];
    } else {
      assert f == "" && g == "";
      assert x == left[1..] && y == right[1..];
    }
  }

  lemma PrefixTellsOrigin(a: ShutdownSignal, b: ShutdownSignal)
    requires Plain(a) && Plain(b) && Prefix(a) <= Prefix(b)
    ensures SameOrigin(a, b)
  {
    var node, node' := a.nodeName + ([':'] + (a.planConfigHash + [':'])), b.nodeName + ([':'] + (b.planConfigHash + [':']));
    FieldsAgree(a.executionId, b.executionId, node, node');
    FieldsAgree(a.nodeName, b.nodeName, a.planConfigHash + [':'], b.planConfigHash + [':']);
    assert a.planConfigHash + [':'] == a.planConfigHash + ([':'] + "") && b.planConfigHash + [':'] == b.planConfigHash + ([':'] + "");
    FieldsAgree(a.planConfigHash, b.planConfigHash, "", "");
  }

  /** Keys of one execution, node and plan order as their stamps do as texts; otherwise the origin decides. */
  lemma KeyOrder(a: ShutdownSignal, b: ShutdownSignal)
    requires Plain(a) && Plain(b)
    ensures Less(SignalKey(a), SignalKey(b)) <==>
            if SameOrigin(a, b) then Less(Text(a.stamp), Text(b.stamp)) else Less(Prefix(a), Prefix(b))
  {
    if SameOrigin(a, b) {
      CommonPrefix(Prefix(a), Text(a.stamp), Text(b.stamp));
    } else {
      if Prefix(a) <= Prefix(b) { PrefixTellsOrigin(a, b); }
      if Prefix(b) <= Prefix(a) { PrefixTellsOrigin(b, a); }
      DivergingPrefix(Prefix(a), Prefix(b), Text(a.stamp), Text(b.stamp));
    }
  }

  // ---- what pruning drops ----

  /** Some list of seen keys from which pruning drops `a` and keeps `b`. */
  ghost predicate CanDropFor(a: string, b: string) {
    exists keys :: Ascending(keys) && a in keys && b in keys && a !in Prune(keys) && b in Prune(keys)
  }

  /** `b` followed by ever longer continuations of it. */
  function Continuations(b: string, n: nat): (r: seq<string>)
    ensures |r| == n && forall i :: 0 <= i < n ==> r[i] == b + seq(i, _ => 'x')
  {
    seq(n, i requires 0 <= i => b + seq(i, _ => 'x'))
  }

  lemma ContinuationsAscend(b: string, i: nat, j: nat)
    requires i < j
    ensures Less(b + seq(i, _ => 'x'), b + seq(j, _ => 'x'))
  {
    var p, q := seq(i, _ => 'x'), seq(j, _ => 'x');
    assert p < q;
    ContinuationIsGreater(p, q);
    CommonPrefix(b, p, q);
  }

  lemma DroppingList(a: string, b: string) returns (keys: seq<string>)
    requires Less(a, b)
    ensures Ascending(keys) && a in keys && b in keys && a !in Prune(keys) && b in Prune(keys)
  {
    var rest := Continuations(b, MAX_ACTUATED_KEYS);
    keys := [a] + rest;
    assert rest[0] == b + [] == b;
    forall i, j | 0 <= i < j < |keys| ensures Less(keys[i], keys[j]) {
      if i > 0 {
        ContinuationsAscend(b, i - 1, j - 1);
      } else if j > 1 {
        ContinuationsAscend(b, 0, j - 1);
        assert Less(b, rest[j - 1]);
        LessTransitive(a, b, rest[j - 1]);
      }
    }
    assert Prune(keys) == rest;
    assert keys[0] == a && keys[1] == b;
    if a in rest {
      var i :| 0 <= i < |rest| && rest[i] == a;
      assert Less(keys[0], keys[i + 1]);
      LessIrreflexive(a);
    }
  }

  /** Pruning can drop one key and keep another exactly when the dropped one is smaller. */
  lemma DropsSmallerOnly(a: string, b: string)
    ensures CanDropFor(a, b) <==> Less(a, b)
  {
    if Less(a, b) {
      var keys := DroppingList(a, b);
    }
    if CanDropFor(a, b) {
      var keys :| Ascending(keys) && a in keys && b in keys && a !in Prune(keys) && b in Prune(keys);
      var i :| 0 <= i < |keys| && keys[i] == a;
      var j :| 0 <= j < |Prune(keys)| && Prune(keys)[j] == b;
      PruneIsSuffix(keys, j);
      var from := |keys| - |Prune(keys)|;
      if i >= from { assert false; }
      assert Less(keys[i], keys[from + j]);
    }
  }

  /** Exactly when pruning can drop a newer signal's key and keep an older one's. Within one execution, node and
      plan: when both fall into one second and the newer fraction continues the older one. Across origins:
      whenever the newer signal's origin sorts first, whatever the times. */
  lemma NewerIsDroppedExactlyWhen(newer: ShutdownSignal, older: ShutdownSignal)
    requires Plain(newer) && Plain(older) && Earlier(older.stamp, newer.stamp)
    ensures CanDropFor(SignalKey(newer), SignalKey(older)) <==>
            if SameOrigin(newer, older) then
              newer.stamp.second == older.stamp.second && older.stamp.fraction < newer.stamp.fraction
            else Less(Prefix(newer), Prefix(older))
  {
    DropsSmallerOnly(SignalKey(newer), SignalKey(older));
    KeyOrder(newer, older);
    TextOrder(newer.stamp, older.stamp);
    EarlierAsymmetric(older.stamp, newer.stamp);
    if newer.stamp.second == older.stamp.second && newer.stamp.fraction < older.stamp.fraction {
      ContinuationIsGreater(newer.stamp.fraction, older.stamp.fraction);
      UnitsOrder(newer.stamp.fraction, older.stamp.fraction, 9);
    }
  }

  lemma EarlierAsymmetric(a: Stamp, b: Stamp)
    requires WellFormed(a) && WellFormed(b) && Earlier(a, b)
    ensures !Earlier(b, a)
  {
    LessAsymmetric(a.second, b.second);
    LessIrreflexive(a.second);
  }

  /** Keys tell signals apart. */
  lemma KeysTellSignalsApart(a: ShutdownSignal, b: ShutdownSignal)
    requires Plain(a) && Plain(b) && SignalKey(a) == SignalKey(b)
    ensures a == b
  {
    KeyOrder(a, b);
    KeyOrder(b, a);
    LessIrreflexive(SignalKey(a));
    LessTotal(Prefix(a), Prefix(b));
    LessTotal(Text(a.stamp), Text(b.stamp));
    if !SameOrigin(a, b) { PrefixTellsOrigin(a, b); }
    TextTellsStamp(a.stamp, b.stamp);
  }

  lemma TextTellsStamp(a: Stamp, b: Stamp)
    requires WellFormed(a) && WellFormed(b) && Text(a) == Text(b)
    ensures a == b
  {
    assert Text(a)[..SECOND_WIDTH] == a.second && Text(b)[..SECOND_WIDTH] == b.second;
    assert Text(a)[SECOND_WIDTH..] == FractionText(a.fraction) && Text(b)[SECOND_WIDTH..] == FractionText(b.fraction);
    var x, y := FractionText(a.fraction), FractionText(b.fraction);
    if a.fraction != "" && b.fraction != "" { assert x[1..|x| - 1] == a.fraction && y[1..|y| - 1] == b.fraction; }
  }

  /** A key is the execution, the node, the plan and the stamp, joined by colons. */
  lemma KeyParts(a: ShutdownSignal)
    ensures SignalKey(a) == a.executionId + ":" + a.nodeName + ":" + a.planConfigHash + ":" + Text(a.stamp)
    ensures SignalKey(a) == a.executionId + ([':'] + (a.nodeName + ([':'] + (a.planConfigHash + ([':'] + Text(a.stamp))))))
  {
    Regroup(a.executionId, a.nodeName, a.planConfigHash, Text(a.stamp));
  }

  lemma Regroup(e: string, n: string, p: string, t: string)
    ensures var nested := e + ([':'] + (n + ([':'] + (p + ([':'] + t)))));
            nested == e + ":" + n + ":" + p + ":" + t && nested == e + ([':'] + (n + ([':'] + (p + [':'])))) + t
  {
    assert e + ":" + n + ":" + p + ":" + t == e + (":" + (n + (":" + (p + (":" + t)))));
  }

  /** The execution decides first. */
  lemma ExecutionDecides(a: ShutdownSignal, b: ShutdownSignal)
    requires Diverge(a.executionId, b.executionId)
    ensures Less(SignalKey(a), SignalKey(b)) <==> Less(a.executionId, b.executionId)
  {
    KeyParts(a);
    KeyParts(b);
    DivergingPrefix(a.executionId, b.executionId, [':'] + (a.nodeName + ([':'] + (a.planConfigHash + ([':'] + Text(a.stamp))))),
                    [':'] + (b.nodeName + ([':'] + (b.planConfigHash + ([':'] + Text(b.stamp))))));
  }
}
