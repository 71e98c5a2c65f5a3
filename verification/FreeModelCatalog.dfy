/** Token totals over free models, counting each shared quota pool once. */
module FreeModelCatalog {
  import opened Options

  datatype FreeType =
    | RecurringDaily | RecurringMonthly | RecurringCredit | RecurringUncapped
    | OneTimeInitial | Keyless | Discontinued

  datatype Model = Model(
    provider: string, monthlyTokens: int, creditTokens: int,
    freeType: FreeType, poolKey: Option<string>, tosAvoid: bool)

  function Max(a: int, b: int): int { if a < b then b else a }

  /** A model draws on a shared pool when it names a non-empty one. */
  predicate Pooled(m: Model) {
    m.poolKey.Some? && m.poolKey.value != ""
  }

  // ----- Sums.

  function Sum(weight: Model -> int, s: seq<Model>): int {
    if s == [] then 0 else Sum(weight, s[..|s| - 1]) + weight(s[|s| - 1])
  }

  ghost function SumMap(m: map<string, int>): int {
    if m == map[] then 0
    else
      var k :| k in m;
      m[k] + SumMap(m - {k})
  }

  /** Any entry can be split off a sum over a map. */
  lemma {:induction false} SumMapSplit(m: map<string, int>, k: string)
    requires k in m
    ensures SumMap(m) == m[k] + SumMap(m - {k})
    decreases |m|
  {
    var first :| first in m && SumMap(m) == m[first] + SumMap(m - {first});
    if first != k {
      SumMapSplit(m - {first}, k);
      SumMapSplit(m - {k}, first);
      assert m - {first} - {k} == m - {k} - {first};
    }
  }

  lemma SumMapUpdate(m: map<string, int>, k: string, v: int)
    ensures SumMap(m[k := v]) == SumMap(m) - (if k in m then m[k] else 0) + v
  {
    SumMapSplit(m[k := v], k);
    assert m[k := v] - {k} == m - {k};
    if k in m {
      SumMapSplit(m, k);
    } else {
      assert m - {k} == m;
    }
  }

  lemma {:induction false} SumMapMonotone(a: map<string, int>, b: map<string, int>)
    requires forall k :: k in a ==> k in b && a[k] <= b[k]
    requires forall k :: k in b ==> 0 <= b[k]
    ensures SumMap(a) <= SumMap(b)
    decreases |b|
  {
    if b == map[] {
      assert a == map[];
    } else {
      var k :| k in b;
      SumMapSplit(b, k);
      if k in a {
        SumMapSplit(a, k);
        SumMapMonotone(a - {k}, b - {k});
      } else {
        assert a - {k} == a;
        SumMapMonotone(a, b - {k});
      }
    }
  }

  // ----- The deduplicated sum.

  function GetOr0(m: map<string, int>, k: string): int {
    if k in m then m[k] else 0
  }

  /** The largest picked value of each pool, not below zero. */
  function PoolMax(s: seq<Model>, pick: Model -> int, take: Model -> bool): map<string, int> {
    if s == [] then map[]
    else
      var before, m := PoolMax(s[..|s| - 1], pick, take), s[|s| - 1];
      if take(m) && Pooled(m) then before[m.poolKey.value := Max(GetOr0(before, m.poolKey.value), pick(m))] else before
  }

  function LooseWeight(pick: Model -> int, take: Model -> bool): Model -> int {
    m => if take(m) && !Pooled(m) then pick(m) else 0
  }

  function TakenWeight(pick: Model -> int, take: Model -> bool): Model -> int {
    m => if take(m) then pick(m) else 0
  }

  ghost function DedupedSum(s: seq<Model>, pick: Model -> int, take: Model -> bool): int {
    Sum(LooseWeight(pick, take), s) + SumMap(PoolMax(s, pick, take))
  }

  /** The loop over models and the loop over pool values. */
  method ComputeDedupedSum(s: seq<Model>, pick: Model -> int, take: Model -> bool) returns (total: int)
    ensures total == DedupedSum(s, pick, take)
  {
    var poolMax: map<string, int> := map[];
    total := 0;
    var i := 0;
    while i < |s|
      invariant 0 <= i <= |s|
      invariant poolMax == PoolMax(s[..i], pick, take)
      invariant total == Sum(LooseWeight(pick, take), s[..i])
    {
      var m := s[i];
      assert s[..i + 1][..i] == s[..i];
      if take(m) {
        if Pooled(m) {
          poolMax := poolMax[m.poolKey.value := Max(GetOr0(poolMax, m.poolKey.value), pick(m))];
        } else {
          total := total + pick(m);
        }
      }
      i := i + 1;
    }
    assert s[..i] == s;
    var values := poolMax;
    while values != map[]
      invariant total + SumMap(values) == DedupedSum(s, pick, take)
      decreases |values|
    {
      var k :| k in values;
      SumMapSplit(values, k);
      total := total + values[k];
      values := values - {k};
    }
  }

  /** The models of a pool that count. */
  predicate InPool(m: Model, take: Model -> bool, k: string) {
    take(m) && Pooled(m) && m.poolKey.value == k
  }

  /** `v` is the largest picked value of the pool, or zero when all are negative. */
  ghost predicate IsPoolMax(s: seq<Model>, pick: Model -> int, take: Model -> bool, k: string, v: int) {
    && v >= 0
    && (forall i :: 0 <= i < |s| && InPool(s[i], take, k) ==> pick(s[i]) <= v)
    && (v == 0 || exists i :: 0 <= i < |s| && InPool(s[i], take, k) && pick(s[i]) == v)
  }

  /** The pools of the sum are those of the models that count, each with its maximum. */
  lemma {:induction false} PoolMaxSpec(s: seq<Model>, pick: Model -> int, take: Model -> bool)
    ensures forall k :: k in PoolMax(s, pick, take) <==> exists i :: 0 <= i < |s| && InPool(s[i], take, k)
    ensures forall k :: k in PoolMax(s, pick, take) ==> IsPoolMax(s, pick, take, k, PoolMax(s, pick, take)[k])
  {
    if s != [] {
      var init, last := s[..|s| - 1], s[|s| - 1];
      PoolMaxSpec(init, pick, take);
      var before, pools := PoolMax(init, pick, take), PoolMax(s, pick, take);
      forall k ensures k in pools <==> exists i :: 0 <= i < |s| && InPool(s[i], take, k) {
        if k in before {
          var i :| 0 <= i < |init| && InPool(init[i], take, k);
          assert InPool(s[i], take, k);
        }
        if InPool(last, take, k) {
          assert InPool(s[|s| - 1], take, k);
        }
        if i :| 0 <= i < |s| && InPool(s[i], take, k) && i < |init| {
          assert InPool(init[i], take, k);
        }
      }
      forall k | k in pools ensures IsPoolMax(s, pick, take, k, pools[k]) {
        PoolMaxStep(s, pick, take, k);
      }
    }
  }

  lemma PoolMaxStep(s: seq<Model>, pick: Model -> int, take: Model -> bool, k: string)
    requires s != [] && k in PoolMax(s, pick, take)
    requires var init := s[..|s| - 1]; var before := PoolMax(init, pick, take);
             && (k in before ==> IsPoolMax(init, pick, take, k, before[k]))
             && (k !in before ==> forall i :: 0 <= i < |init| ==> !InPool(init[i], take, k))
    ensures IsPoolMax(s, pick, take, k, PoolMax(s, pick, take)[k])
  {
    var init, last := s[..|s| - 1], s[|s| - 1];
    var before, v := PoolMax(init, pick, take), PoolMax(s, pick, take)[k];
    forall i | 0 <= i < |s| && InPool(s[i], take, k) ensures pick(s[i]) <= v {
      if i < |init| {
        assert s[i] == init[i];
      }
    }
    if v != 0 {
      if InPool(last, take, k) && v == pick(last) {
        assert InPool(s[|s| - 1], take, k);
      } else {
        var i :| 0 <= i < |init| && InPool(init[i], take, k) && pick(init[i]) == v;
        assert s[i] == init[i];
      }
    }
  }

  // ----- One more model.

  /** What a model adds to the sum when the best value of its pool so far is `best`. */
  function Gain(m: Model, value: int, best: int): int {
    if m.poolKey.None? || m.poolKey.value == "" then value else Max(0, value - best)
  }

  /** The sum of no models is zero; a model that counts adds its value, or what it raises its pool's
      maximum by, and any other model adds nothing. This settles the sum of any list. */
  lemma AddingModel(s: seq<Model>, m: Model, pick: Model -> int, take: Model -> bool, best: int)
    requires take(m) && m.poolKey.Some? && m.poolKey.value != "" ==> IsPoolMax(s, pick, take, m.poolKey.value, best)
    ensures DedupedSum([], pick, take) == 0
    ensures DedupedSum(s + [m], pick, take)
         == DedupedSum(s, pick, take) + if take(m) then Gain(m, pick(m), best) else 0
  {
    assert (s + [m])[..|s|] == s;
    var before := PoolMax(s, pick, take);
    if take(m) && Pooled(m) {
      var k := m.poolKey.value;
      PoolMaxSpec(s, pick, take);
      BestIsPoolMax(s, pick, take, k, best);
      SumMapUpdate(before, k, Max(GetOr0(before, k), pick(m)));
    }
  }

  lemma BestIsPoolMax(s: seq<Model>, pick: Model -> int, take: Model -> bool, k: string, best: int)
    requires k != "" && IsPoolMax(s, pick, take, k, best)
    ensures best == GetOr0(PoolMax(s, pick, take), k)
  {
    PoolMaxSpec(s, pick, take);
    var pools := PoolMax(s, pick, take);
    if k in pools {
      assert IsPoolMax(s, pick, take, k, pools[k]);
    }
  }

  // ----- Order does not matter.

  lemma {:induction false} SumConcat(weight: Model -> int, a: seq<Model>, b: seq<Model>)
    ensures Sum(weight, a + b) == Sum(weight, a) + Sum(weight, b)
  {
    if b == [] {
      assert a + b == a;
    } else {
      assert (a + b)[..|a + b| - 1] == a + b[..|b| - 1];
      SumConcat(weight, a, b[..|b| - 1]);
    }
  }

  lemma RemoveOne(init: seq<Model>, before: seq<Model>, after: seq<Model>, m: Model)
    requires multiset(init + [m]) == multiset(before + [m] + after)
    ensures multiset(init) == multiset(before + after)
  {
    assert multiset(init + [m]) == multiset(init) + multiset{m};
    assert multiset(before + [m] + after) == multiset(before + after) + multiset{m};
    assert multiset(init) == multiset(init) + multiset{m} - multiset{m};
  }

  /** Taking one model out of the middle takes its weight out of the sum. */
  lemma SumWithout(weight: Model -> int, before: seq<Model>, m: Model, after: seq<Model>)
    ensures Sum(weight, before + [m] + after) == Sum(weight, before + after) + weight(m)
  {
    SumConcat(weight, before + [m], after);
    SumConcat(weight, before, after);
    assert (before + [m])[..|before|] == before;
  }

  lemma {:induction false} SumPermutation(weight: Model -> int, a: seq<Model>, b: seq<Model>)
    requires multiset(a) == multiset(b)
    ensures Sum(weight, a) == Sum(weight, b)
  {
    if a == [] {
      assert |multiset(b)| == 0;
    } else {
      var init, last := a[..|a| - 1], a[|a| - 1];
      var before, after := PartsAround(a, b);
      SumPermutation(weight, init, before + after);
      SumWithout(weight, before, last, after);
    }
  }

  /** Where the last model of one list stands in a permutation of it. */
  lemma PartsAround(a: seq<Model>, b: seq<Model>) returns (before: seq<Model>, after: seq<Model>)
    requires a != [] && multiset(a) == multiset(b)
    ensures b == before + [a[|a| - 1]] + after
    ensures multiset(a[..|a| - 1]) == multiset(before + after)
    ensures |before| + |after| < |b|
  {
    var init, last := a[..|a| - 1], a[|a| - 1];
    assert last in multiset(b);
    var i :| 0 <= i < |b| && b[i] == last;
    before, after := b[..i], b[i + 1..];
    assert a == init + [last] && b == before + [last] + after;
    RemoveOne(init, before, after, last);
  }

  /** Every model of one list is in the other. */
  predicate Within(a: seq<Model>, b: seq<Model>) {
    forall i :: 0 <= i < |a| ==> a[i] in b
  }

  lemma PermutedIsWithin(a: seq<Model>, b: seq<Model>)
    requires multiset(a) == multiset(b)
    ensures Within(a, b)
  {
    forall i | 0 <= i < |a| ensures a[i] in b {
      assert a[i] in multiset(b);
    }
  }

  lemma InPoolOf(b: seq<Model>, take: Model -> bool, k: string, m: Model) returns (j: nat)
    requires m in b && InPool(m, take, k)
    ensures j < |b| && b[j] == m && InPool(b[j], take, k)
  {
    j :| 0 <= j < |b| && b[j] == m;
  }

  /** A pool of a list is a pool of any list around it, with a maximum no lower. */
  lemma PoolMaxWithin(a: seq<Model>, b: seq<Model>, pick: Model -> int, take: Model -> bool, k: string)
    requires Within(a, b) && k in PoolMax(a, pick, take)
    ensures k in PoolMax(b, pick, take) && PoolMax(a, pick, take)[k] <= PoolMax(b, pick, take)[k]
  {
    PoolMaxSpec(a, pick, take);
    PoolMaxSpec(b, pick, take);
    var i :| 0 <= i < |a| && InPool(a[i], take, k);
    var j := InPoolOf(b, take, k, a[i]);
    var v := PoolMax(a, pick, take)[k];
    assert IsPoolMax(a, pick, take, k, v);
    assert IsPoolMax(b, pick, take, k, PoolMax(b, pick, take)[k]);
    if v != 0 {
      var x :| 0 <= x < |a| && InPool(a[x], take, k) && pick(a[x]) == v;
      var y := InPoolOf(b, take, k, a[x]);
    }
  }

  /** The sum does not depend on the order of the models. */
  lemma DedupedSumPermutation(a: seq<Model>, b: seq<Model>, pick: Model -> int, take: Model -> bool)
    requires multiset(a) == multiset(b)
    ensures DedupedSum(a, pick, take) == DedupedSum(b, pick, take)
  {
    SumPermutation(LooseWeight(pick, take), a, b);
    var p, q := PoolMax(a, pick, take), PoolMax(b, pick, take);
    PermutedIsWithin(a, b);
    PermutedIsWithin(b, a);
    forall k | k in p ensures k in q && p[k] <= q[k] { PoolMaxWithin(a, b, pick, take, k); }
    forall k | k in q ensures k in p && q[k] <= p[k] { PoolMaxWithin(b, a, pick, take, k); }
    assert p == q;
  }

  // ----- Bounds.

  predicate NonNegative(pick: Model -> int, s: seq<Model>) {
    forall i :: 0 <= i < |s| ==> pick(s[i]) >= 0
  }

  /** Counting pools once never exceeds the plain sum. */
  lemma {:induction false} DedupedAtMostPlain(s: seq<Model>, pick: Model -> int, take: Model -> bool)
    requires NonNegative(pick, s)
    ensures 0 <= DedupedSum(s, pick, take) <= Sum(TakenWeight(pick, take), s)
  {
    if s != [] {
      var init, last := s[..|s| - 1], s[|s| - 1];
      DedupedAtMostPlain(init, pick, take);
      var before := PoolMax(init, pick, take);
      if take(last) && Pooled(last) {
        var k := last.poolKey.value;
        SumMapUpdate(before, k, Max(GetOr0(before, k), pick(last)));
        if k in before {
          PoolMaxSpec(init, pick, take);
          assert IsPoolMax(init, pick, take, k, before[k]);
        }
      }
    }
  }

  /** The models that pass a filter. */
  function Keep(s: seq<Model>, keep: Model -> bool): seq<Model> {
    if s == [] then []
    else Keep(s[..|s| - 1], keep) + (if keep(s[|s| - 1]) then [s[|s| - 1]] else [])
  }

  lemma {:induction false} KeepIsWithin(s: seq<Model>, keep: Model -> bool)
    ensures forall i :: 0 <= i < |Keep(s, keep)| ==> Keep(s, keep)[i] in s
  {
    if s != [] {
      KeepIsWithin(s[..|s| - 1], keep);
    }
  }

  lemma {:induction false} SumKeep(weight: Model -> int, s: seq<Model>, keep: Model -> bool)
    requires NonNegative(weight, s)
    ensures Sum(weight, Keep(s, keep)) <= Sum(weight, s)
  {
    if s != [] {
      var init, last := s[..|s| - 1], s[|s| - 1];
      SumKeep(weight, init, keep);
      SumConcat(weight, Keep(init, keep), if keep(last) then [last] else []);
      assert [last][..0] == [];
    }
  }

  /** Leaving models out never raises the sum. */
  lemma DedupedSumKeep(s: seq<Model>, pick: Model -> int, take: Model -> bool, keep: Model -> bool)
    requires NonNegative(pick, s)
    ensures DedupedSum(Keep(s, keep), pick, take) <= DedupedSum(s, pick, take)
  {
    assert NonNegative(LooseWeight(pick, take), s);
    SumKeep(LooseWeight(pick, take), s, keep);
    KeepIsWithin(s, keep);
    var p, q := PoolMax(Keep(s, keep), pick, take), PoolMax(s, pick, take);
    forall k | k in p ensures k in q && p[k] <= q[k] { PoolMaxWithin(Keep(s, keep), s, pick, take, k); }
    PoolMaxSpec(s, pick, take);
    forall k | k in q ensures 0 <= q[k] { assert IsPoolMax(s, pick, take, k, q[k]); }
    SumMapMonotone(p, q);
  }

  // ----- The catalogue totals.

  predicate Recurring(t: FreeType) {
    t.RecurringDaily? || t.RecurringMonthly? || t.Keyless?
  }

  const MONTHLY: Model -> int := (m: Model) => m.monthlyTokens
  const CREDIT: Model -> int := (m: Model) => m.creditTokens
  const IS_RECURRING: Model -> bool := (m: Model) => Recurring(m.freeType)
  const IS_RECURRING_CREDIT: Model -> bool := (m: Model) => m.freeType.RecurringCredit?
  const IS_ONE_TIME: Model -> bool := (m: Model) => m.freeType.OneTimeInitial?
  const NOT_AVOIDED: Model -> bool := (m: Model) => !m.tosAvoid

  datatype Totals = Totals(steady: int, withRecurringCredits: int, firstMonth: int)

  ghost function TotalsOf(catalog: seq<Model>, excludeTosAvoid: bool): Totals {
    var models := if excludeTosAvoid then Keep(catalog, NOT_AVOIDED) else catalog;
    var steady := DedupedSum(models, MONTHLY, IS_RECURRING);
    var withCredits := steady + DedupedSum(models, CREDIT, IS_RECURRING_CREDIT);
    Totals(steady, withCredits, withCredits + DedupedSum(models, CREDIT, IS_ONE_TIME))
  }

  method ComputeTotals(catalog: seq<Model>, excludeTosAvoid: bool) returns (t: Totals)
    ensures t == TotalsOf(catalog, excludeTosAvoid)
  {
    var models := if excludeTosAvoid then Keep(catalog, NOT_AVOIDED) else catalog;
    var steady := ComputeDedupedSum(models, MONTHLY, IS_RECURRING);
    var recurringCredits := ComputeDedupedSum(models, CREDIT, IS_RECURRING_CREDIT);
    var oneTimeCredits := ComputeDedupedSum(models, CREDIT, IS_ONE_TIME);
    t := Totals(steady, steady + recurringCredits, steady + recurringCredits + oneTimeCredits);
  }

  // ----- The totals, one more model at a time.

  datatype Group = Steady | RecurringCredits | OneTime

  function GroupOf(t: FreeType): Option<Group> {
    match t
    case RecurringDaily => Some(Steady)
    case RecurringMonthly => Some(Steady)
    case Keyless => Some(Steady)
    case RecurringCredit => Some(RecurringCredits)
    case OneTimeInitial => Some(OneTime)
    case RecurringUncapped => None
    case Discontinued => None
  }

  /** What a model is counted with: its tokens per month, or its credits. */
  function ValueIn(g: Group, m: Model): int {
    if g.Steady? then m.monthlyTokens else m.creditTokens
  }

  predicate Counts(g: Group, excludeTosAvoid: bool, m: Model) {
    GroupOf(m.freeType) == Some(g) && !(excludeTosAvoid && m.tosAvoid)
  }

  /** The largest value that a model of the group draws from the pool, or zero. */
  ghost predicate IsBest(catalog: seq<Model>, g: Group, excludeTosAvoid: bool, pool: string, best: int) {
    && best >= 0
    && (forall m :: m in catalog && Counts(g, excludeTosAvoid, m) && m.poolKey == Some(pool) ==> ValueIn(g, m) <= best)
    && (best == 0
        || exists m ::
             m in catalog && Counts(g, excludeTosAvoid, m) && m.poolKey == Some(pool) && ValueIn(g, m) == best)
  }

  /** Raises each total from that of the group on. */
  function Raised(t: Totals, g: Group, gain: int): Totals {
    Totals(if g.Steady? then t.steady + gain else t.steady,
           if g.OneTime? then t.withRecurringCredits else t.withRecurringCredits + gain,
           t.firstMonth + gain)
  }

  ghost function GroupSum(models: seq<Model>, g: Group): int {
    match g
    case Steady => DedupedSum(models, MONTHLY, IS_RECURRING)
    case RecurringCredits => DedupedSum(models, CREDIT, IS_RECURRING_CREDIT)
    case OneTime => DedupedSum(models, CREDIT, IS_ONE_TIME)
  }

  lemma {:induction false} KeptIff(s: seq<Model>, keep: Model -> bool, m: Model)
    ensures m in Keep(s, keep) <==> m in s && keep(m)
  {
    if s != [] {
      KeptIff(s[..|s| - 1], keep, m);
      assert s == s[..|s| - 1] + [s[|s| - 1]];
    }
  }

  function Considered(catalog: seq<Model>, excludeTosAvoid: bool): seq<Model> {
    if excludeTosAvoid then Keep(catalog, NOT_AVOIDED) else catalog
  }

  lemma ConsideredIff(catalog: seq<Model>, excludeTosAvoid: bool, m: Model)
    ensures m in Considered(catalog, excludeTosAvoid) <==> m in catalog && !(excludeTosAvoid && m.tosAvoid)
  {
    KeptIff(catalog, NOT_AVOIDED, m);
  }

  lemma BestIsPoolMaxOf(
    catalog: seq<Model>, g: Group, excludeTosAvoid: bool, pool: string, best: int,
    pick: Model -> int, take: Model -> bool)
    requires pool != "" && IsBest(catalog, g, excludeTosAvoid, pool, best)
    requires forall m :: pick(m) == ValueIn(g, m) && (take(m) <==> GroupOf(m.freeType) == Some(g))
    ensures IsPoolMax(Considered(catalog, excludeTosAvoid), pick, take, pool, best)
  {
    var models := Considered(catalog, excludeTosAvoid);
    forall m ensures m in models <==> m in catalog && !(excludeTosAvoid && m.tosAvoid) {
      ConsideredIff(catalog, excludeTosAvoid, m);
    }
    forall i | 0 <= i < |models| && InPool(models[i], take, pool) ensures pick(models[i]) <= best {
      assert models[i] in models && models[i].poolKey == Some(pool);
      assert Counts(g, excludeTosAvoid, models[i]);
    }
    if best != 0 {
      var m :| m in catalog && Counts(g, excludeTosAvoid, m) && m.poolKey == Some(pool) && ValueIn(g, m) == best;
      assert m in models;
      var i :| 0 <= i < |models| && models[i] == m;
      assert InPool(models[i], take, pool);
    }
  }

  function Added(g: Group, excludeTosAvoid: bool, m: Model, best: int): int {
    if Counts(g, excludeTosAvoid, m) then Gain(m, ValueIn(g, m), best) else 0
  }

  lemma GroupSumStep(catalog: seq<Model>, g: Group, excludeTosAvoid: bool, m: Model, best: int)
    requires Counts(g, excludeTosAvoid, m) && m.poolKey.Some? && m.poolKey.value != "" ==>
               IsBest(catalog, g, excludeTosAvoid, m.poolKey.value, best)
    ensures GroupSum(Considered(catalog + [m], excludeTosAvoid), g)
         == GroupSum(Considered(catalog, excludeTosAvoid), g)
            + Added(g, excludeTosAvoid, m, best)
  {
    var models := Considered(catalog, excludeTosAvoid);
    assert (catalog + [m])[..|catalog|] == catalog;
    assert Considered(catalog + [m], excludeTosAvoid) ==
           if excludeTosAvoid && m.tosAvoid then models else models + [m] by {
      assert models + [] == models;
    }
    var pick := if g.Steady? then MONTHLY else CREDIT;
    var take := if g.Steady? then IS_RECURRING else if g.OneTime? then IS_ONE_TIME else IS_RECURRING_CREDIT;
    if Counts(g, excludeTosAvoid, m) && m.poolKey.Some? && m.poolKey.value != "" {
      BestIsPoolMaxOf(catalog, g, excludeTosAvoid, m.poolKey.value, best, pick, take);
    }
    if !(excludeTosAvoid && m.tosAvoid) {
      AddingModel(models, m, pick, take, best);
    }
  }

  /**
   * One more model, at the end of the catalogue, raises the totals from its group's on by its value,
   * or by what it raises its pool's best value by; a model of no group, or one that is left out for
   * its terms, changes nothing. With no models all totals are zero, so this settles the totals.
   */
  lemma TotalsStep(catalog: seq<Model>, excludeTosAvoid: bool, m: Model, best: int)
    requires m.poolKey.Some? && m.poolKey.value != "" ==>
               forall g :: GroupOf(m.freeType) == Some(g) ==> IsBest(catalog, g, excludeTosAvoid, m.poolKey.value, best)
    ensures TotalsOf([], excludeTosAvoid) == Totals(0, 0, 0)
    ensures var t, g := TotalsOf(catalog, excludeTosAvoid), GroupOf(m.freeType);
            TotalsOf(catalog + [m], excludeTosAvoid) ==
            if g.None? || (excludeTosAvoid && m.tosAvoid) then t
            else Raised(t, g.value, Gain(m, ValueIn(g.value, m), best))
  {
    NoTotals(excludeTosAvoid);
    TotalsAfter(catalog, excludeTosAvoid, m, best);
    AddedRaises(TotalsOf(catalog, excludeTosAvoid), excludeTosAvoid, m, best);
  }

  lemma NoTotals(excludeTosAvoid: bool)
    ensures TotalsOf([], excludeTosAvoid) == Totals(0, 0, 0)
  {
  }

  /** The group sums of a catalogue with one more model. */
  lemma TotalsAfter(catalog: seq<Model>, excludeTosAvoid: bool, m: Model, best: int)
    requires m.poolKey.Some? && m.poolKey.value != "" ==>
               forall g :: GroupOf(m.freeType) == Some(g) ==> IsBest(catalog, g, excludeTosAvoid, m.poolKey.value, best)
    ensures var t := TotalsOf(catalog, excludeTosAvoid);
            var steady := Added(Steady, excludeTosAvoid, m, best);
            var credits := steady + Added(RecurringCredits, excludeTosAvoid, m, best);
            TotalsOf(catalog + [m], excludeTosAvoid) ==
            Totals(t.steady + steady, t.withRecurringCredits + credits,
                   t.firstMonth + credits + Added(OneTime, excludeTosAvoid, m, best))
  {
    TotalsAreGroupSums(catalog, excludeTosAvoid);
    TotalsAreGroupSums(catalog + [m], excludeTosAvoid);
    GroupSumStep(catalog, Steady, excludeTosAvoid, m, best);
    GroupSumStep(catalog, RecurringCredits, excludeTosAvoid, m, best);
    GroupSumStep(catalog, OneTime, excludeTosAvoid, m, best);
  }

  lemma AddedRaises(t: Totals, excludeTosAvoid: bool, m: Model, best: int)
    ensures var g := GroupOf(m.freeType);
            var steady := Added(Steady, excludeTosAvoid, m, best);
            var credits := steady + Added(RecurringCredits, excludeTosAvoid, m, best);
            Totals(t.steady + steady, t.withRecurringCredits + credits,
                   t.firstMonth + credits + Added(OneTime, excludeTosAvoid, m, best))
            == if g.None? || (excludeTosAvoid && m.tosAvoid) then t
               else Raised(t, g.value, Gain(m, ValueIn(g.value, m), best))
  {
  }

  lemma TotalsAreGroupSums(catalog: seq<Model>, excludeTosAvoid: bool)
    ensures var models, t := Considered(catalog, excludeTosAvoid), TotalsOf(catalog, excludeTosAvoid);
            && t.steady == GroupSum(models, Steady)
            && t.withRecurringCredits == GroupSum(models, Steady) + GroupSum(models, RecurringCredits)
            && t.firstMonth == t.withRecurringCredits + GroupSum(models, OneTime)
  {
  }

  /** Steady, with credits and first month only grow, and leaving out the models whose terms say
      "avoid" raises none of them. */
  lemma TotalsOrdered(catalog: seq<Model>)
    requires NonNegative(MONTHLY, catalog) && NonNegative(CREDIT, catalog)
    ensures forall exclude ::
              var t := TotalsOf(catalog, exclude); 0 <= t.steady <= t.withRecurringCredits <= t.firstMonth
    ensures var strict, all := TotalsOf(catalog, true), TotalsOf(catalog, false);
            && strict.steady <= all.steady
            && strict.withRecurringCredits <= all.withRecurringCredits
            && strict.firstMonth <= all.firstMonth
  {
    KeepIsWithin(catalog, NOT_AVOIDED);
    var kept := Keep(catalog, NOT_AVOIDED);
    assert NonNegative(MONTHLY, kept) && NonNegative(CREDIT, kept);
    GroupBounds(catalog, MONTHLY, IS_RECURRING);
    GroupBounds(catalog, CREDIT, IS_RECURRING_CREDIT);
    GroupBounds(catalog, CREDIT, IS_ONE_TIME);
    DedupedAtMostPlain(kept, MONTHLY, IS_RECURRING);
    DedupedAtMostPlain(kept, CREDIT, IS_RECURRING_CREDIT);
    DedupedAtMostPlain(kept, CREDIT, IS_ONE_TIME);
  }

  lemma GroupBounds(s: seq<Model>, pick: Model -> int, take: Model -> bool)
    requires NonNegative(pick, s)
    ensures 0 <= DedupedSum(s, pick, take)
    ensures DedupedSum(Keep(s, NOT_AVOIDED), pick, take) <= DedupedSum(s, pick, take)
  {
    DedupedAtMostPlain(s, pick, take);
    DedupedSumKeep(s, pick, take, NOT_AVOIDED);
  }
}
