/** The air-quality engine of the dashboard (frontend/app.js): the PM2.5 tier
    classification, the gauge percentage, and the advice list that the tier
    advice seeds and the per-metric threshold rules extend.

    A reading is a map from metric name to value; a metric that is
    `undefined` in the JavaScript object is a key that is not in the map.
    Numbers are reals (no NaN, no rounding). */
module AirQuality {
  import opened Options

  // ------------------------------------------------------------------ tables

  /** An upper bound or a sort key: a finite number or JavaScript's `Infinity`. */
  datatype Bound = Finite(value: real) | Infinity

  /** `v <= b`, where every number is at most `Infinity`. */
  predicate AtMost(v: real, b: Bound) {
    b.Infinity? || v <= b.value
  }

  /** One row of `PM2_5_THRESHOLDS`: the upper bound of its range and what the
      dashboard shows for it. */
  datatype Tier = Tier(max: Bound, level: string, color: string, textColor: string, advice: string)

  const PM25_FIELD := "pm2_5"
  const MAX_GAUGE_VALUE: real := 100.0

  const GOOD_ADVICE := "Air conditions are good. No action required."
  const MODERATE_ADVICE := "Air quality is acceptable. Consider opening windows for ventilation."
  const SENSITIVE_ADVICE := "Ventilate the room to improve air quality. Sensitive individuals should limit prolonged outdoor exertion."
  const HAZARDOUS_ADVICE := "Avoid staying long, air seriously polluted! Keep windows closed and run an air purifier if available."

  /** The PM2.5 tiers (US EPA ranges), ascending, the last one open-ended. */
  const Pm25Thresholds: seq<Tier> := [
    Tier(Finite(12.0), "Good", "#00e400", "white", GOOD_ADVICE),
    Tier(Finite(35.4), "Moderate", "#ffff00", "black", MODERATE_ADVICE),
    Tier(Finite(55.4), "Unhealthy for Sensitive Groups", "#ff7e00", "white", SENSITIVE_ADVICE),
    Tier(Infinity, "Hazardous", "#8f3f97", "white", HAZARDOUS_ADVICE)
  ]

  /** A rule of `OTHER_THRESHOLDS`: it fires when the value is at least `min`
      or at most `max`, whichever of the two the rule defines. */
  datatype Rule = Rule(min: Option<real>, max: Option<real>, advice: string)

  /** The metrics with their rules, in the declaration order of the object's keys. */
  type RuleTable = seq<(string, seq<Rule>)>

  const COOL_ADVICE := "Open windows or reduce heating to cool the room."
  const HEAT_ADVICE := "Increase heating to maintain comfort."
  const DEHUMIDIFY_ADVICE := "Use a dehumidifier or ventilate to reduce moisture."
  const HUMIDIFY_ADVICE := "Consider using a humidifier."
  const CO2_VERY_HIGH_ADVICE := "CO2 is very high. Immediate and prolonged ventilation is highly recommended."
  const CO2_HIGH_ADVICE := "CO2 is high. Ventilate the room (open windows) to improve air quality."
  const VOC_CRITICAL_ADVICE := "Critical VOC Index detected! Seek immediate ventilation to disperse potential chemical pollutants."
  const VOC_HIGH_ADVICE := "High VOC Index detected. Ensure good ventilation to disperse volatile organic compounds."

  const TemperatureRules: seq<Rule> := [Rule(Some(25.0), None, COOL_ADVICE), Rule(None, Some(18.0), HEAT_ADVICE)]
  const HumidityRules: seq<Rule> := [Rule(Some(60.0), None, DEHUMIDIFY_ADVICE), Rule(None, Some(30.0), HUMIDIFY_ADVICE)]
  const Co2Rules: seq<Rule> := [Rule(Some(1400.0), None, CO2_VERY_HIGH_ADVICE), Rule(Some(1000.0), None, CO2_HIGH_ADVICE)]
  const VocRules: seq<Rule> := [Rule(Some(5.0), None, VOC_CRITICAL_ADVICE), Rule(Some(2.0), None, VOC_HIGH_ADVICE)]

  const OtherThresholds: RuleTable := [
    ("temperature", TemperatureRules),
    ("humidity", HumidityRules),
    ("co2", Co2Rules),
    ("voc_index", VocRules)
  ]

  // ------------------------------------------------------- tier selection

  /** Index of the first tier at or after `from` whose bound admits `v`; the
      last index when none does (the fallback after the loop). */
  function FirstTierFrom(tiers: seq<Tier>, v: real, from: nat): (k: nat)
    requires from < |tiers|
    ensures from <= k < |tiers|
    ensures AtMost(v, tiers[k].max) || k == |tiers| - 1
    ensures forall j :: from <= j < k ==> !AtMost(v, tiers[j].max)
    decreases |tiers| - from
  {
    if AtMost(v, tiers[from].max) || from == |tiers| - 1 then from
    else FirstTierFrom(tiers, v, from + 1)
  }

  /** The tier `getPm25Level` picks for `v`: the first whose bound admits it. */
  function TierIndex(tiers: seq<Tier>, v: real): (k: nat)
    requires |tiers| > 0
    ensures k < |tiers|
    ensures AtMost(v, tiers[k].max) || k == |tiers| - 1
    ensures forall j :: 0 <= j < k ==> !AtMost(v, tiers[j].max)
  {
    FirstTierFrom(tiers, v, 0)
  }

  /** The last tier is open-ended, so some tier always admits the value. */
  predicate OpenEnded(tiers: seq<Tier>) {
    |tiers| > 0 && tiers[|tiers| - 1].max == Infinity
  }

  /** The tier bounds never decrease. */
  predicate Ascending(tiers: seq<Tier>) {
    forall i, j :: 0 <= i < j < |tiers| ==>
      tiers[j].max.Infinity? || (tiers[i].max.Finite? && tiers[i].max.value <= tiers[j].max.value)
  }

  /** Any tier that admits `v` is at or after the one selected, and with an
      open-ended last tier the selected one always admits `v`. */
  lemma TierIndexIsFirstMatch(tiers: seq<Tier>, v: real, j: nat)
    requires OpenEnded(tiers) && j < |tiers|
    ensures AtMost(v, tiers[TierIndex(tiers, v)].max)
    ensures AtMost(v, tiers[j].max) ==> TierIndex(tiers, v) <= j
  {
  }

  /** Tier selection is monotone: a larger value never gets an earlier tier. */
  lemma TierIndexMonotone(tiers: seq<Tier>, v1: real, v2: real)
    requires |tiers| > 0 && v1 <= v2
    ensures TierIndex(tiers, v1) <= TierIndex(tiers, v2)
  {
    var k2 := TierIndex(tiers, v2);
    if AtMost(v2, tiers[k2].max) {
      assert AtMost(v1, tiers[k2].max);
    }
  }

  /** With ascending bounds and an open-ended last tier, tier `k` is selected
      exactly for the values above the previous bound and at most its own:
      a value on a bound belongs to the lower tier. */
  lemma TierIndexInterval(tiers: seq<Tier>, v: real, k: nat)
    requires OpenEnded(tiers) && Ascending(tiers) && k < |tiers|
    ensures TierIndex(tiers, v) == k <==>
      AtMost(v, tiers[k].max) && (k == 0 || !AtMost(v, tiers[k - 1].max))
  {
    var t := TierIndex(tiers, v);
    if AtMost(v, tiers[k].max) && (k == 0 || !AtMost(v, tiers[k - 1].max)) {
      TierIndexIsFirstMatch(tiers, v, k);
      if t < k {
        assert false;
      }
    }
  }

  /** The shipped table is open-ended and ascending; 12.0 and 35.4 fall into
      the lower of the two tiers they separate. */
  lemma ShippedTiers()
    ensures OpenEnded(Pm25Thresholds) && Ascending(Pm25Thresholds)
    ensures TierIndex(Pm25Thresholds, 10.0) == 0 && TierIndex(Pm25Thresholds, 12.0) == 0
    ensures TierIndex(Pm25Thresholds, 12.1) == 1 && TierIndex(Pm25Thresholds, 35.4) == 1
    ensures TierIndex(Pm25Thresholds, 40.0) == 2 && TierIndex(Pm25Thresholds, 55.4) == 2
    ensures TierIndex(Pm25Thresholds, 55.5) == 3
  {
    TierIndexInterval(Pm25Thresholds, 12.1, 1);
    TierIndexInterval(Pm25Thresholds, 35.4, 1);
    TierIndexInterval(Pm25Thresholds, 40.0, 2);
    TierIndexInterval(Pm25Thresholds, 55.4, 2);
  }

  /** `getPm25Level`: the first tier whose bound admits the value, falling
      back to the last tier. */
  method GetPm25Level(pm25: real) returns (tier: Tier)
    ensures tier == Pm25Thresholds[TierIndex(Pm25Thresholds, pm25)]
    ensures AtMost(pm25, tier.max)
  {
    for i := 0 to |Pm25Thresholds|
      invariant forall j :: 0 <= j < i ==> !AtMost(pm25, Pm25Thresholds[j].max)
    {
      if AtMost(pm25, Pm25Thresholds[i].max) {
        return Pm25Thresholds[i];
      }
    }
    return Pm25Thresholds[|Pm25Thresholds| - 1];
  }

  // -------------------------------------------------------------- gauge

  function Min(a: real, b: real): real { if a <= b then a else b }
  function Max(a: real, b: real): real { if a >= b then a else b }

  /** The needle position of `updateGauge`, in percent of `MAX_GAUGE_VALUE`,
      clamped to [0, 100] and raised to 1 for a positive value. */
  function GaugePercentage(pm25: real): (p: real)
    ensures 0.0 <= p <= 100.0
    ensures pm25 <= 0.0 ==> p == 0.0
    ensures 0.0 < pm25 < 1.0 ==> p == 1.0
    ensures 1.0 <= pm25 <= MAX_GAUGE_VALUE ==> p == pm25
    ensures pm25 >= MAX_GAUGE_VALUE ==> p == 100.0
  {
    var scaled := pm25 / MAX_GAUGE_VALUE * 100.0;
    var clamped := Max(0.0, Min(scaled, 100.0));
    if clamped < 1.0 && pm25 > 0.0 then 1.0 else clamped
  }

  /** The needle never moves left when the value grows. */
  lemma GaugeMonotone(v1: real, v2: real)
    requires v1 <= v2
    ensures GaugePercentage(v1) <= GaugePercentage(v2)
  {
  }

  // -------------------------------------------------------- rule sorting

  /** The key of the comparator `(b.min || Infinity) - (a.min || Infinity)`:
      a missing `min`, and a `min` of 0 (which is falsy), count as Infinity. */
  function SortKey(r: Rule): (k: Bound)
    ensures k.Infinity? <==> r.min.None? || r.min == Some(0.0)
    ensures k.Finite? ==> r.min == Some(k.value)
  {
    match r.min
    case None => Infinity
    case Some(m) => if m == 0.0 then Infinity else Finite(m)
  }

  /** `a >= b` on sort keys; Infinity against Infinity is a tie. */
  predicate KeyAtLeast(a: Bound, b: Bound) {
    a.Infinity? || (b.Finite? && a.value >= b.value)
  }

  /** Descending by sort key, as the comparator orders them. */
  predicate SortedByKey(rules: seq<Rule>) {
    forall i, j :: 0 <= i < j < |rules| ==> KeyAtLeast(SortKey(rules[i]), SortKey(rules[j]))
  }

  /** Places `x` after every rule whose key is at least its own, so that equal
      keys keep their order. */
  function Insert(sorted: seq<Rule>, x: Rule): (r: seq<Rule>)
    requires SortedByKey(sorted)
    ensures SortedByKey(r)
    ensures multiset(r) == multiset(sorted) + multiset{x}
    ensures |r| == |sorted| + 1
  {
    if sorted == [] then [x]
    else if KeyAtLeast(SortKey(sorted[0]), SortKey(x)) then
      var rest := Insert(sorted[1..], x);
      assert sorted == [sorted[0]] + sorted[1..];
      assert forall k :: 0 <= k < |rest| ==> KeyAtLeast(SortKey(sorted[0]), SortKey(rest[k])) by {
        forall k | 0 <= k < |rest| ensures KeyAtLeast(SortKey(sorted[0]), SortKey(rest[k])) {
          assert rest[k] in multiset(rest);
          if rest[k] != x {
            assert rest[k] in sorted[1..];
            var m :| 0 <= m < |sorted[1..]| && sorted[1..][m] == rest[k];
            assert sorted[m + 1] == rest[k];
          }
        }
      }
      [sorted[0]] + rest
    else
      assert forall j :: 0 <= j < |sorted| ==> KeyAtLeast(SortKey(x), SortKey(sorted[j])) by {
        forall j | 0 <= j < |sorted| ensures KeyAtLeast(SortKey(x), SortKey(sorted[j])) {
          if j > 0 {
            assert KeyAtLeast(SortKey(sorted[0]), SortKey(sorted[j]));
          }
        }
      }
      [x] + sorted
  }

  /** `slice().sort(...)`: a sorted copy of a metric's rules, descending by
      key, stable for equal keys. */
  function SortRules(rules: seq<Rule>): (sorted: seq<Rule>)
    ensures SortedByKey(sorted)
    ensures multiset(sorted) == multiset(rules)
    ensures |sorted| == |rules|
  {
    if rules == [] then []
    else
      assert rules == rules[..|rules| - 1] + [rules[|rules| - 1]];
      Insert(SortRules(rules[..|rules| - 1]), rules[|rules| - 1])
  }

  /** After the sort, a rule without `min` comes before every rule with a
      nonzero `min`. */
  lemma MaxOnlyRulesFirst(rules: seq<Rule>, i: nat, j: nat)
    requires i < |SortRules(rules)| && j < |SortRules(rules)|
    requires SortRules(rules)[i].min.None?
    requires SortRules(rules)[j].min.Some? && SortRules(rules)[j].min.value != 0.0
    ensures i < j
  {
  }

  /** Two rules keep their order unless the second has the larger key. */
  lemma SortTwo(a: Rule, b: Rule)
    ensures SortRules([a, b]) == if KeyAtLeast(SortKey(a), SortKey(b)) then [a, b] else [b, a]
  {
    assert [a, b][..1] == [a];
    assert [a][..0] == [];
    assert SortRules([a]) == [a];
  }

  /** For the shipped table, the max-only temperature and humidity rules come
      first and the CO2 and VOC rules keep their declared order. */
  lemma ShippedSortOrder()
    ensures SortRules(TemperatureRules) == [TemperatureRules[1], TemperatureRules[0]]
    ensures SortRules(HumidityRules) == [HumidityRules[1], HumidityRules[0]]
    ensures SortRules(Co2Rules) == Co2Rules
    ensures SortRules(VocRules) == VocRules
  {
    SortPair(TemperatureRules);
    SortPair(HumidityRules);
    SortPair(Co2Rules);
    SortPair(VocRules);
  }

  lemma SortPair(rules: seq<Rule>)
    requires |rules| == 2
    ensures SortRules(rules) == if KeyAtLeast(SortKey(rules[0]), SortKey(rules[1])) then rules else [rules[1], rules[0]]
  {
    assert rules == [rules[0], rules[1]];
    SortTwo(rules[0], rules[1]);
  }

  // ---------------------------------------------------- firing and the set

  /** The condition of `generateAdvice` under which a rule adds its advice:
      both bounds are inclusive, a one-sided rule never fires on the wrong side
      of its bound, and a rule with neither bound never fires. */
  function Fires(r: Rule, v: real): (fired: bool)
    ensures r.min == Some(v) || r.max == Some(v) ==> fired
    ensures r.min.Some? && r.max.None? && v < r.min.value ==> !fired
    ensures r.min.None? && r.max.Some? && v > r.max.value ==> !fired
    ensures r.min.None? && r.max.None? ==> !fired
  {
    (r.min.Some? && v >= r.min.value) || (r.max.Some? && v <= r.max.value)
  }

  /** The advice of every firing rule, in the order of `rules`. */
  function FiredAdvice(rules: seq<Rule>, v: real): (out: seq<string>)
    ensures |out| <= |rules|
    ensures forall s :: s in out <==> exists r :: r in rules && Fires(r, v) && r.advice == s
  {
    if rules == [] then []
    else
      var last := rules[|rules| - 1];
      assert rules == rules[..|rules| - 1] + [last];
      FiredAdvice(rules[..|rules| - 1], v) + (if Fires(last, v) then [last.advice] else [])
  }

  /** For the shipped table a metric's min rule and max rule never fire together. */
  lemma ShippedMinMaxExclusive(i: nat, lower: Rule, upper: Rule, v: real)
    requires i < |OtherThresholds|
    requires lower in OtherThresholds[i].1 && lower.min.Some?
    requires upper in OtherThresholds[i].1 && upper.max.Some?
    ensures !(v >= lower.min.value && v <= upper.max.value)
  {
  }

  predicate NoDuplicates(s: seq<string>) {
    forall i, j :: 0 <= i < j < |s| ==> s[i] != s[j]
  }

  /** `Set.prototype.add` on an insertion-ordered set held as a sequence. */
  function Add(acc: seq<string>, x: string): seq<string> {
    if x in acc then acc else acc + [x]
  }

  /** `Add` behaves as a set insertion that remembers insertion order: the
      members are the old ones plus `x`, the old order is kept as a prefix,
      adding a present member changes nothing, and no duplicate appears. */
  lemma AddSetSemantics(acc: seq<string>, x: string)
    ensures forall s :: s in Add(acc, x) <==> s in acc || s == x
    ensures |acc| <= |Add(acc, x)| <= |acc| + 1 && Add(acc, x)[..|acc|] == acc
    ensures x in acc ==> Add(acc, x) == acc
    ensures NoDuplicates(acc) ==> NoDuplicates(Add(acc, x))
  {
  }

  /** Adds each of `xs` in turn. */
  function AddAll(acc: seq<string>, xs: seq<string>): (r: seq<string>)
    ensures |acc| <= |r| && r[..|acc|] == acc
    ensures NoDuplicates(acc) ==> NoDuplicates(r)
    ensures forall s :: s in r <==> s in acc || s in xs
  {
    if xs == [] then acc
    else
      assert xs == xs[..|xs| - 1] + [xs[|xs| - 1]];
      Add(AddAll(acc, xs[..|xs| - 1]), xs[|xs| - 1])
  }

  /** Adding strings that are all new and pairwise distinct appends them. */
  lemma {:induction false} AddAllFresh(acc: seq<string>, xs: seq<string>)
    requires NoDuplicates(xs) && forall x :: x in xs ==> x !in acc
    ensures AddAll(acc, xs) == acc + xs
  {
    if xs != [] {
      var n := |xs| - 1;
      AddAllFresh(acc, xs[..n]);
      assert xs[n] !in xs[..n];
      assert xs == xs[..n] + [xs[n]];
    }
  }

  /** When the contributions are pairwise distinct and differ from the base
      advice, the result is the base advice followed by all of them. */
  lemma AdviceForFresh(data: map<string, real>, baseAdvice: string, table: RuleTable)
    requires NoDuplicates(Contributions(data, table)) && baseAdvice !in Contributions(data, table)
    ensures AdviceFor(data, baseAdvice, table) == [baseAdvice] + Contributions(data, table)
  {
    AddAllFresh([baseAdvice], Contributions(data, table));
  }

  /** What one metric of the table contributes for `data`: nothing when the
      metric is missing, else its firing rules in sorted order. */
  function MetricAdvice(data: map<string, real>, metric: (string, seq<Rule>)): (out: seq<string>)
    ensures metric.0 !in data ==> out == []
    ensures |out| <= |metric.1|
  {
    if metric.0 in data then FiredAdvice(SortRules(metric.1), data[metric.0]) else []
  }

  /** The contributions of all metrics, in table order, before deduplication. */
  function Contributions(data: map<string, real>, table: RuleTable): seq<string> {
    if table == [] then []
    else Contributions(data, table[..|table| - 1]) + MetricAdvice(data, table[|table| - 1])
  }

  /** The result of `generateAdvice` for a rule table: the base advice, then
      each contribution not already present. */
  function AdviceFor(data: map<string, real>, baseAdvice: string, table: RuleTable): (advice: seq<string>)
    ensures |advice| > 0 && advice[0] == baseAdvice
    ensures NoDuplicates(advice)
  {
    AddAll([baseAdvice], Contributions(data, table))
  }

  /** Some rule of a metric present in `data` fires and carries advice `s`. */
  ghost predicate Triggered(data: map<string, real>, table: RuleTable, s: string) {
    exists i, r :: 0 <= i < |table| && table[i].0 in data && r in table[i].1
      && Fires(r, data[table[i].0]) && r.advice == s
  }

  /** A metric contributes `s` exactly when it is present and one of its rules
      fires with advice `s`; the sort neither adds nor drops a rule. */
  lemma MetricAdviceMembers(data: map<string, real>, metric: (string, seq<Rule>), s: string)
    ensures s in MetricAdvice(data, metric) <==>
      metric.0 in data && exists r :: r in metric.1 && Fires(r, data[metric.0]) && r.advice == s
  {
    if metric.0 in data {
      var sorted := SortRules(metric.1);
      forall r ensures r in sorted <==> r in metric.1 {
        assert r in sorted <==> r in multiset(sorted);
        assert r in metric.1 <==> r in multiset(metric.1);
      }
    }
  }

  lemma {:induction false} ContributionsMembers(data: map<string, real>, table: RuleTable, s: string)
    ensures s in Contributions(data, table) <==> Triggered(data, table, s)
  {
    if table != [] {
      var n := |table| - 1;
      var init := table[..n];
      ContributionsMembers(data, init, s);
      MetricAdviceMembers(data, table[n], s);
      if Triggered(data, table, s) {
        var i, r :| 0 <= i < |table| && table[i].0 in data && r in table[i].1
          && Fires(r, data[table[i].0]) && r.advice == s;
        if i < n {
          assert init[i] == table[i];
          assert Triggered(data, init, s);
        } else {
          assert s in MetricAdvice(data, table[n]);
        }
      }
      if Triggered(data, init, s) {
        var i, r :| 0 <= i < |init| && init[i].0 in data && r in init[i].1
          && Fires(r, data[init[i].0]) && r.advice == s;
        assert table[i] == init[i];
      }
      if s in MetricAdvice(data, table[n]) {
        var r :| r in table[n].1 && Fires(r, data[table[n].0]) && r.advice == s;
        assert Triggered(data, table, s);
      }
    }
  }

  /** Advice `s` is in the result exactly when it is the base advice or the
      advice of a firing rule of a metric present in `data`. */
  lemma AdviceMembership(data: map<string, real>, baseAdvice: string, table: RuleTable, s: string)
    ensures s in AdviceFor(data, baseAdvice, table) <==> s == baseAdvice || Triggered(data, table, s)
  {
    ContributionsMembers(data, table, s);
  }

  lemma {:induction false} ContributionsAppend(data: map<string, real>, a: RuleTable, b: RuleTable)
    ensures Contributions(data, a + b) == Contributions(data, a) + Contributions(data, b)
  {
    if b != [] {
      var n := |b| - 1;
      assert (a + b)[..|a + b| - 1] == a + b[..n];
      ContributionsAppend(data, a, b[..n]);
    } else {
      assert a + b == a;
    }
  }

  /** A metric missing from the reading contributes nothing: the result is the
      same as for the table without it. */
  lemma MissingMetricContributesNothing(data: map<string, real>, baseAdvice: string, table: RuleTable, i: nat)
    requires i < |table| && table[i].0 !in data
    ensures AdviceFor(data, baseAdvice, table) == AdviceFor(data, baseAdvice, table[..i] + table[i + 1..])
  {
    var before, at, after := table[..i], [table[i]], table[i + 1..];
    assert table == before + at + after;
    ContributionsAppend(data, before + at, after);
    ContributionsAppend(data, before, at);
    ContributionsAppend(data, before, after);
    ContributionsEmpty(data, at);
    assert Contributions(data, before + at) == Contributions(data, before);
    assert Contributions(data, table) == Contributions(data, before + after);
  }

  /** A metric the table does not name (`pm2_5`, `device_id`, ...) never
      changes the advice. */
  lemma {:induction false} UnknownMetricIgnored(data: map<string, real>, key: string, v: real, table: RuleTable)
    requires forall i :: 0 <= i < |table| ==> table[i].0 != key
    ensures Contributions(data[key := v], table) == Contributions(data, table)
  {
    if table != [] {
      var n := |table| - 1;
      UnknownMetricIgnored(data, key, v, table[..n]);
      assert table[n].0 != key;
    }
  }

  /** With no metric of the table present, the advice is the base advice alone. */
  lemma NoMetricsBaseOnly(data: map<string, real>, baseAdvice: string, table: RuleTable)
    requires forall i :: 0 <= i < |table| ==> table[i].0 !in data
    ensures AdviceFor(data, baseAdvice, table) == [baseAdvice]
  {
    ContributionsEmpty(data, table);
  }

  /** A walk over metrics none of which is present contributes nothing. */
  lemma {:induction false} ContributionsEmpty(data: map<string, real>, table: RuleTable)
    requires forall i :: 0 <= i < |table| ==> table[i].0 !in data
    ensures Contributions(data, table) == []
  {
    if table != [] {
      ContributionsEmpty(data, table[..|table| - 1]);
    }
  }

  lemma Co2Fired(v: real)
    requires v >= 1400.0
    ensures FiredAdvice(SortRules(Co2Rules), v) == [CO2_VERY_HIGH_ADVICE, CO2_HIGH_ADVICE]
  {
    ShippedSortOrder();
    assert Co2Rules[..1] == [Co2Rules[0]];
  }

  /** A reading whose only metric of the table is a CO2 value of at least 1400. */
  predicate HighCo2Only(data: map<string, real>) {
    "co2" in data && data["co2"] >= 1400.0
    && "temperature" !in data && "humidity" !in data && "voc_index" !in data
  }

  lemma Co2Contributions(data: map<string, real>)
    requires HighCo2Only(data)
    ensures Contributions(data, OtherThresholds) == [CO2_VERY_HIGH_ADVICE, CO2_HIGH_ADVICE]
  {
    var t := OtherThresholds;
    Co2Fired(data["co2"]);
    assert t[2] == ("co2", Co2Rules);
    assert Contributions(data, t[..2]) == [] by {
      ContributionsEmpty(data, t[..2]);
    }
    assert Contributions(data, t[..3]) == MetricAdvice(data, t[2]) by {
      assert t[..3][..2] == t[..2];
    }
    assert t[..4] == t;
    assert t[..4][..3] == t[..3];
  }

  /** CO2 at 1400 or more (1500, say) crosses both CO2 thresholds: both
      messages are added, the more severe one first. */
  lemma Co2BothMessages(data: map<string, real>, baseAdvice: string)
    requires HighCo2Only(data)
    requires baseAdvice != CO2_VERY_HIGH_ADVICE && baseAdvice != CO2_HIGH_ADVICE
    ensures AdviceFor(data, baseAdvice, OtherThresholds) == [baseAdvice, CO2_VERY_HIGH_ADVICE, CO2_HIGH_ADVICE]
  {
    Co2Contributions(data);
    Co2AdviceDistinct();
    AdviceForFresh(data, baseAdvice, OtherThresholds);
  }

  lemma Co2AdviceDistinct()
    ensures NoDuplicates([CO2_VERY_HIGH_ADVICE, CO2_HIGH_ADVICE])
  {
    assert |CO2_HIGH_ADVICE| != |CO2_VERY_HIGH_ADVICE|;
  }

  // ---------------------------------------------------- generateAdvice

  /** One step of the inner loop of `generateAdvice`: rule `j` adds its
      advice to the set exactly when it fires. */
  lemma FiredStep(acc: seq<string>, before: seq<string>, sorted: seq<Rule>, j: nat, v: real)
    requires j < |sorted|
    ensures AddAll(acc, before + FiredAdvice(sorted[..j + 1], v)) ==
      if Fires(sorted[j], v) then Add(AddAll(acc, before + FiredAdvice(sorted[..j], v)), sorted[j].advice)
      else AddAll(acc, before + FiredAdvice(sorted[..j], v))
  {
    assert sorted[..j + 1][..j] == sorted[..j];
    var done := before + FiredAdvice(sorted[..j], v);
    if Fires(sorted[j], v) {
      assert before + FiredAdvice(sorted[..j + 1], v) == done + [sorted[j].advice];
      assert (done + [sorted[j].advice])[..|done|] == done;
    } else {
      assert before + FiredAdvice(sorted[..j + 1], v) == done;
    }
  }

  /** One step of the outer loop of `generateAdvice`: metric `i` adds its
      contribution. */
  lemma MetricStep(data: map<string, real>, table: RuleTable, i: nat)
    requires i < |table|
    ensures Contributions(data, table[..i + 1]) == Contributions(data, table[..i]) + MetricAdvice(data, table[i])
    ensures table[i].0 !in data ==> Contributions(data, table[..i + 1]) == Contributions(data, table[..i])
  {
    assert table[..i + 1][..i] == table[..i];
  }

  /** `generateAdvice` over the rule table `table`: seeds the set with the tier
      advice, then walks the metrics in table order and adds the advice of
      every firing rule of each present metric, in sorted order. */
  method GenerateAdvice(data: map<string, real>, baseAdvice: string, table: RuleTable) returns (advice: seq<string>)
    ensures advice == AdviceFor(data, baseAdvice, table)
    ensures advice[0] == baseAdvice && NoDuplicates(advice)
  {
    advice := [baseAdvice];
    for i := 0 to |table|
      invariant advice == AddAll([baseAdvice], Contributions(data, table[..i]))
    {
      var key, rules := table[i].0, table[i].1;
      MetricStep(data, table, i);
      if key in data {
        var value := data[key];
        var sorted := SortRules(rules);
        ghost var before := Contributions(data, table[..i]);
        assert sorted[..0] == [] && before + [] == before;
        for j := 0 to |sorted|
          invariant advice == AddAll([baseAdvice], before + FiredAdvice(sorted[..j], value))
        {
          var t := sorted[j];
          FiredStep([baseAdvice], before, sorted, j, value);
          var fires := (t.min.Some? && value >= t.min.value) || (t.max.Some? && value <= t.max.value);
          assert fires == Fires(t, value);
          if fires {
            ghost var prev := advice;
            if t.advice !in advice {
              advice := advice + [t.advice];
            }
            assert advice == Add(prev, t.advice);
          }
        }
        assert sorted[..|sorted|] == sorted;
        assert MetricAdvice(data, table[i]) == FiredAdvice(sorted, value);
      }
    }
    assert table[..|table|] == table;
  }

  // ---------------------------------------------------------- updateUI

  /** What `updateUI` shows once it has a reading with a PM2.5 value. */
  datatype Dashboard = Dashboard(level: string, color: string, textColor: string, gauge: real, advice: seq<string>)

  /** The classification half of `updateUI`: nothing without a PM2.5 value;
      otherwise its tier, the gauge position and the advice list. */
  method UpdateUI(data: map<string, real>) returns (view: Option<Dashboard>)
    ensures view.None? <==> PM25_FIELD !in data
    ensures view.Some? ==>
      var tier := Pm25Thresholds[TierIndex(Pm25Thresholds, data[PM25_FIELD])];
      view.value == Dashboard(tier.level, tier.color, tier.textColor,
                              GaugePercentage(data[PM25_FIELD]),
                              AdviceFor(data, tier.advice, OtherThresholds))
  {
    if PM25_FIELD in data {
      var pm25 := data[PM25_FIELD];
      var tier := GetPm25Level(pm25);
      var gauge := GaugePercentage(pm25);
      var adviceList := GenerateAdvice(data, tier.advice, OtherThresholds);
      view := Some(Dashboard(tier.level, tier.color, tier.textColor, gauge, adviceList));
    } else {
      view := None;
    }
  }
}
