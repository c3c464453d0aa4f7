/** The checked integer score of one packet, against its exact unbounded value. */
module Scoring {
  import opened Common
  import opened Model

  predicate Counts(rule: SourceRule, c: Contribution) {
    rule.enabled && rule.weight > 0 && rule.source == c.source
  }

  /** Exact sum of the deltas a packet reports for a metric. */
  function MetricTotal(metrics: seq<(string, u64)>, metric: string): nat {
    if metrics == [] then 0
    else (if metrics[0].0 == metric then metrics[0].1 else 0) + MetricTotal(metrics[1..], metric)
  }

  function Multiplier(rule: SourceRule, c: Contribution): u64 {
    if c.gift.Some? && c.gift.value in rule.giftMultipliers then rule.giftMultipliers[c.gift.value] else 1
  }

  /** What one rule contributes, in unbounded integers. */
  function RuleValue(rule: SourceRule, c: Contribution): nat {
    if Counts(rule, c) then Worth(MetricTotal(c.metrics, rule.metric), rule.weight, Multiplier(rule, c)) else 0
  }

  function Worth(delta: nat, weight: nat, multiplier: nat): nat {
    delta * weight * multiplier
  }

  /** The exact unbounded-integer score of a packet under a list of rules. */
  function ExactScore(rules: seq<SourceRule>, c: Contribution): nat {
    if rules == [] then 0
    else ExactScore(rules[..|rules| - 1], c) + RuleValue(rules[|rules| - 1], c)
  }

  /** A gift packet without its gift cannot be valued by a rule that depends on the gift. */
  predicate Ambiguous(rule: SourceRule, c: Contribution) {
    && Counts(rule, c)
    && MetricTotal(c.metrics, rule.metric) > 0
    && c.source == GIFT_SOURCE
    && c.gift.None?
    && rule.giftMultipliers != map[]
  }

  predicate AnyAmbiguous(rules: seq<SourceRule>, c: Contribution) {
    exists i :: 0 <= i < |rules| && Ambiguous(rules[i], c)
  }

  /** The number of leading rules that can be valued. */
  function Unambiguous(rules: seq<SourceRule>, c: Contribution): (n: nat)
    ensures n <= |rules|
    ensures forall i :: 0 <= i < n ==> !Ambiguous(rules[i], c)
    ensures n < |rules| ==> Ambiguous(rules[n], c)
  {
    if rules == [] || Ambiguous(rules[0], c) then 0 else 1 + Unambiguous(rules[1..], c)
  }

  /**
   * What scoring a packet returns. The rules before the first ambiguous one are added up; if
   * their exact sum does not fit 64 bits the packet overflows, otherwise an ambiguous rule
   * makes it invalid, otherwise the exact sum is the score.
   */
  function Score(rules: seq<SourceRule>, c: Contribution): Result<u64, Error> {
    var n := Unambiguous(rules, c);
    var exact := ExactScore(rules[..n], c);
    if exact > U64_MAX then Err(Overflow)
    else if n < |rules| then Err(InvalidKey)
    else Ok(exact)
  }

  /** A packet is scored exactly when nothing is ambiguous and the exact sum fits 64 bits. */
  lemma ScoreIsExact(rules: seq<SourceRule>, c: Contribution)
    ensures Score(rules, c).Ok? <==> !AnyAmbiguous(rules, c) && ExactScore(rules, c) <= U64_MAX
    ensures Score(rules, c).Ok? ==> Score(rules, c).value == ExactScore(rules, c)
    ensures Score(rules, c).Err? ==> Score(rules, c).error in {Overflow, InvalidKey}
    ensures Score(rules, c) == Err(InvalidKey) ==> AnyAmbiguous(rules, c)
  {
    var n := Unambiguous(rules, c);
    assert rules[..|rules|] == rules;
    ExactScorePrefix(rules, n, c);
  }

  lemma {:induction false} ExactScorePrefix(rules: seq<SourceRule>, n: nat, c: Contribution)
    requires n <= |rules|
    ensures ExactScore(rules[..n], c) <= ExactScore(rules, c)
    decreases |rules|
  {
    if n < |rules| {
      var front := rules[..|rules| - 1];
      ExactScorePrefix(front, n, c);
      assert front[..n] == rules[..n];
    } else {
      assert rules[..n] == rules;
    }
  }

  lemma WorthAdds(a: nat, b: nat, weight: nat, multiplier: nat)
    ensures Worth(a + b, weight, multiplier) == Worth(a, weight, multiplier) + Worth(b, weight, multiplier)
  {
    assert (a + b) * weight == a * weight + b * weight;
    assert (a * weight + b * weight) * multiplier == a * weight * multiplier + b * weight * multiplier;
  }

  lemma WorthGrows(delta: nat, weight: nat, multiplier: nat)
    requires multiplier > 0
    ensures delta * weight <= Worth(delta, weight, multiplier)
  {
    assert delta * weight * (multiplier - 1) >= 0;
    assert delta * weight * multiplier == delta * weight * (multiplier - 1) + delta * weight;
  }

  lemma {:induction false} MetricTotalConcat(a: seq<(string, u64)>, b: seq<(string, u64)>, metric: string)
    ensures MetricTotal(a + b, metric) == MetricTotal(a, metric) + MetricTotal(b, metric)
  {
    if a == [] {
      assert a + b == b;
    } else {
      MetricTotalConcat(a[1..], b, metric);
      assert (a + b)[1..] == a[1..] + b;
    }
  }

  lemma MetricTotalNext(metrics: seq<(string, u64)>, i: nat, metric: string)
    requires i < |metrics|
    ensures MetricTotal(metrics[..i + 1], metric)
         == MetricTotal(metrics[..i], metric) + (if metrics[i].0 == metric then metrics[i].1 else 0)
  {
    assert metrics[..i + 1] == metrics[..i] + [metrics[i]];
    MetricTotalConcat(metrics[..i], [metrics[i]], metric);
  }

  lemma MetricTotalPrefix(metrics: seq<(string, u64)>, i: nat, metric: string)
    requires i <= |metrics|
    ensures MetricTotal(metrics[..i], metric) <= MetricTotal(metrics, metric)
  {
    assert metrics == metrics[..i] + metrics[i..];
    MetricTotalConcat(metrics[..i], metrics[i..], metric);
  }

  lemma {:induction false} ZeroMetricTotal(metrics: seq<(string, u64)>, metric: string)
    ensures MetricTotal(metrics, metric) > 0
       <==> exists i :: 0 <= i < |metrics| && metrics[i].0 == metric && metrics[i].1 > 0
  {
    if metrics != [] {
      ZeroMetricTotal(metrics[1..], metric);
      if i :| 0 <= i < |metrics| && metrics[i].0 == metric && metrics[i].1 > 0 {
        if i > 0 {
          assert metrics[1..][i - 1] == metrics[i];
        }
      }
      if MetricTotal(metrics[1..], metric) > 0 {
        var i :| 0 <= i < |metrics[1..]| && metrics[1..][i].0 == metric && metrics[1..][i].1 > 0;
        assert metrics[i + 1] == metrics[1..][i];
      }
    }
  }

  /** Conservation: a packet split in two scores in its parts what it scores as a whole. */
  lemma {:induction false} PacketsCanBeSplit(rules: seq<SourceRule>, c: Contribution, rest: seq<(string, u64)>)
    ensures ExactScore(rules, c.(metrics := c.metrics + rest))
         == ExactScore(rules, c) + ExactScore(rules, c.(metrics := rest))
    decreases |rules|
  {
    hide MetricTotal, Worth;
    if rules != [] {
      var last := rules[|rules| - 1];
      PacketsCanBeSplit(rules[..|rules| - 1], c, rest);
      MetricTotalConcat(c.metrics, rest, last.metric);
      WorthAdds(MetricTotal(c.metrics, last.metric), MetricTotal(rest, last.metric), last.weight, Multiplier(last, c));
    }
  }

  /** A gift's multiplier multiplies what the rule is worth without multipliers; for other gifts there is none. */
  lemma MultipliersMultiply(rule: SourceRule, c: Contribution)
    ensures var plain := RuleValue(rule.(giftMultipliers := map[]), c);
      RuleValue(rule, c) == match c.gift
        case Some(gift) => if gift in rule.giftMultipliers then plain * rule.giftMultipliers[gift] else plain
        case None => plain
  {
    hide MetricTotal;
  }

  /** Without multipliers a rule is worth its weight for every unit of its metric, if it is enabled for the source. */
  lemma RulesWeigh(rule: SourceRule, c: Contribution)
    requires rule.giftMultipliers == map[]
    ensures RuleValue(rule, c)
      == if rule.enabled && rule.source == c.source then MetricTotal(c.metrics, rule.metric) * rule.weight else 0
  {
    hide MetricTotal;
  }

  /** Whether some delta of the metric is positive. */
  method ReportsMetric(metrics: seq<(string, u64)>, metric: string) returns (found: bool)
    ensures found <==> MetricTotal(metrics, metric) > 0
  {
    ZeroMetricTotal(metrics, metric);
    for i := 0 to |metrics|
      invariant forall k :: 0 <= k < i ==> !(metrics[k].0 == metric && metrics[k].1 > 0)
    {
      if metrics[i].0 == metric && metrics[i].1 > 0 {
        return true;
      }
    }
    return false;
  }

  lemma NoRulesScore(rules: seq<SourceRule>, c: Contribution)
    ensures ExactScore(rules[..0], c) == 0
  {
  }

  lemma NextRule(rules: seq<SourceRule>, i: nat, c: Contribution)
    requires i < |rules|
    ensures ExactScore(rules[..i + 1], c) == ExactScore(rules[..i], c) + RuleValue(rules[i], c)
  {
    assert rules[..i + 1][..i] == rules[..i];
  }

  /** Multiplication and addition checked at every step, as the engine runs it. */
  method ComputeScore(rules: seq<SourceRule>, c: Contribution) returns (r: Result<u64, Error>)
    ensures r == Score(rules, c)
  {
    hide MetricTotal, ExactScore, Unambiguous;
    NoRulesScore(rules, c);
    var total: u64 := 0;
    var i := 0;
    while i < |rules|
      invariant i <= |rules|
      invariant total == ExactScore(rules[..i], c)
      invariant forall k :: 0 <= k < i ==> !Ambiguous(rules[k], c)
    {
      var rule := rules[i];
      NextRule(rules, i, c);
      StoppedAt(rules, i, c);
      if Counts(rule, c) {
        var reported := ReportsMetric(c.metrics, rule.metric);
        if reported {
          if c.source == GIFT_SOURCE && c.gift.None? && rule.giftMultipliers != map[] {
            return Err(InvalidKey);
          }
          var multiplier := Multiplier(rule, c);
          if multiplier != 0 {
            var next := AddRule(rule, c, multiplier, total);
            if next.Err? {
              ExactScorePrefix(rules[..Unambiguous(rules, c)], i + 1, c);
              assert rules[..Unambiguous(rules, c)][..i + 1] == rules[..i + 1];
              return next;
            }
            total := next.value;
          }
        }
      }
      i := i + 1;
    }
    assert rules[..i] == rules;
    return Ok(total);
  }

  /** The inner loop: every matching delta times weight times multiplier. */
  method AddRule(rule: SourceRule, c: Contribution, multiplier: u64, start: u64) returns (r: Result<u64, Error>)
    requires multiplier > 0
    ensures var sum := start + Worth(MetricTotal(c.metrics, rule.metric), rule.weight, multiplier);
            r == if sum <= U64_MAX then Ok(sum) else Err(Overflow)
  {
    var total: u64 := start;
    var j := 0;
    while j < |c.metrics|
      invariant j <= |c.metrics|
      invariant total == start + Worth(MetricTotal(c.metrics[..j], rule.metric), rule.weight, multiplier)
    {
      var before := MetricTotal(c.metrics[..j], rule.metric);
      MetricTotalNext(c.metrics, j, rule.metric);
      if c.metrics[j].0 == rule.metric {
        var delta := c.metrics[j].1;
        WorthAdds(before, delta, rule.weight, multiplier);
        WorthGrows(delta, rule.weight, multiplier);
        WithinTotal(c.metrics, j + 1, rule, multiplier);
        if delta * rule.weight > U64_MAX || Worth(delta, rule.weight, multiplier) > U64_MAX
           || total + Worth(delta, rule.weight, multiplier) > U64_MAX {
          return Err(Overflow);
        }
        total := total + Worth(delta, rule.weight, multiplier);
      }
      j := j + 1;
    }
    assert c.metrics[..j] == c.metrics;
    return Ok(total);
  }

  lemma WithinTotal(metrics: seq<(string, u64)>, i: nat, rule: SourceRule, multiplier: nat)
    requires i <= |metrics|
    ensures Worth(MetricTotal(metrics[..i], rule.metric), rule.weight, multiplier)
         <= Worth(MetricTotal(metrics, rule.metric), rule.weight, multiplier)
  {
    hide Worth, MetricTotal;
    MetricTotalPrefix(metrics, i, rule.metric);
    var a := MetricTotal(metrics[..i], rule.metric);
    WorthAdds(a, MetricTotal(metrics, rule.metric) - a, rule.weight, multiplier);
  }

  /** Where the leading unambiguous rules end. */
  lemma {:induction false} StoppedAt(rules: seq<SourceRule>, i: nat, c: Contribution)
    requires i < |rules|
    requires forall k :: 0 <= k < i ==> !Ambiguous(rules[k], c)
    ensures Unambiguous(rules, c) >= i
    ensures Ambiguous(rules[i], c) <==> Unambiguous(rules, c) == i
  {
    if i > 0 {
      assert !Ambiguous(rules[0], c);
      StoppedAt(rules[1..], i - 1, c);
    }
  }
}
