/** The rule engine of the validation workflow: a rule checks one joined
    data point, and the outcomes of all rules are tallied into failures
    (failed error rules), warnings (other failed rules and checks that
    raised) and a recommendation. The seven default rules are modelled with
    their exact bounds. */
module ValidationRules {
  import opened Common
  import opened Schema

  datatype Severity = Error | Warning | Info

  /** What a rule's check gives: true, false, or an exception carrying its
      message. */
  datatype Outcome = Pass | Fail | Raised(message: string)

  /** `ValidationRule`. The check reads the joined data point and the
      current calendar year (the default `recent_year` reads the clock; here
      the year is supplied by the caller). */
  datatype Rule = Rule(name: string, description: string, check: (View, int) -> Outcome,
                       severity: Severity, autoReject: bool)

  /** A `{"rule": ..., "message": ...}` entry of a failures or warnings list. */
  datatype Issue = Issue(rule: string, message: string)

  datatype Recommendation = Validate | Review | Reject

  datatype ValidationResult = ValidationResult(
    dataPointId: int,
    passed: bool,
    rulesChecked: nat,
    rulesPassed: nat,
    rulesFailed: nat,
    failures: seq<Issue>,
    warnings: seq<Issue>,
    recommendation: Recommendation)

  // ---------------------------------------------------------------- tallying

  /** The state of the rule loop: passes counted, failures and warnings
      collected, and whether an auto-reject rule failed. */
  datatype Tally = Tally(passed: nat, failures: seq<Issue>, warnings: seq<Issue>, autoReject: bool)

  const NoTally := Tally(0, [], [], false)

  /** One rule's contribution to the tally. */
  function Step(t: Tally, rule: Rule, dp: View, year: int): Tally {
    match rule.check(dp, year)
    case Pass => t.(passed := t.passed + 1)
    case Fail =>
      if rule.severity == Error
      then t.(failures := t.failures + [Issue(rule.name, rule.description)],
              autoReject := t.autoReject || rule.autoReject)
      else t.(warnings := t.warnings + [Issue(rule.name, rule.description)])
    case Raised(e) => t.(warnings := t.warnings + [Issue(rule.name, "Check error: " + e)])
  }

  /** The tally after running `rules` in order. Every rule lands in exactly
      one of passes, failures and warnings, and an auto-reject is only ever
      raised together with a failure. */
  function TallyOf(rules: seq<Rule>, dp: View, year: int): (t: Tally)
    ensures t.passed + |t.failures| + |t.warnings| == |rules|
    ensures t.autoReject ==> t.failures != []
  {
    if rules == [] then NoTally
    else Step(TallyOf(rules[..|rules| - 1], dp, year), rules[|rules| - 1], dp, year)
  }

  lemma TallyPrefix(rules: seq<Rule>, dp: View, year: int, k: nat)
    requires k < |rules|
    ensures TallyOf(rules[..k + 1], dp, year) == Step(TallyOf(rules[..k], dp, year), rules[k], dp, year)
  {
    assert rules[..k + 1][..k] == rules[..k];
  }

  predicate FailsAsError(rule: Rule, dp: View, year: int) {
    rule.severity == Error && rule.check(dp, year) == Fail
  }

  /** Every failure names an error rule whose check failed. */
  lemma {:induction false} TallyFailuresSound(rules: seq<Rule>, dp: View, year: int)
    ensures forall k :: 0 <= k < |TallyOf(rules, dp, year).failures| ==>
              exists i :: 0 <= i < |rules| && FailsAsError(rules[i], dp, year)
                          && TallyOf(rules, dp, year).failures[k] == Issue(rules[i].name, rules[i].description)
    decreases |rules|
  {
    if rules != [] {
      var n := |rules| - 1;
      var init := rules[..n];
      TallyFailuresSound(init, dp, year);
      var prior := TallyOf(init, dp, year);
      var fs := TallyOf(rules, dp, year).failures;
      assert TallyOf(rules, dp, year) == Step(prior, rules[n], dp, year);
      assert fs == prior.failures || (FailsAsError(rules[n], dp, year)
                                      && fs == prior.failures + [Issue(rules[n].name, rules[n].description)]);
      forall k | 0 <= k < |fs|
        ensures exists i :: 0 <= i < |rules| && FailsAsError(rules[i], dp, year)
                            && fs[k] == Issue(rules[i].name, rules[i].description)
      {
        if k < |prior.failures| {
          var i :| 0 <= i < n && FailsAsError(init[i], dp, year)
                   && prior.failures[k] == Issue(init[i].name, init[i].description);
          assert rules[i] == init[i];
        }
      }
    } else {
      assert TallyOf(rules, dp, year).failures == [];
    }
  }

  /** Every error rule whose check failed shows up among the failures. */
  lemma {:induction false} TallyFailuresComplete(rules: seq<Rule>, dp: View, year: int, i: nat)
    requires i < |rules| && FailsAsError(rules[i], dp, year)
    ensures Issue(rules[i].name, rules[i].description) in TallyOf(rules, dp, year).failures
    decreases |rules|
  {
    var n := |rules| - 1;
    var init := rules[..n];
    var prior := TallyOf(init, dp, year);
    assert TallyOf(rules, dp, year) == Step(prior, rules[n], dp, year);
    if i < n {
      assert init[i] == rules[i];
      TallyFailuresComplete(init, dp, year, i);
    }
  }

  /** The auto-reject flag is set exactly when a failed error rule carries
      it. */
  lemma {:induction false} TallyAutoReject(rules: seq<Rule>, dp: View, year: int)
    ensures TallyOf(rules, dp, year).autoReject <==>
              exists i :: 0 <= i < |rules| && FailsAsError(rules[i], dp, year) && rules[i].autoReject
    decreases |rules|
  {
    if rules != [] {
      var n := |rules| - 1;
      var init := rules[..n];
      TallyAutoReject(init, dp, year);
      assert forall i :: 0 <= i < n ==> init[i] == rules[i];
      assert TallyOf(rules, dp, year) == Step(TallyOf(init, dp, year), rules[n], dp, year);
    }
  }

  function FailsAsErrorOn(dp: View, year: int): Rule -> bool {
    (r: Rule) => FailsAsError(r, dp, year)
  }

  /** There are as many failures as error rules whose check failed. */
  lemma {:induction false} TallyFailuresCount(rules: seq<Rule>, dp: View, year: int)
    ensures |TallyOf(rules, dp, year).failures| == |Filter(rules, FailsAsErrorOn(dp, year))|
    decreases |rules|
  {
    if rules != [] {
      var n := |rules| - 1;
      var init := rules[..n];
      TallyFailuresCount(init, dp, year);
      assert rules == init + [rules[n]];
      FilterSnoc(init, rules[n], FailsAsErrorOn(dp, year));
      assert TallyOf(rules, dp, year) == Step(TallyOf(init, dp, year), rules[n], dp, year);
    }
  }

  /** The pass count reaches the number of rules exactly when every check
      passed. */
  lemma {:induction false} TallyAllPass(rules: seq<Rule>, dp: View, year: int)
    ensures TallyOf(rules, dp, year).passed == |rules| <==>
              forall i :: 0 <= i < |rules| ==> rules[i].check(dp, year) == Pass
    decreases |rules|
  {
    if rules != [] {
      var n := |rules| - 1;
      var init := rules[..n];
      TallyAllPass(init, dp, year);
      assert forall i :: 0 <= i < n ==> init[i] == rules[i];
      assert TallyOf(rules, dp, year) == Step(TallyOf(init, dp, year), rules[n], dp, year);
    }
  }

  /** `validate_data_point`'s decision: reject on an auto-reject failure or
      on two failures or more, review on any failure or warning, validate
      otherwise. */
  function Recommend(t: Tally): Recommendation {
    if t.autoReject || |t.failures| >= 2 then Reject
    else if t.failures != [] then Review
    else if t.warnings != [] then Review
    else Validate
  }

  /** The result of validating a data point that was found. */
  function Assess(rules: seq<Rule>, id: int, dp: View, year: int): ValidationResult {
    var t := TallyOf(rules, dp, year);
    ValidationResult(id, t.failures == [], |rules|, t.passed, |t.failures|, t.failures,
                     t.warnings, Recommend(t))
  }

  /** The result for an id that the lookup did not find. */
  function NotFound(id: int): ValidationResult {
    ValidationResult(id, false, 0, 0, 1, [Issue("exists", "Data point not found")], [], Reject)
  }

  /** What a result promises: the counts add up to the rules checked; it
      passed exactly when no error rule failed; a reject never passed; a
      validate means every rule passed, and back. */
  lemma AssessSound(rules: seq<Rule>, id: int, dp: View, year: int)
    ensures var r := Assess(rules, id, dp, year);
            && r.rulesPassed + r.rulesFailed + |r.warnings| == r.rulesChecked == |rules|
            && (r.passed <==> forall i :: 0 <= i < |rules| ==> !FailsAsError(rules[i], dp, year))
            && (r.recommendation == Reject ==> !r.passed)
            && (r.recommendation == Validate <==> r.rulesPassed == r.rulesChecked)
  {
    TallyFailuresSound(rules, dp, year);
    TallyAllPass(rules, dp, year);
    var t := TallyOf(rules, dp, year);
    if t.failures != [] {
      assert t.failures[0] in t.failures;
    }
    forall i | 0 <= i < |rules| && FailsAsError(rules[i], dp, year)
      ensures t.failures != []
    {
      TallyFailuresComplete(rules, dp, year, i);
    }
  }

  /** The reject policy stated over the rules: a found data point is
      rejected exactly when an auto-reject error rule failed, or at least
      two error rules failed. */
  lemma RejectPolicy(rules: seq<Rule>, id: int, dp: View, year: int)
    ensures Assess(rules, id, dp, year).recommendation == Reject <==>
              (exists i :: 0 <= i < |rules| && FailsAsError(rules[i], dp, year) && rules[i].autoReject)
              || |Filter(rules, FailsAsErrorOn(dp, year))| >= 2
  {
    TallyFailuresCount(rules, dp, year);
    TallyAutoReject(rules, dp, year);
  }

  /** The rule loop of `validate_data_point`. */
  method CheckRules(rules: seq<Rule>, id: int, dp: View, year: int) returns (result: ValidationResult)
    ensures result == Assess(rules, id, dp, year)
  {
    var failures: seq<Issue> := [];
    var warnings: seq<Issue> := [];
    var passedCount: nat := 0;
    var autoReject := false;
    for i := 0 to |rules|
      invariant Tally(passedCount, failures, warnings, autoReject) == TallyOf(rules[..i], dp, year)
    {
      TallyPrefix(rules, dp, year, i);
      var rule := rules[i];
      match rule.check(dp, year) {
        case Pass =>
          passedCount := passedCount + 1;
        case Fail =>
          if rule.severity == Error {
            failures := failures + [Issue(rule.name, rule.description)];
            if rule.autoReject {
              autoReject := true;
            }
          } else {
            warnings := warnings + [Issue(rule.name, rule.description)];
          }
        case Raised(e) =>
          warnings := warnings + [Issue(rule.name, "Check error: " + e)];
      }
    }
    assert rules[..|rules|] == rules;
    var recommendation;
    if autoReject || |failures| >= 2 {
      recommendation := Reject;
    } else if failures != [] {
      recommendation := Review;
    } else if warnings != [] {
      recommendation := Review;
    } else {
      recommendation := Validate;
    }
    result := ValidationResult(id, |failures| == 0, |rules|, passedCount, |failures|, failures,
                               warnings, recommendation);
  }

  // ---------------------------------------------------------------- default rules

  predicate HasSource(dp: View) {
    dp.row.sourceId.Some? || dp.sourceUrl.Some?
  }

  predicate HasYear(dp: View) {
    dp.row.year.Some?
  }

  predicate ValueNotNull(dp: View) {
    dp.Cols().value.Some? || dp.Cols().valueText.Some? || dp.Cols().valueJson.Some?
  }

  /** Market sizes, in billions, lie in [0, 1000]; other dimensions and
      non-numeric values pass. */
  predicate ReasonableMarketSize(dp: View) {
    dp.dimensionName != Some("market_size") || dp.Cols().value.None?
    || 0.0 <= dp.Cols().value.value <= 1000.0
  }

  /** Growth rates, in percent, lie in [-100, 500]. */
  predicate ReasonableGrowthRate(dp: View) {
    dp.dimensionName != Some("market_growth_rate") || dp.Cols().value.None?
    || -100.0 <= dp.Cols().value.value <= 500.0
  }

  /** A year, when present, is at most five years before the current one. */
  predicate RecentYear(dp: View, currentYear: int) {
    dp.row.year.None? || dp.row.year.value >= currentYear - 5
  }

  predicate ValidConfidence(dp: View) {
    !dp.row.confidence.Unlisted?
  }

  function Check(b: bool): Outcome {
    if b then Pass else Fail
  }

  const HasSourceRule := Rule("has_source", "Data point must have a source",
                              (dp: View, y: int) => Check(HasSource(dp)), Warning, false)
  const HasYearRule := Rule("has_year", "Data point must have a year",
                            (dp: View, y: int) => Check(HasYear(dp)), Warning, false)
  const ValueNotNullRule := Rule("value_not_null", "Data point must have a value",
                                 (dp: View, y: int) => Check(ValueNotNull(dp)), Error, true)
  const MarketSizeRule := Rule("reasonable_market_size", "Market size must be reasonable (0-1000B)",
                               (dp: View, y: int) => Check(ReasonableMarketSize(dp)), Error, false)
  const GrowthRateRule := Rule("reasonable_growth_rate", "Growth rate must be reasonable (-100% to 500%)",
                               (dp: View, y: int) => Check(ReasonableGrowthRate(dp)), Error, false)
  const RecentYearRule := Rule("recent_year", "Data should be from last 5 years",
                               (dp: View, y: int) => Check(RecentYear(dp, y)), Info, false)
  const ValidConfidenceRule := Rule("valid_confidence", "Confidence level must be valid",
                                    (dp: View, y: int) => Check(ValidConfidence(dp)), Warning, false)

  /** `DEFAULT_RULES`, in their order. */
  function DefaultRules(): (rs: seq<Rule>)
    ensures |rs| == 7
  {
    [HasSourceRule, HasYearRule, ValueNotNullRule, MarketSizeRule, GrowthRateRule,
     RecentYearRule, ValidConfidenceRule]
  }

  /** `rules or DEFAULT_RULES`: no rules, or an empty list, means the
      defaults. */
  function RulesOrDefault(rules: Option<seq<Rule>>): (rs: seq<Rule>)
    ensures rs != []
    ensures rules.Some? && rules.value != [] ==> rs == rules.value
  {
    if rules.Some? && rules.value != [] then rules.value else DefaultRules()
  }

  /** The default tally written out rule by rule. */
  lemma DefaultTally(dp: View, year: int)
    ensures TallyOf(DefaultRules(), dp, year)
            == Step(Step(Step(Step(Step(Step(Step(NoTally,
                 HasSourceRule, dp, year), HasYearRule, dp, year), ValueNotNullRule, dp, year),
                 MarketSizeRule, dp, year), GrowthRateRule, dp, year), RecentYearRule, dp, year),
                 ValidConfidenceRule, dp, year)
  {
    TallySeven(HasSourceRule, HasYearRule, ValueNotNullRule, MarketSizeRule, GrowthRateRule,
               RecentYearRule, ValidConfidenceRule, dp, year);
  }

  /** One more rule adds its step to the tally. */
  lemma TallySnoc(rules: seq<Rule>, r: Rule, dp: View, year: int)
    ensures TallyOf(rules + [r], dp, year) == Step(TallyOf(rules, dp, year), r, dp, year)
  {
    assert (rules + [r])[..|rules|] == rules;
  }

  /** The tally of seven rules, step by step. */
  lemma TallySeven(r0: Rule, r1: Rule, r2: Rule, r3: Rule, r4: Rule, r5: Rule, r6: Rule, dp: View, year: int)
    ensures TallyOf([r0, r1, r2, r3, r4, r5, r6], dp, year)
            == Step(Step(Step(Step(Step(Step(Step(NoTally, r0, dp, year), r1, dp, year), r2, dp, year),
                 r3, dp, year), r4, dp, year), r5, dp, year), r6, dp, year)
  {
    TallySnoc([], r0, dp, year);
    assert [] + [r0] == [r0];
    TallySnoc([r0], r1, dp, year);
    assert [r0] + [r1] == [r0, r1];
    TallySnoc([r0, r1], r2, dp, year);
    assert [r0, r1] + [r2] == [r0, r1, r2];
    TallySnoc([r0, r1, r2], r3, dp, year);
    assert [r0, r1, r2] + [r3] == [r0, r1, r2, r3];
    TallySnoc([r0, r1, r2, r3], r4, dp, year);
    assert [r0, r1, r2, r3] + [r4] == [r0, r1, r2, r3, r4];
    TallySnoc([r0, r1, r2, r3, r4], r5, dp, year);
    assert [r0, r1, r2, r3, r4] + [r5] == [r0, r1, r2, r3, r4, r5];
    TallySnoc([r0, r1, r2, r3, r4, r5], r6, dp, year);
    assert [r0, r1, r2, r3, r4, r5] + [r6] == [r0, r1, r2, r3, r4, r5, r6];
  }

  /** Under the default rules a data point that was found is never
      rejected: the one auto-reject rule passes on every stored value, and
      at most one of the two range rules applies to a dimension. It passes
      exactly when its value is within the range its dimension demands, and
      it is validated exactly when all seven checks hold. */
  lemma DefaultsNeverReject(id: int, dp: View, year: int)
    ensures var r := Assess(DefaultRules(), id, dp, year);
            && r.recommendation != Reject
            && (r.passed <==> ReasonableMarketSize(dp) && ReasonableGrowthRate(dp))
            && (r.recommendation == Validate <==>
                  HasSource(dp) && HasYear(dp) && ReasonableMarketSize(dp) && ReasonableGrowthRate(dp)
                  && RecentYear(dp, year) && ValidConfidence(dp))
  {
    DefaultTally(dp, year);
    assert ValueNotNull(dp);
  }

  /** Rules under which a data point that was found is never rejected. */
  ghost predicate NeverRejectsFound(rules: seq<Rule>) {
    forall id, dp, year :: Assess(rules, id, dp, year).recommendation != Reject
  }

  lemma DefaultsNeverRejectFound()
    ensures NeverRejectsFound(DefaultRules())
  {
    forall id, dp, year
      ensures Assess(DefaultRules(), id, dp, year).recommendation != Reject
    {
      DefaultsNeverReject(id, dp, year);
    }
  }

  /** A market size above 1000 is an error failure but not an automatic
      reject: the data point goes to review. */
  lemma MarketSizeOverBoundIsReviewed(id: int, dp: View, year: int)
    requires dp.dimensionName == Some("market_size")
    requires dp.row.value.Numeric? && dp.row.value.x > 1000.0
    ensures Assess(DefaultRules(), id, dp, year).recommendation == Review
    ensures !Assess(DefaultRules(), id, dp, year).passed
    ensures Assess(DefaultRules(), id, dp, year).failures
            == [Issue("reasonable_market_size", "Market size must be reasonable (0-1000B)")]
  {
    DefaultTally(dp, year);
  }
}
