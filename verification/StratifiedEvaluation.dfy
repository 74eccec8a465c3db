/** Evaluation stratum by stratum computes the one stable model of a stratified ground program. */
module StratifiedEvaluation {
  import opened Options
  import opened Stratification

  ghost predicate Fires(r: GroundRule, derived: set<string>, negation: set<string>) {
    (forall a | a in r.positive :: a in derived) && (forall a | a in r.negative :: a !in negation)
  }

  /** Closed under the rules whose negative atoms are absent from `negation`. */
  ghost predicate Closed(rules: seq<GroundRule>, derived: set<string>, negation: set<string>) {
    forall r | r in rules && Fires(r, derived, negation) :: r.head in derived
  }

  /** The least closed set over the facts, with negation read in the set itself. */
  ghost predicate Stable(rules: seq<GroundRule>, facts: set<string>, model: set<string>) {
    && facts <= model
    && Closed(rules, model, model)
    && forall other | facts <= other && Closed(rules, other, model) :: model <= other
  }

  /** Every derived atom of a stable model has a rule whose body is true there. */
  lemma StableIsSupported(rules: seq<GroundRule>, facts: set<string>, model: set<string>, a: string)
    requires Stable(rules, facts, model) && a in model && a !in facts
    ensures exists r | r in rules :: r.head == a && Fires(r, model, model)
  {
    if forall r | r in rules && r.head == a :: !Fires(r, model, model) {
      var fewer := model - {a};
      forall r | r in rules && Fires(r, fewer, model) ensures r.head in fewer {
        assert Fires(r, model, model);
      }
      assert facts <= fewer && Closed(rules, fewer, model);
      assert false;
    }
  }

  ghost function UpTo(strata: Strata, model: set<string>, level: int): set<string> {
    set a | a in model && a in strata && strata[a] <= level
  }

  /** Two stable models agree below every stratum. */
  lemma {:induction false} StableAgree(rules: seq<GroundRule>, facts: set<string>, strata: Strata, m: set<string>,
      n: set<string>, level: int)
    requires Valid(strata, rules) && Stable(rules, facts, m) && Stable(rules, facts, n)
    ensures UpTo(strata, m, level) <= n
    decreases level + 1
  {
    if level >= 0 {
      StableAgree(rules, facts, strata, m, n, level - 1);
      StableAgree(rules, facts, strata, n, m, level - 1);
      var x := set a | a in m && (a in strata && strata[a] <= level ==> a in n);
      forall r | r in rules && Fires(r, x, m) ensures r.head in x {
        assert Fires(r, m, m);
        if strata[r.head] <= level {
          assert Respects(strata, r);
          forall a | a in r.negative ensures a !in n {
            assert a in n ==> a in UpTo(strata, n, level - 1);
          }
          assert Fires(r, n, n);
        }
      }
      assert facts <= x && Closed(rules, x, m);
      assert m <= x;
    }
  }

  ghost function Ceiling(strata: Strata, atoms: set<string>): (n: nat)
    ensures forall a | a in atoms && a in strata :: strata[a] <= n
  {
    if atoms == {} then 0 else
    var a :| a in atoms;
    var rest := Ceiling(strata, atoms - {a});
    if a in strata && strata[a] > rest then strata[a] else rest
  }

  lemma OnlyFactsOutside(rules: seq<GroundRule>, facts: set<string>, strata: Strata, m: set<string>)
    requires Valid(strata, rules) && Stable(rules, facts, m)
    ensures forall a | a in m && a !in strata :: a in facts
  {
    forall a | a in m && a !in strata ensures a in facts {
      if a !in facts { StableIsSupported(rules, facts, m, a); }
    }
  }

  /** A stratifiable program has at most one stable model, so the answer depends on no choice of strata. */
  lemma StableUnique(rules: seq<GroundRule>, facts: set<string>, m: set<string>, n: set<string>)
    requires !NegativeCycle(rules) && Stable(rules, facts, m) && Stable(rules, facts, n)
    ensures m == n
  {
    var strata := AcyclicHasStrata(rules, Mentioned(rules));
    var level := Ceiling(strata, m + n);
    StableAgree(rules, facts, strata, m, n, level);
    StableAgree(rules, facts, strata, n, m, level);
    OnlyFactsOutside(rules, facts, strata, m);
    OnlyFactsOutside(rules, facts, strata, n);
    forall a | a in m ensures a in n { if a in strata { assert a in UpTo(strata, m, level); } }
    forall a | a in n ensures a in m { if a in strata { assert a in UpTo(strata, n, level); } }
  }

  // ----- Invariants of the computation -----

  /** The rules whose heads lie in the strata handled so far. */
  ghost predicate Handled(strata: Strata, done: set<nat>, r: GroundRule) { r.head in strata && strata[r.head] in done }

  ghost predicate ClosedFor(rules: seq<GroundRule>, strata: Strata, done: set<nat>, result: set<string>) {
    forall r | r in rules && Handled(strata, done, r) && Fires(r, result, result) :: r.head in result
  }

  ghost predicate LeastFor(rules: seq<GroundRule>, facts: set<string>, strata: Strata, done: set<nat>,
      result: set<string>) {
    forall other | facts <= other &&
      (forall r | r in rules && Handled(strata, done, r) && Fires(r, other, result) :: r.head in other) ::
      result <= other
  }

  /** Everything derived beyond the facts lies in a handled stratum. */
  ghost predicate Grounded(facts: set<string>, strata: Strata, done: set<nat>, result: set<string>) {
    facts <= result && forall a | a in result && a !in facts :: a in strata && strata[a] in done
  }

  /** Atoms of the current stratum cannot disturb negation in this stratum or below. */
  lemma NegationDecided(strata: Strata, rules: seq<GroundRule>, level: nat, r: GroundRule, before: set<string>,
      after: set<string>)
    requires Valid(strata, rules) && r in rules && strata[r.head] <= level && before <= after
    requires forall a | a in after && a !in before :: a in strata && strata[a] == level
    ensures forall a | a in r.negative :: a in before <==> a in after
  {
    assert Respects(strata, r);
  }

  lemma BatchKeepsLeast(rules: seq<GroundRule>, facts: set<string>, strata: Strata, done: set<nat>, level: nat,
      before: set<string>, additions: set<string>)
    requires Valid(strata, rules) && level in done && forall l | l in done :: l <= level
    requires LeastFor(rules, facts, strata, done, before)
    requires forall a | a in additions :: a in strata && strata[a] == level && a !in before
    requires forall a | a in additions :: exists r | r in rules && r.head == a :: Fires(r, before, before)
    ensures LeastFor(rules, facts, strata, done, before + additions)
  {
    var after := before + additions;
    forall other | facts <= other &&
      (forall r | r in rules && Handled(strata, done, r) && Fires(r, other, after) :: r.head in other)
      ensures after <= other
    {
      forall r | r in rules && Handled(strata, done, r) && Fires(r, other, before) ensures r.head in other {
        NegationDecided(strata, rules, level, r, before, after);
        assert Fires(r, other, after);
      }
      assert before <= other;
      forall a | a in additions ensures a in other {
        var r :| r in rules && r.head == a && Fires(r, before, before);
        NegationDecided(strata, rules, level, r, before, after);
        assert Fires(r, other, after);
      }
    }
  }

  /** Earlier strata stay closed while a later one is filled. */
  lemma BatchKeepsClosed(rules: seq<GroundRule>, strata: Strata, done: set<nat>, level: nat, before: set<string>,
      additions: set<string>)
    requires Valid(strata, rules) && (forall l | l in done :: l < level) && ClosedFor(rules, strata, done, before)
    requires forall a | a in additions :: a in strata && strata[a] == level
    ensures ClosedFor(rules, strata, done, before + additions)
  {
    var after := before + additions;
    forall r | r in rules && Handled(strata, done, r) && Fires(r, after, after) ensures r.head in after {
      assert Respects(strata, r);
      forall a | a in r.positive ensures a in before { assert strata[a] < level; }
      assert Fires(r, before, before);
    }
  }

  // ----- The computation -----

  predicate BodyHolds(r: GroundRule, result: set<string>) {
    (forall a | a in r.positive :: a in result) && (forall a | a in r.negative :: a !in result)
  }

  /** Heads of the stratum's rules whose bodies hold. */
  function Firing(rules: seq<GroundRule>, strata: Strata, level: nat, result: set<string>): set<string>
    requires forall r | r in rules :: r.head in strata
  {
    set r | r in rules && strata[r.head] == level && BodyHolds(r, result) :: r.head
  }

  /** What one batch adds, and that it adds nothing outside its stratum. */
  lemma FiringFacts(rules: seq<GroundRule>, strata: Strata, level: nat, result: set<string>)
    requires forall r | r in rules :: r.head in strata
    ensures forall a | a in Firing(rules, strata, level, result) :: a in strata && strata[a] == level
    ensures forall a | a in Firing(rules, strata, level, result) :: exists r | r in rules && r.head == a ::
      Fires(r, result, result)
    ensures Firing(rules, strata, level, result) <= set r | r in rules && strata[r.head] == level :: r.head
  {
  }

  /** Fires the rules of one stratum until nothing new appears. */
  method FillStratum(rules: seq<GroundRule>, ghost facts: set<string>, strata: Strata, ghost done: set<nat>,
      level: nat, before: set<string>)
      returns (result: set<string>)
    requires Valid(strata, rules) && (forall l | l in done :: l < level)
    requires Grounded(facts, strata, done, before) && ClosedFor(rules, strata, done, before)
    requires LeastFor(rules, facts, strata, done, before)
    ensures Grounded(facts, strata, done + {level}, result) && ClosedFor(rules, strata, done + {level}, result)
    ensures LeastFor(rules, facts, strata, done + {level}, result)
    ensures before <= result && forall a | a in result && a !in before :: a in strata && strata[a] == level
  {
    hide Firing;
    hide Filling;
    hide ClosedFor;
    hide LeastFor;
    hide Grounded;
    hide Respects;
    var heads := set r | r in rules && strata[r.head] == level :: r.head;
    result := before;
    FillingStarts(rules, facts, strata, done, level, before);
    while true
      invariant Filling(rules, facts, strata, done, level, before, result)
      decreases |heads - result|
    {
      FiringFacts(rules, strata, level, result);
      var additions := Firing(rules, strata, level, result) - result;
      if additions == {} {
        NothingLeft(Firing(rules, strata, level, result), result);
        FillingEnds(rules, facts, strata, done, level, before, result);
        break;
      }
      FillingStep(rules, facts, strata, done, level, before, result, additions);
      AdditionsShrink(heads, result, additions);
      result := result + additions;
    }
  }

  /** A stratum part-way through. */
  ghost predicate Filling(rules: seq<GroundRule>, facts: set<string>, strata: Strata, done: set<nat>, level: nat,
      before: set<string>, result: set<string>) {
    && before <= result && (forall a | a in result && a !in before :: a in strata && strata[a] == level)
    && Grounded(facts, strata, done + {level}, result)
    && ClosedFor(rules, strata, done, result)
    && LeastFor(rules, facts, strata, done + {level}, result)
  }

  lemma FillingStarts(rules: seq<GroundRule>, facts: set<string>, strata: Strata, done: set<nat>, level: nat,
      before: set<string>)
    requires Grounded(facts, strata, done, before) && ClosedFor(rules, strata, done, before)
    requires LeastFor(rules, facts, strata, done, before)
    ensures Filling(rules, facts, strata, done, level, before, before)
  {
    StartStratum(rules, facts, strata, done, level, before);
  }

  lemma FillingStep(rules: seq<GroundRule>, facts: set<string>, strata: Strata, done: set<nat>, level: nat,
      before: set<string>, result: set<string>, additions: set<string>)
    requires Valid(strata, rules) && (forall l | l in done :: l < level)
    requires Filling(rules, facts, strata, done, level, before, result)
    requires additions == Firing(rules, strata, level, result) - result
    ensures Filling(rules, facts, strata, done, level, before, result + additions)
  {
    hide LeastFor;
    hide ClosedFor;
    FiringFacts(rules, strata, level, result);
    BatchKeepsLeast(rules, facts, strata, done + {level}, level, result, additions);
    BatchKeepsClosed(rules, strata, done, level, result, additions);
  }

  lemma FillingEnds(rules: seq<GroundRule>, facts: set<string>, strata: Strata, done: set<nat>, level: nat,
      before: set<string>, result: set<string>)
    requires Valid(strata, rules) && Filling(rules, facts, strata, done, level, before, result)
    requires Firing(rules, strata, level, result) <= result
    ensures Grounded(facts, strata, done + {level}, result) && ClosedFor(rules, strata, done + {level}, result)
    ensures LeastFor(rules, facts, strata, done + {level}, result)
    ensures before <= result && forall a | a in result && a !in before :: a in strata && strata[a] == level
  {
    StratumClosed(rules, strata, done, level, result);
  }

  lemma NothingLeft(a: set<string>, b: set<string>)
    requires a - b == {}
    ensures a <= b
  {
    forall x | x in a ensures x in b { assert x in b || x in a - b; }
  }

  lemma AdditionsShrink(heads: set<string>, result: set<string>, additions: set<string>)
    requires additions <= heads && additions != {} && additions !! result
    ensures |heads - (result + additions)| < |heads - result|
  {
    SubsetSize(heads - (result + additions), heads - result);
    var a :| a in additions;
    assert a in heads - result && a !in heads - (result + additions);
  }

  /** Before its first batch, a new stratum imposes nothing on the least set. */
  lemma StartStratum(rules: seq<GroundRule>, facts: set<string>, strata: Strata, done: set<nat>, level: nat,
      before: set<string>)
    requires LeastFor(rules, facts, strata, done, before)
    ensures LeastFor(rules, facts, strata, done + {level}, before)
  {
    forall other | facts <= other &&
      (forall r | r in rules && Handled(strata, done + {level}, r) && Fires(r, other, before) :: r.head in other)
      ensures before <= other
    {
      forall r | r in rules && Handled(strata, done, r) && Fires(r, other, before) ensures r.head in other {
        assert Handled(strata, done + {level}, r);
      }
    }
  }

  lemma StratumClosed(rules: seq<GroundRule>, strata: Strata, done: set<nat>, level: nat, result: set<string>)
    requires ClosedFor(rules, strata, done, result) && Covers(strata, rules)
    requires Firing(rules, strata, level, result) <= result
    ensures ClosedFor(rules, strata, done + {level}, result)
  {
    forall r | r in rules && Handled(strata, done + {level}, r) && Fires(r, result, result) ensures r.head in result {
      if strata[r.head] != level {
        assert Handled(strata, done, r);
      } else {
        assert r.head in Firing(rules, strata, level, result);
      }
    }
  }

  /** The distinct strata in ascending order. */
  method Ascending(levels: set<nat>) returns (sorted: seq<nat>)
    ensures forall l :: l in sorted <==> l in levels
    ensures forall i, j | 0 <= i < j < |sorted| :: sorted[i] < sorted[j]
  {
    var rest := levels;
    sorted := [];
    while rest != {}
      invariant rest <= levels
      invariant forall l :: l in sorted <==> l in levels && l !in rest
      invariant forall i, j | 0 <= i < j < |sorted| :: sorted[i] < sorted[j]
      invariant forall i, l | 0 <= i < |sorted| && l in rest :: sorted[i] < l
      decreases |rest|
    {
      var least := Smallest(rest);
      rest := rest - {least};
      sorted := sorted + [least];
    }
  }

  method Smallest(levels: set<nat>) returns (least: nat)
    requires levels != {}
    ensures least in levels && forall l | l in levels :: least <= l
  {
    least :| least in levels;
    var rest := levels - {least};
    while rest != {}
      invariant rest <= levels && least in levels
      invariant forall l | l in levels && l !in rest :: least <= l
      decreases |rest|
    {
      var l :| l in rest;
      if l < least { least := l; }
      rest := rest - {l};
    }
  }

  /** Stratum by stratum, over any strata that respect the rules: the answer does not depend on which. */
  method EvaluateOver(rules: seq<GroundRule>, facts: set<string>, strata: Strata) returns (result: set<string>)
    requires Valid(strata, rules)
    ensures Stable(rules, facts, result)
    ensures forall m | Stable(rules, facts, m) :: m == result
  {
    var levels := Ascending(set a | a in strata :: strata[a]);
    result := facts;
    ghost var done: set<nat> := {};
    for i := 0 to |levels|
      invariant forall l :: l in done <==> l in levels[..i]
      invariant Grounded(facts, strata, done, result) && ClosedFor(rules, strata, done, result)
      invariant LeastFor(rules, facts, strata, done, result)
    {
      assert levels[..i + 1] == levels[..i] + [levels[i]];
      result := FillStratum(rules, facts, strata, done, levels[i], result);
      done := done + {levels[i]};
    }
    assert levels[..|levels|] == levels;
    AllHandled(rules, facts, strata, done, result);
    NoCycleWithin(rules, strata);
    forall m | Stable(rules, facts, m) ensures m == result { StableUnique(rules, facts, m, result); }
  }

  lemma NoCycleWithin(rules: seq<GroundRule>, strata: Strata)
    requires Valid(strata, rules)
    ensures !NegativeCycle(rules)
  {
    forall a, path | Path(rules, a, a, path) && path != [] ensures !Negated(path) {
      PathFalls(strata, rules, a, a, path);
    }
  }

  /** The stable model, or none when a dependency cycle goes through a negation. */
  method Evaluate(rules: seq<GroundRule>, facts: set<string>) returns (r: Option<set<string>>)
    ensures r.None? <==> NegativeCycle(rules)
    ensures r.Some? ==> Stable(rules, facts, r.value)
    ensures r.Some? ==> forall m | Stable(rules, facts, m) :: m == r.value
  {
    var stratified := Stratify(rules, facts);
    if stratified.None? { return None; }
    var result := EvaluateOver(rules, facts, stratified.value);
    r := Some(result);
  }

  lemma AllHandled(rules: seq<GroundRule>, facts: set<string>, strata: Strata, done: set<nat>, result: set<string>)
    requires Covers(strata, rules) && forall a | a in strata :: strata[a] in done
    requires facts <= result && ClosedFor(rules, strata, done, result) && LeastFor(rules, facts, strata, done, result)
    ensures Stable(rules, facts, result)
  {
    forall r | r in rules ensures Handled(strata, done, r) { }
  }
}
