/**
 * Comparing findings against a baseline: the task-scope completion verdict
 * (core/agent/src/completion.rs) and the per-write filter of the hook
 * (`drop_preexisting_findings`, bin/cli/src/hook.rs). Both are greedy decrement loops over a map of
 * counts; both are proved against multiset difference.
 */
module Baseline {
  import opened Wrappers
  import opened Profiles
  import opened Policy

  // ---------------------------------------------------------------------------
  // Surplus over a budget
  // ---------------------------------------------------------------------------

  /** The keys of a sequence, with multiplicity. */
  function KeyBag<T, K>(key: T -> K, xs: seq<T>): multiset<K> {
    if xs == [] then multiset{} else KeyBag(key, xs[..|xs| - 1]) + multiset{key(xs[|xs| - 1])}
  }

  /** The elements at whose position the budget for their key was already used up. */
  function Surplus<T, K>(key: T -> K, budget: multiset<K>, xs: seq<T>): seq<T> {
    if xs == [] then []
    else
      var last, rest := xs[|xs| - 1], xs[..|xs| - 1];
      if KeyBag(key, rest)[key(last)] >= budget[key(last)] then Surplus(key, budget, rest) + [last]
      else Surplus(key, budget, rest)
  }

  ghost predicate IsSubsequence<T>(xs: seq<T>, ys: seq<T>) {
    if ys == [] then xs == []
    else
      || IsSubsequence(xs, ys[..|ys| - 1])
      || (xs != [] && xs[|xs| - 1] == ys[|ys| - 1] && IsSubsequence(xs[..|xs| - 1], ys[..|ys| - 1]))
  }

  lemma {:induction false} KeyBagSnoc<T, K>(key: T -> K, xs: seq<T>, x: T)
    ensures KeyBag(key, xs + [x]) == KeyBag(key, xs) + multiset{key(x)}
  {
    assert (xs + [x])[..|xs + [x]| - 1] == xs;
  }

  lemma {:induction false} KeyBagConcat<T, K>(key: T -> K, xs: seq<T>, ys: seq<T>)
    ensures KeyBag(key, xs + ys) == KeyBag(key, xs) + KeyBag(key, ys)
  {
    if ys == [] {
      assert xs + ys == xs;
    } else {
      assert (xs + ys)[..|xs + ys| - 1] == xs + ys[..|ys| - 1];
      KeyBagConcat(key, xs, ys[..|ys| - 1]);
    }
  }

  lemma {:induction false} KeyBagSize<T, K>(key: T -> K, xs: seq<T>)
    ensures |KeyBag(key, xs)| == |xs|
  {
    if xs != [] {
      KeyBagSize(key, xs[..|xs| - 1]);
    }
  }

  lemma {:induction false} KeyBagMembers<T, K>(key: T -> K, xs: seq<T>, k: K)
    ensures k in KeyBag(key, xs) <==> exists i :: 0 <= i < |xs| && key(xs[i]) == k
  {
    if xs != [] {
      KeyBagMembers(key, xs[..|xs| - 1], k);
      if i :| 0 <= i < |xs| && key(xs[i]) == k {
        assert i == |xs| - 1 || xs[..|xs| - 1][i] == xs[i];
      }
    }
  }

  lemma CancelOne<K(!new)>(a: multiset<K>, b: multiset<K>, k: K)
    requires a + multiset{k} == b + multiset{k}
    ensures a == b
  {
    forall x
      ensures a[x] == b[x]
    {
      assert (a + multiset{k})[x] == (b + multiset{k})[x];
    }
  }

  lemma KeyBagRemove<T, K>(key: T -> K, xs: seq<T>, j: nat)
    requires j < |xs|
    ensures KeyBag(key, xs) == KeyBag(key, xs[..j] + xs[j + 1..]) + multiset{key(xs[j])}
  {
    var front, back := xs[..j], xs[j + 1..];
    assert xs == (front + [xs[j]]) + back;
    KeyBagConcat(key, front + [xs[j]], back);
    KeyBagSnoc(key, front, xs[j]);
    KeyBagConcat(key, front, back);
  }

  lemma BagRemove<T>(xs: seq<T>, j: nat)
    requires j < |xs|
    ensures multiset(xs) == multiset(xs[..j] + xs[j + 1..]) + multiset{xs[j]}
  {
    assert xs == xs[..j] + [xs[j]] + xs[j + 1..];
  }

  /** The order of a sequence plays no part in its keys. */
  lemma {:induction false} KeyBagPermutation<T(!new), K>(key: T -> K, xs: seq<T>, ys: seq<T>)
    requires multiset(xs) == multiset(ys)
    ensures KeyBag(key, xs) == KeyBag(key, ys)
    decreases |xs|
  {
    if xs == [] {
      assert |multiset(ys)| == 0;
      assert ys == [];
    } else {
      var i := |xs| - 1;
      assert xs[i] in multiset(xs);
      var j :| 0 <= j < |ys| && ys[j] == xs[i];
      var xs', ys' := xs[..i] + xs[i + 1..], ys[..j] + ys[j + 1..];
      BagRemove(xs, i);
      BagRemove(ys, j);
      CancelOne(multiset(xs'), multiset(ys'), xs[i]);
      KeyBagPermutation(key, xs', ys');
      KeyBagRemove(key, xs, i);
      KeyBagRemove(key, ys, j);
    }
  }

  lemma SurplusSnoc<T, K>(key: T -> K, budget: multiset<K>, xs: seq<T>, x: T)
    ensures Surplus(key, budget, xs + [x])
            == if KeyBag(key, xs)[key(x)] >= budget[key(x)] then Surplus(key, budget, xs) + [x]
               else Surplus(key, budget, xs)
  {
    assert (xs + [x])[..|xs + [x]| - 1] == xs;
  }

  lemma DifferenceStep<K>(bag: multiset<K>, budget: multiset<K>, k: K)
    ensures (bag + multiset{k}) - budget
            == if bag[k] >= budget[k] then (bag - budget) + multiset{k} else bag - budget
  {
  }

  /** The surplus is a subsequence holding exactly the multiset difference. */
  lemma {:induction false} SurplusIsDifference<T, K>(key: T -> K, budget: multiset<K>, xs: seq<T>)
    ensures KeyBag(key, Surplus(key, budget, xs)) == KeyBag(key, xs) - budget
    ensures IsSubsequence(Surplus(key, budget, xs), xs)
  {
    if xs != [] {
      var last, rest := xs[|xs| - 1], xs[..|xs| - 1];
      SurplusIsDifference(key, budget, rest);
      DifferenceStep(KeyBag(key, rest), budget, key(last));
      KeyBagSnoc(key, Surplus(key, budget, rest), last);
      assert (Surplus(key, budget, rest) + [last])[..|Surplus(key, budget, rest)|] == Surplus(key, budget, rest);
    }
  }

  lemma SubBagSize<K>(a: multiset<K>, b: multiset<K>)
    requires a <= b
    ensures |a| <= |b|
  {
    assert b == a + (b - a);
  }

  /** A map of counts stands for a bag; a missing key counts zero. */
  ghost predicate Represents<K(!new)>(counts: map<K, nat>, bag: multiset<K>) {
    forall k {:trigger k in counts} :: bag[k] == if k in counts then counts[k] else 0
  }

  predicate InStock<K>(counts: map<K, nat>, k: K) {
    k in counts && counts[k] > 0
  }

  /** Spending one unit of what is left after `seen`, when there is one to spend. */
  lemma SpendOne<K(!new)>(remaining: map<K, nat>, budget: multiset<K>, seen: multiset<K>, k: K)
    requires Represents(remaining, budget - seen)
    ensures InStock(remaining, k) <==> seen[k] < budget[k]
    ensures InStock(remaining, k)
            ==> Represents(remaining[k := remaining[k] - 1], budget - (seen + multiset{k}))
    ensures !(InStock(remaining, k)) ==> Represents(remaining, budget - (seen + multiset{k}))
  {
    assert (budget - seen)[k] == if k in remaining then remaining[k] else 0;
  }

  lemma CountOne<K(!new)>(counts: map<K, nat>, bag: multiset<K>, k: K)
    requires Represents(counts, bag)
    ensures Represents(counts[k := (if k in counts then counts[k] else 0) + 1], bag + multiset{k})
  {
  }

  // ---------------------------------------------------------------------------
  // Task scope: completion.rs
  // ---------------------------------------------------------------------------

  datatype LocatedFinding =
    LocatedFinding(file: string, rule: RuleId, severity: Severity, message: string, line: nat)

  datatype Identity = Identity(file: string, rule: RuleId, message: string)

  function IdentityOf(f: LocatedFinding): Identity {
    Identity(f.file, f.rule, f.message)
  }

  /** Two findings are the same one when file, rule and message agree, wherever they are and however severe. */
  lemma SameIdentityIff(a: LocatedFinding, b: LocatedFinding)
    ensures IdentityOf(a) == IdentityOf(b) <==> a.file == b.file && a.rule == b.rule && a.message == b.message
  {
  }

  function Identities(findings: seq<LocatedFinding>): multiset<Identity> {
    KeyBag(IdentityOf, findings)
  }

  datatype Completion =
    | Done
    | TargetRemains(rule: RuleId, occurrences: seq<LocatedFinding>)
    | Regressed(introduced: seq<LocatedFinding>)

  method Counts(findings: seq<LocatedFinding>) returns (counted: map<Identity, nat>)
    ensures Represents(counted, Identities(findings))
  {
    counted := map[];
    for i := 0 to |findings|
      invariant Represents(counted, Identities(findings[..i]))
    {
      assert findings[..i + 1][..i] == findings[..i];
      var id := IdentityOf(findings[i]);
      CountOne(counted, Identities(findings[..i]), id);
      counted := counted[id := (if id in counted then counted[id] else 0) + 1];
    }
    assert findings[..|findings|] == findings;
  }

  method Introduced(baseline: seq<LocatedFinding>, current: seq<LocatedFinding>) returns (added: seq<LocatedFinding>)
    ensures added == Surplus(IdentityOf, Identities(baseline), current)
  {
    var remaining := Counts(baseline);
    added := [];
    for i := 0 to |current|
      invariant LeftOver(baseline, current[..i], remaining)
      invariant added == Surplus(IdentityOf, Identities(baseline), current[..i])
    {
      assert current[..i + 1] == current[..i] + [current[i]];
      var id := IdentityOf(current[i]);
      IntroducedStep(baseline, current[..i], current[i], remaining);
      if InStock(remaining, id) {
        remaining := remaining[id := remaining[id] - 1];
      } else {
        added := added + [current[i]];
      }
    }
    assert current[..|current|] == current;
  }

  /** What the baseline still accounts for once the findings in `before` have been matched. */
  ghost predicate LeftOver(baseline: seq<LocatedFinding>, before: seq<LocatedFinding>, remaining: map<Identity, nat>) {
    Represents(remaining, Identities(baseline) - Identities(before))
  }

  lemma IntroducedStep(
    baseline: seq<LocatedFinding>, before: seq<LocatedFinding>, f: LocatedFinding, remaining: map<Identity, nat>)
    requires LeftOver(baseline, before, remaining)
    ensures var id := IdentityOf(f);
            var surplus := Surplus(IdentityOf, Identities(baseline), before);
            var surplus' := Surplus(IdentityOf, Identities(baseline), before + [f]);
            if InStock(remaining, id) then
              surplus' == surplus && LeftOver(baseline, before + [f], remaining[id := remaining[id] - 1])
            else
              surplus' == surplus + [f] && LeftOver(baseline, before + [f], remaining)
  {
    SurplusSnoc(IdentityOf, Identities(baseline), before, f);
    KeyBagSnoc(IdentityOf, before, f);
    SpendOne(remaining, Identities(baseline), Identities(before), IdentityOf(f));
  }

  function OfRule(findings: seq<LocatedFinding>, rule: RuleId): seq<LocatedFinding> {
    if findings == [] then []
    else
      var last, rest := findings[|findings| - 1], OfRule(findings[..|findings| - 1], rule);
      if last.rule == rule then rest + [last] else rest
  }

  function Verdict(
    baseline: seq<LocatedFinding>, current: seq<LocatedFinding>, target: Option<RuleId>): Completion
  {
    var added := Surplus(IdentityOf, Identities(baseline), current);
    if target.Some? && OfRule(current, target.value) != [] then
      TargetRemains(target.value, OfRule(current, target.value))
    else if added == [] then Done
    else Regressed(added)
  }

  method Judge(baseline: seq<LocatedFinding>, current: seq<LocatedFinding>, target: Option<RuleId>)
    returns (c: Completion)
    ensures c == Verdict(baseline, current, target)
  {
    if target.Some? {
      var occurrences: seq<LocatedFinding> := [];
      for i := 0 to |current|
        invariant occurrences == OfRule(current[..i], target.value)
      {
        assert current[..i + 1][..i] == current[..i];
        if current[i].rule == target.value {
          occurrences := occurrences + [current[i]];
        }
      }
      assert current[..|current|] == current;
      if occurrences != [] {
        return TargetRemains(target.value, occurrences);
      }
    }
    var added := Introduced(baseline, current);
    return if added == [] then Done else Regressed(added);
  }

  lemma {:induction false} OfRuleEmptyIff(findings: seq<LocatedFinding>, rule: RuleId)
    ensures OfRule(findings, rule) == [] <==> forall f :: f in findings ==> f.rule != rule
    ensures forall f :: f in OfRule(findings, rule) <==> f in findings && f.rule == rule
    ensures IsSubsequence(OfRule(findings, rule), findings)
  {
    if findings != [] {
      var rest := OfRule(findings[..|findings| - 1], rule);
      OfRuleEmptyIff(findings[..|findings| - 1], rule);
      assert (rest + [findings[|findings| - 1]])[..|rest|] == rest;
    }
  }

  predicate TargetGone(current: seq<LocatedFinding>, target: Option<RuleId>) {
    target.Some? ==> forall f :: f in current ==> f.rule != target.value
  }

  /** When a run of the agent is complete, when its target survives and what counts as a regression. */
  lemma {:induction false} VerdictIff(
    baseline: seq<LocatedFinding>, current: seq<LocatedFinding>, target: Option<RuleId>)
    ensures var c := Verdict(baseline, current, target);
            && (c.TargetRemains? <==> !TargetGone(current, target))
            && (c.Done? <==> TargetGone(current, target) && Identities(current) <= Identities(baseline))
            && (c.Regressed? ==> Identities(c.introduced) == Identities(current) - Identities(baseline)
                                 && IsSubsequence(c.introduced, current) && c.introduced != [])
            && (c.TargetRemains? ==> IsSubsequence(c.occurrences, current)
                                     && forall f :: f in c.occurrences <==> f in current && f.rule == target.value)
  {
    if target.Some? {
      OfRuleEmptyIff(current, target.value);
    }
    var added := Surplus(IdentityOf, Identities(baseline), current);
    SurplusIsDifference(IdentityOf, Identities(baseline), current);
    KeyBagSize(IdentityOf, added);
    assert Identities(current) <= Identities(baseline) <==> Identities(current) - Identities(baseline) == multiset{};
  }

  /** Only identities matter: moved lines, changed severities and reordered reports change no verdict. */
  lemma VerdictDependsOnIdentities(
    b1: seq<LocatedFinding>, b2: seq<LocatedFinding>, c1: seq<LocatedFinding>, c2: seq<LocatedFinding>,
    target: Option<RuleId>)
    requires Identities(b1) == Identities(b2) && Identities(c1) == Identities(c2)
    ensures var v1, v2 := Verdict(b1, c1, target), Verdict(b2, c2, target);
            && v1.Done? == v2.Done?
            && v1.TargetRemains? == v2.TargetRemains?
            && (v1.Regressed? ==> Identities(v1.introduced) == Identities(v2.introduced))
  {
    VerdictIff(b1, c1, target);
    VerdictIff(b2, c2, target);
    if TargetGone(c1, target) {
      TargetGoneByIdentity(c1, c2, target);
    } else if TargetGone(c2, target) {
      TargetGoneByIdentity(c2, c1, target);
    }
  }

  lemma TargetGoneByIdentity(c1: seq<LocatedFinding>, c2: seq<LocatedFinding>, target: Option<RuleId>)
    requires Identities(c1) == Identities(c2) && TargetGone(c1, target)
    ensures TargetGone(c2, target)
  {
    if f :| target.Some? && f in c2 && f.rule == target.value {
      KeyBagMembers(IdentityOf, c2, IdentityOf(f));
      KeyBagMembers(IdentityOf, c1, IdentityOf(f));
      var i :| 0 <= i < |c1| && IdentityOf(c1[i]) == IdentityOf(f);
      assert c1[i] in c1;
    }
  }

  lemma {:induction false} MovedLinesKeepIdentities(a: seq<LocatedFinding>, b: seq<LocatedFinding>)
    requires |a| == |b| && forall i :: 0 <= i < |a| ==> IdentityOf(a[i]) == IdentityOf(b[i])
    ensures Identities(a) == Identities(b)
  {
    if a != [] {
      MovedLinesKeepIdentities(a[..|a| - 1], b[..|b| - 1]);
    }
  }

  /** Neither report's order plays a part. */
  lemma ReorderedReportsSameVerdict(
    b1: seq<LocatedFinding>, b2: seq<LocatedFinding>, c1: seq<LocatedFinding>, c2: seq<LocatedFinding>,
    target: Option<RuleId>)
    requires multiset(b1) == multiset(b2) && multiset(c1) == multiset(c2)
    ensures var v1, v2 := Verdict(b1, c1, target), Verdict(b2, c2, target);
            && v1.Done? == v2.Done?
            && v1.TargetRemains? == v2.TargetRemains?
            && (v1.TargetRemains? ==> multiset(v1.occurrences) == multiset(v2.occurrences))
            && (v1.Regressed? ==> Identities(v1.introduced) == Identities(v2.introduced))
  {
    KeyBagPermutation(IdentityOf, b1, b2);
    KeyBagPermutation(IdentityOf, c1, c2);
    VerdictDependsOnIdentities(b1, b2, c1, c2, target);
    if target.Some? {
      SameOccurrences(c1, c2, target.value);
    }
  }

  lemma SameOccurrences(c1: seq<LocatedFinding>, c2: seq<LocatedFinding>, rule: RuleId)
    requires multiset(c1) == multiset(c2)
    ensures multiset(OfRule(c1, rule)) == multiset(OfRule(c2, rule))
  {
    OfRuleBag(c1, rule);
    OfRuleBag(c2, rule);
    forall f
      ensures multiset(OfRule(c1, rule))[f] == multiset(OfRule(c2, rule))[f]
    {
    }
  }

  lemma {:induction false} OfRuleBag(findings: seq<LocatedFinding>, rule: RuleId)
    ensures forall f :: multiset(OfRule(findings, rule))[f] == if f.rule == rule then multiset(findings)[f] else 0
  {
    if findings != [] {
      var rest, last := findings[..|findings| - 1], findings[|findings| - 1];
      OfRuleBag(rest, rule);
      assert findings == rest + [last];
    }
  }

  /** Steps that each regress nothing compose to one that regresses nothing. */
  lemma DoneIsTransitive(a: seq<LocatedFinding>, b: seq<LocatedFinding>, c: seq<LocatedFinding>)
    requires Verdict(a, b, None).Done? && Verdict(b, c, None).Done?
    ensures Verdict(a, c, None).Done?
  {
    VerdictIff(a, b, None);
    VerdictIff(b, c, None);
    VerdictIff(a, c, None);
  }

  function IntroducedCount(baseline: seq<LocatedFinding>, current: seq<LocatedFinding>): nat {
    |Surplus(IdentityOf, Identities(baseline), current)|
  }

  lemma IntroducedCountIsBagSize(baseline: seq<LocatedFinding>, current: seq<LocatedFinding>)
    ensures IntroducedCount(baseline, current) == |Identities(current) - Identities(baseline)|
  {
    SurplusIsDifference(IdentityOf, Identities(baseline), current);
    KeyBagSize(IdentityOf, Surplus(IdentityOf, Identities(baseline), current));
  }

  lemma IntroducedTriangle(a: seq<LocatedFinding>, b: seq<LocatedFinding>, c: seq<LocatedFinding>)
    ensures IntroducedCount(a, c) <= IntroducedCount(a, b) + IntroducedCount(b, c)
  {
    IntroducedCountIsBagSize(a, b);
    IntroducedCountIsBagSize(b, c);
    IntroducedCountIsBagSize(a, c);
    var ia, ib, ic := Identities(a), Identities(b), Identities(c);
    SubBagSize(ic - ia, (ib - ia) + (ic - ib));
  }

  /** What a change introduces minus what it removes is the change in the number of findings. */
  lemma IntroducedBalance(a: seq<LocatedFinding>, b: seq<LocatedFinding>)
    ensures |b| - |a| == IntroducedCount(a, b) - IntroducedCount(b, a)
  {
    IntroducedCountIsBagSize(a, b);
    IntroducedCountIsBagSize(b, a);
    KeyBagSize(IdentityOf, a);
    KeyBagSize(IdentityOf, b);
    var ia, ib := Identities(a), Identities(b);
    assert ib == (ib - ia) + (ia * ib);
    assert ia == (ia - ib) + (ia * ib);
  }

  // ---------------------------------------------------------------------------
  // Write scope: drop_preexisting_findings
  // ---------------------------------------------------------------------------

  predicate IsWholeFileMetric(rule: RuleId) {
    rule == "smells:maintainability-index" || rule == "smells:ck-oo-metrics"
  }

  function RuleAndMessage(f: Finding): (RuleId, string) {
    (f.rule, f.message)
  }

  function Only(findings: seq<Finding>, metric: bool): seq<Finding> {
    if findings == [] then []
    else
      var last, rest := findings[|findings| - 1], Only(findings[..|findings| - 1], metric);
      if IsWholeFileMetric(last.rule) == metric then rest + [last] else rest
  }

  predicate Fired(findings: seq<Finding>, rule: RuleId) {
    exists i :: 0 <= i < |findings| && findings[i].rule == rule
  }

  /** Whether the finding at the end of `earlier + [f]` is news with respect to `prior`. */
  predicate IsNews(prior: seq<Finding>, earlier: seq<Finding>, f: Finding) {
    if IsWholeFileMetric(f.rule) then !Fired(prior, f.rule)
    else
      KeyBag(RuleAndMessage, Only(earlier, false))[RuleAndMessage(f)]
      >= KeyBag(RuleAndMessage, Only(prior, false))[RuleAndMessage(f)]
  }

  function News(prior: seq<Finding>, findings: seq<Finding>): seq<Finding> {
    if findings == [] then []
    else
      var last, rest := findings[|findings| - 1], findings[..|findings| - 1];
      if IsNews(prior, rest, last) then News(prior, rest) + [last] else News(prior, rest)
  }

  method WholeFilePresent(prior: seq<Finding>) returns (rules: set<RuleId>)
    ensures forall r :: r in rules <==> IsWholeFileMetric(r) && Fired(prior, r)
  {
    rules := {};
    for i := 0 to |prior|
      invariant forall r :: r in rules <==> IsWholeFileMetric(r) && Fired(prior[..i], r)
    {
      assert prior[..i + 1] == prior[..i] + [prior[i]];
      forall r {
        FiredSnoc(prior[..i], prior[i], r);
      }
      if IsWholeFileMetric(prior[i].rule) {
        rules := rules + {prior[i].rule};
      }
    }
    assert prior[..|prior|] == prior;
  }

  method PriorCounts(prior: seq<Finding>) returns (remaining: map<(RuleId, string), nat>)
    ensures Unmatched(prior, [], remaining)
  {
    remaining := map[];
    for i := 0 to |prior|
      invariant Represents(remaining, KeyBag(RuleAndMessage, Only(prior[..i], false)))
    {
      var f, before := prior[i], prior[..i];
      assert prior[..i + 1] == before + [f];
      OnlySnoc(before, f, false);
      if !IsWholeFileMetric(f.rule) {
        KeyBagSnoc(RuleAndMessage, Only(before, false), f);
        var key := (f.rule, f.message);
        CountOne(remaining, KeyBag(RuleAndMessage, Only(before, false)), key);
        remaining := remaining[key := (if key in remaining then remaining[key] else 0) + 1];
      }
    }
    assert prior[..|prior|] == prior;
    ghost var all := KeyBag(RuleAndMessage, Only(prior, false));
    assert all - multiset{} == all;
  }

  /** The test `retain` applies to each finding, consuming a matched occurrence. */
  method Retains(
      f: Finding, wholeFile: set<RuleId>, counts: map<(RuleId, string), nat>, ghost prior: seq<Finding>,
      ghost before: seq<Finding>)
    returns (keep: bool, remaining: map<(RuleId, string), nat>)
    requires IsWholeFileMetric(f.rule) ==> (f.rule in wholeFile <==> Fired(prior, f.rule))
    requires Unmatched(prior, before, counts)
    ensures News(prior, before + [f]) == if keep then News(prior, before) + [f] else News(prior, before)
    ensures Unmatched(prior, before + [f], remaining)
  {
    DropStep(prior, before, f, counts);
    if IsWholeFileMetric(f.rule) {
      return f.rule !in wholeFile, counts;
    }
    var key := (f.rule, f.message);
    if InStock(counts, key) {
      return false, counts[key := counts[key] - 1];
    }
    return true, counts;
  }

  method DropPreexistingFindings(findings: seq<Finding>, prior: seq<Finding>) returns (kept: seq<Finding>)
    ensures kept == News(prior, findings)
  {
    var wholeFile := WholeFilePresent(prior);
    var remaining := PriorCounts(prior);
    kept := [];
    for i := 0 to |findings|
      invariant kept == News(prior, findings[..i])
      invariant Unmatched(prior, findings[..i], remaining)
    {
      assert findings[..i + 1] == findings[..i] + [findings[i]];
      var keep;
      keep, remaining := Retains(findings[i], wholeFile, remaining, prior, findings[..i]);
      if keep {
        kept := kept + [findings[i]];
      }
    }
    assert findings[..|findings|] == findings;
  }

  /** What already fired and has not been matched by the findings in `before`. */
  ghost predicate Unmatched(prior: seq<Finding>, before: seq<Finding>, remaining: map<(RuleId, string), nat>) {
    Represents(remaining, KeyBag(RuleAndMessage, Only(prior, false)) - KeyBag(RuleAndMessage, Only(before, false)))
  }

  lemma DropStep(prior: seq<Finding>, before: seq<Finding>, f: Finding, remaining: map<(RuleId, string), nat>)
    requires Unmatched(prior, before, remaining)
    ensures IsWholeFileMetric(f.rule)
            ==> News(prior, before + [f])
                == (if Fired(prior, f.rule) then News(prior, before) else News(prior, before) + [f])
                && Unmatched(prior, before + [f], remaining)
    ensures !IsWholeFileMetric(f.rule) && InStock(remaining, (f.rule, f.message))
            ==> News(prior, before + [f]) == News(prior, before)
                && Unmatched(prior, before + [f],
                             remaining[(f.rule, f.message) := remaining[(f.rule, f.message)] - 1])
    ensures !IsWholeFileMetric(f.rule) && !InStock(remaining, (f.rule, f.message))
            ==> News(prior, before + [f]) == News(prior, before) + [f]
                && Unmatched(prior, before + [f], remaining)
  {
    NewsSnoc(prior, before, f);
    OnlySnoc(before, f, false);
    if !IsWholeFileMetric(f.rule) {
      KeyBagSnoc(RuleAndMessage, Only(before, false), f);
      SpendOne(remaining, KeyBag(RuleAndMessage, Only(prior, false)), KeyBag(RuleAndMessage, Only(before, false)),
               RuleAndMessage(f));
    }
  }

  lemma NewsSnoc(prior: seq<Finding>, before: seq<Finding>, f: Finding)
    ensures News(prior, before + [f])
            == if IsNews(prior, before, f) then News(prior, before) + [f] else News(prior, before)
  {
    assert (before + [f])[..|before + [f]| - 1] == before;
  }

  lemma FiredSnoc(before: seq<Finding>, f: Finding, rule: RuleId)
    ensures Fired(before + [f], rule) <==> Fired(before, rule) || f.rule == rule
  {
    if Fired(before, rule) {
      var i :| 0 <= i < |before| && before[i].rule == rule;
      assert (before + [f])[i].rule == rule;
    }
    if f.rule == rule {
      assert (before + [f])[|before|].rule == rule;
    }
  }

  function Locate(file: string, findings: seq<Finding>): seq<LocatedFinding> {
    if findings == [] then []
    else
      var f := findings[|findings| - 1];
      Locate(file, findings[..|findings| - 1]) + [LocatedFinding(file, f.rule, f.severity, f.message, f.line)]
  }

  lemma {:induction false} LocateSnoc(file: string, findings: seq<Finding>, f: Finding)
    ensures Locate(file, findings + [f])
            == Locate(file, findings) + [LocatedFinding(file, f.rule, f.severity, f.message, f.line)]
  {
    assert (findings + [f])[..|findings + [f]| - 1] == findings;
  }

  lemma {:induction false} LocatedBag(file: string, findings: seq<Finding>, rule: RuleId, message: string)
    ensures Identities(Locate(file, findings))[Identity(file, rule, message)]
            == KeyBag(RuleAndMessage, findings)[(rule, message)]
  {
    if findings != [] {
      var rest, f := findings[..|findings| - 1], findings[|findings| - 1];
      LocatedBag(file, rest, rule, message);
      KeyBagSnoc(IdentityOf, Locate(file, rest), LocatedFinding(file, f.rule, f.severity, f.message, f.line));
    }
  }

  lemma OnlySnoc(findings: seq<Finding>, f: Finding, metric: bool)
    ensures Only(findings + [f], metric)
            == if IsWholeFileMetric(f.rule) == metric then Only(findings, metric) + [f] else Only(findings, metric)
  {
    assert (findings + [f])[..|findings + [f]| - 1] == findings;
  }

  /**
   * Inside one file and away from the metric rules, the hook's filter keeps exactly what the
   * completion check calls introduced, in the same order.
   */
  lemma {:induction false} DropRefinesIntroduced(file: string, prior: seq<Finding>, findings: seq<Finding>)
    ensures Locate(file, Only(News(prior, findings), false))
            == Surplus(IdentityOf, Identities(Locate(file, Only(prior, false))), Locate(file, Only(findings, false)))
  {
    if findings != [] {
      var last, rest := findings[|findings| - 1], findings[..|findings| - 1];
      DropRefinesIntroduced(file, prior, rest);
      assert findings == rest + [last];
      DropRefinesStep(file, prior, rest, last);
    }
  }

  lemma DropRefinesStep(file: string, prior: seq<Finding>, before: seq<Finding>, f: Finding)
    requires Locate(file, Only(News(prior, before), false))
             == Surplus(IdentityOf, Identities(Locate(file, Only(prior, false))), Locate(file, Only(before, false)))
    ensures Locate(file, Only(News(prior, before + [f]), false))
            == Surplus(IdentityOf, Identities(Locate(file, Only(prior, false))),
                       Locate(file, Only(before + [f], false)))
  {
    OnlySnoc(before, f, false);
    OnlyNewsSnoc(prior, before, f);
    if !IsWholeFileMetric(f.rule) {
      IntroducedAlike(file, prior, Only(before, false), f);
      LocateSnoc(file, Only(News(prior, before), false), f);
    }
  }

  lemma OnlyNewsSnoc(prior: seq<Finding>, before: seq<Finding>, f: Finding)
    ensures Only(News(prior, before + [f]), false)
            == if !IsWholeFileMetric(f.rule) && IsNews(prior, before, f) then Only(News(prior, before), false) + [f]
               else Only(News(prior, before), false)
  {
    NewsSnoc(prior, before, f);
    OnlySnoc(News(prior, before), f, false);
  }

  /** Whether one more finding counts as introduced depends on the same two bags in both forms. */
  lemma IntroducedAlike(file: string, prior: seq<Finding>, others: seq<Finding>, f: Finding)
    ensures var located := LocatedFinding(file, f.rule, f.severity, f.message, f.line);
            var baseline := Identities(Locate(file, Only(prior, false)));
            Surplus(IdentityOf, baseline, Locate(file, others + [f]))
            == if KeyBag(RuleAndMessage, others)[RuleAndMessage(f)]
                  >= KeyBag(RuleAndMessage, Only(prior, false))[RuleAndMessage(f)]
               then Surplus(IdentityOf, baseline, Locate(file, others)) + [located]
               else Surplus(IdentityOf, baseline, Locate(file, others))
  {
    var located := LocatedFinding(file, f.rule, f.severity, f.message, f.line);
    LocateSnoc(file, others, f);
    LocatedBag(file, others, f.rule, f.message);
    LocatedBag(file, Only(prior, false), f.rule, f.message);
    SurplusSnoc(IdentityOf, Identities(Locate(file, Only(prior, false))), Locate(file, others), located);
  }

  /** A whole-file metric finding survives exactly when its rule is new to the file. */
  lemma {:induction false} MetricSurvivesIffNew(prior: seq<Finding>, findings: seq<Finding>)
    ensures Only(News(prior, findings), true) == NewMetrics(prior, Only(findings, true))
    ensures IsSubsequence(News(prior, findings), findings)
  {
    if findings != [] {
      var last, rest := findings[|findings| - 1], findings[..|findings| - 1];
      MetricSurvivesIffNew(prior, rest);
      OnlySnoc(News(prior, rest), last, true);
      assert (News(prior, rest) + [last])[..|News(prior, rest)|] == News(prior, rest);
      assert (Only(rest, true) + [last])[..|Only(rest, true)|] == Only(rest, true);
    }
  }

  function NewMetrics(prior: seq<Finding>, metrics: seq<Finding>): seq<Finding> {
    if metrics == [] then []
    else
      var last, rest := metrics[|metrics| - 1], NewMetrics(prior, metrics[..|metrics| - 1]);
      if Fired(prior, last.rule) then rest else rest + [last]
  }

  /**
   * What the filter does with one finding: of the two whole-file metrics it survives when the rule has
   * not fired before, of any other rule when the same message has not.
   */
  lemma LoneFindingSurvivesIff(prior: seq<Finding>, f: Finding)
    ensures News(prior, [f]) == [f]
            <==> (if f.rule in {"smells:maintainability-index", "smells:ck-oo-metrics"}
                  then forall i :: 0 <= i < |prior| ==> prior[i].rule != f.rule
                  else forall i :: 0 <= i < |prior| ==> !(prior[i].rule == f.rule && prior[i].message == f.message))
  {
    assert [f][..0] == [] && KeyBag(RuleAndMessage, Only([], false)) == multiset{};
    if !IsWholeFileMetric(f.rule) {
      PlainKeysIff(prior, f);
    }
  }

  lemma {:induction false} OnlyMembers(findings: seq<Finding>, metric: bool, f: Finding)
    ensures f in Only(findings, metric) <==> f in findings && IsWholeFileMetric(f.rule) == metric
  {
    if findings != [] {
      OnlyMembers(findings[..|findings| - 1], metric, f);
    }
  }

  lemma PlainKeysIff(prior: seq<Finding>, f: Finding)
    requires !IsWholeFileMetric(f.rule)
    ensures KeyBag(RuleAndMessage, Only(prior, false))[RuleAndMessage(f)] > 0
            <==> exists i :: 0 <= i < |prior| && prior[i].rule == f.rule && prior[i].message == f.message
  {
    var others := Only(prior, false);
    KeyBagMembers(RuleAndMessage, others, RuleAndMessage(f));
    if i :| 0 <= i < |others| && RuleAndMessage(others[i]) == RuleAndMessage(f) {
      OnlyMembers(prior, false, others[i]);
    }
    if i :| 0 <= i < |prior| && prior[i].rule == f.rule && prior[i].message == f.message {
      OnlyMembers(prior, false, prior[i]);
      var k :| 0 <= k < |others| && others[k] == prior[i];
    }
  }

  /** The two matching strategies never touch each other's findings. */
  lemma {:induction false} StrategiesDoNotInterfere(prior: seq<Finding>, findings: seq<Finding>)
    ensures Only(News(prior, findings), false) == News(Only(prior, false), Only(findings, false))
    ensures Only(News(prior, findings), true) == News(Only(prior, true), Only(findings, true))
  {
    forall r | IsWholeFileMetric(r)
      ensures Fired(prior, r) == Fired(Only(prior, true), r)
    {
      FiredOnly(prior, r);
    }
    OnlyTwice(prior);
    if findings != [] {
      var last, rest := findings[|findings| - 1], findings[..|findings| - 1];
      StrategiesDoNotInterfere(prior, rest);
      OnlyTwice(rest);
      var metric := IsWholeFileMetric(last.rule);
      OnlySnoc(News(prior, rest), last, false);
      OnlySnoc(News(prior, rest), last, true);
      var part := Only(rest, metric) + [last];
      assert part[..|part| - 1] == Only(rest, metric);
    }
  }

  lemma {:induction false} FiredOnly(prior: seq<Finding>, rule: RuleId)
    requires IsWholeFileMetric(rule)
    ensures Fired(prior, rule) == Fired(Only(prior, true), rule)
  {
    if prior != [] {
      var rest, last := prior[..|prior| - 1], prior[|prior| - 1];
      FiredOnly(rest, rule);
      assert prior == rest + [last];
      FiredSnoc(rest, last, rule);
      FiredSnoc(Only(rest, true), last, rule);
    }
  }

  lemma {:induction false} OnlyTwice(findings: seq<Finding>)
    ensures Only(Only(findings, false), false) == Only(findings, false)
  {
    if findings != [] {
      var rest, last := findings[..|findings| - 1], findings[|findings| - 1];
      OnlyTwice(rest);
      OnlySnoc(Only(rest, false), last, false);
    }
  }
}
