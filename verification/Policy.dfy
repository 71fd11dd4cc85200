/**
 * The Agent Permission Policy (core/agent-policy/src/lib.rs): the pure judgement of one proposed
 * write, and the role scopes layered on top of it.
 */
module Policy {
  import opened Wrappers
  import opened Profiles

  datatype Finding = Finding(rule: RuleId, severity: Severity, message: string, line: nat)

  /** A configured `(pattern, reason)` pair. */
  datatype PathRule = PathRule(pattern: string, reason: string)

  datatype Cause =
    | ProtectedPath(entry: PathRule)
    | BlockingRule
    | SeverityThreshold(threshold: Severity)
    | Escalation
    | MissingGherkinEvidence(entry: PathRule)

  datatype Enforcement = Deny | Warn | Escalate

  datatype Violation = Violation(enforcement: Enforcement, cause: Cause, finding: Option<Finding>)

  datatype Evaluation = Evaluation(violations: seq<Violation>) {
    predicate IsDenied() {
      exists v :: v in violations && v.enforcement in {Deny, Escalate}
    }

    predicate HasHardDeny() {
      exists v :: v in violations && v.enforcement == Deny
    }
  }

  datatype Provenance = Unestablished | AiTouched

  /**
   * The glob library, left uninterpreted: which patterns compile, which lists of them build into a
   * set, and what they match.
   */
  datatype Globs = Globs(compiles: string -> bool, builds: seq<string> -> bool, matches: (string, string) -> bool)

  datatype GlobError = BadPattern(pattern: string) | BadSet

  /** A compiled glob set with the configuration entries behind its indices. */
  datatype GlobTable = GlobTable(compiled: seq<string>, meta: seq<PathRule>) {
    predicate Aligned() {
      |compiled| == |meta| && forall i :: 0 <= i < |meta| ==> compiled[i] == meta[i].pattern
    }
  }

  datatype AgentPolicy = AgentPolicy(
    enabled: bool,
    blockAtOrAbove: Severity,
    aiTouchedBlockAtOrAbove: Severity,
    blockingRules: seq<RuleId>,
    advisoryRules: seq<RuleId>,
    escalateRules: seq<RuleId>,
    protectedPaths: GlobTable,
    gherkinRequired: GlobTable,
    testRequired: GlobTable,
    testCommandPatterns: seq<string>)
  {
    predicate Valid() {
      protectedPaths.Aligned() && gherkinRequired.Aligned() && testRequired.Aligned()
    }

    function ThresholdFor(provenance: Provenance): Severity {
      if provenance == AiTouched then aiTouchedBlockAtOrAbove else blockAtOrAbove
    }

    /** The `[agent.ai_touched]` section never loosens the base threshold. */
    predicate Tightens() {
      Rank(aiTouchedBlockAtOrAbove) <= Rank(blockAtOrAbove)
    }
  }

  // ---------------------------------------------------------------------------
  // Glob tables
  // ---------------------------------------------------------------------------

  function Normalise(path: string): string {
    seq(|path|, i requires 0 <= i < |path| => if path[i] == '\\' then '/' else path[i])
  }

  /** Both kinds of slash separate path components, and nothing else is rewritten. */
  lemma NormaliseSplits(a: string, b: string)
    ensures Normalise(a + "\\" + b) == Normalise(a) + "/" + Normalise(b)
    ensures Normalise(a + "/" + b) == Normalise(a) + "/" + Normalise(b)
  {
  }

  lemma PlainPathIsNormal(path: string)
    requires '\\' !in path
    ensures Normalise(path) == path
  {
    assert forall i :: 0 <= i < |path| ==> path[i] in path;
  }

  function Patterns(entries: seq<PathRule>): seq<string> {
    seq(|entries|, i requires 0 <= i < |entries| => entries[i].pattern)
  }

  function FirstInvalid(g: Globs, entries: seq<PathRule>): Option<string> {
    if entries == [] then None
    else if !g.compiles(entries[0].pattern) then Some(entries[0].pattern)
    else FirstInvalid(g, entries[1..])
  }

  function Compiled(g: Globs, entries: seq<PathRule>): Result<GlobTable, GlobError> {
    match FirstInvalid(g, entries)
    case Some(pattern) => Failure(BadPattern(pattern))
    case None => if g.builds(Patterns(entries)) then Success(GlobTable(Patterns(entries), entries)) else Failure(BadSet)
  }

  /** Compiles a table entry by entry, stopping at the first pattern that is not a glob, and builds the set. */
  method CompileTable(g: Globs, entries: seq<PathRule>) returns (r: Result<GlobTable, GlobError>)
    ensures r == Compiled(g, entries)
    ensures r.Success? ==> r.value.Aligned() && r.value.meta == entries
    ensures r.Success?
            <==> (forall i :: 0 <= i < |entries| ==> g.compiles(entries[i].pattern)) && g.builds(Patterns(entries))
    ensures r.Failure? && r.error.BadPattern?
            ==> (exists i :: 0 <= i < |entries| && r.error.pattern == entries[i].pattern
                             && !g.compiles(entries[i].pattern)
                             && forall j :: 0 <= j < i ==> g.compiles(entries[j].pattern))
  {
    var builder: seq<string> := [];
    for i := 0 to |entries|
      invariant builder == Patterns(entries)[..i]
      invariant FirstInvalid(g, entries) == FirstInvalid(g, entries[i..])
      invariant forall k :: 0 <= k < i ==> g.compiles(entries[k].pattern)
    {
      if !g.compiles(entries[i].pattern) {
        return Failure(BadPattern(entries[i].pattern));
      }
      builder := builder + [entries[i].pattern];
      assert entries[i..][1..] == entries[i + 1..];
    }
    assert FirstInvalid(g, entries) == None;
    assert builder == Patterns(entries);
    if !g.builds(builder) {
      return Failure(BadSet);
    }
    return Success(GlobTable(builder, entries));
  }

  /** `GlobSet::matches`: the ascending indices of the compiled patterns that match. */
  function MatchIndices(g: Globs, compiled: seq<string>, path: string): (indices: seq<nat>)
    ensures forall k :: 0 <= k < |indices| ==> indices[k] < |compiled| && g.matches(compiled[indices[k]], path)
    ensures forall i :: 0 <= i < |compiled| && g.matches(compiled[i], path) ==> i in indices
    ensures forall k, l :: 0 <= k < l < |indices| ==> indices[k] < indices[l]
  {
    if compiled == [] then []
    else
      var last := |compiled| - 1;
      var rest := MatchIndices(g, compiled[..last], path);
      if g.matches(compiled[last], path) then rest + [last] else rest
  }

  /** The configured entries matching a path, in configuration order. */
  function Hits(g: Globs, entries: seq<PathRule>, path: string): seq<PathRule> {
    if entries == [] then []
    else
      var last, rest := entries[|entries| - 1], Hits(g, entries[..|entries| - 1], path);
      if g.matches(last.pattern, path) then rest + [last] else rest
  }

  /** Looking glob indices up in an aligned table yields exactly the entries that match. */
  lemma {:induction false} IndicesNameHits(g: Globs, table: GlobTable, path: string)
    requires table.Aligned()
    ensures var indices := MatchIndices(g, table.compiled, path);
            var hits := Hits(g, table.meta, path);
            |indices| == |hits| && forall k :: 0 <= k < |indices| ==> table.meta[indices[k]] == hits[k]
    decreases |table.meta|
  {
    if table.meta != [] {
      var last := |table.meta| - 1;
      IndicesNameHits(g, GlobTable(table.compiled[..last], table.meta[..last]), path);
    }
  }

  lemma {:induction false} HitsAreMatches(g: Globs, entries: seq<PathRule>, path: string, e: PathRule)
    ensures e in Hits(g, entries, path) <==> e in entries && g.matches(e.pattern, path)
  {
    if entries != [] {
      HitsAreMatches(g, entries[..|entries| - 1], path, e);
    }
  }

  lemma {:induction false} HitsConcat(g: Globs, a: seq<PathRule>, b: seq<PathRule>, path: string)
    ensures Hits(g, a + b, path) == Hits(g, a, path) + Hits(g, b, path)
  {
    if b == [] {
      assert a + b == a;
    } else {
      var last := |b| - 1;
      assert (a + b)[..|a + b| - 1] == a + b[..last];
      HitsConcat(g, a, b[..last], path);
    }
  }

  // ---------------------------------------------------------------------------
  // Judging one write
  // ---------------------------------------------------------------------------

  function PathDenials(hits: seq<PathRule>, gherkin: bool): seq<Violation> {
    seq(|hits|, i requires 0 <= i < |hits| =>
      Violation(Deny, if gherkin then MissingGherkinEvidence(hits[i]) else ProtectedPath(hits[i]), None))
  }

  predicate Trips(p: AgentPolicy, threshold: Severity, f: Finding) {
    f.rule in p.blockingRules || f.rule in p.escalateRules || AtLeast(f.severity, threshold)
  }

  /** What the policy makes of a finding that trips it. */
  function Judged(p: AgentPolicy, threshold: Severity, f: Finding): Violation {
    if f.rule in p.advisoryRules then Violation(Warn, BlockingRule, Some(f))
    else if f.rule in p.blockingRules then Violation(Deny, BlockingRule, Some(f))
    else if f.rule in p.escalateRules then Violation(Escalate, Escalation, Some(f))
    else Violation(Deny, SeverityThreshold(threshold), Some(f))
  }

  function FindingViolations(p: AgentPolicy, threshold: Severity, findings: seq<Finding>): seq<Violation> {
    if findings == [] then []
    else
      var last, rest := findings[|findings| - 1], FindingViolations(p, threshold, findings[..|findings| - 1]);
      if Trips(p, threshold, last) then rest + [Judged(p, threshold, last)] else rest
  }

  function EvaluatedWithProvenance(
    g: Globs, p: AgentPolicy, path: string, findings: seq<Finding>, provenance: Provenance): Evaluation
  {
    if !p.enabled then Evaluation([])
    else Evaluation(PathDenials(Hits(g, p.protectedPaths.meta, Normalise(path)), false)
                    + FindingViolations(p, p.ThresholdFor(provenance), findings))
  }

  function Evaluated(
    g: Globs, p: AgentPolicy, path: string, findings: seq<Finding>, provenance: Provenance, covered: bool): Evaluation
  {
    var base := EvaluatedWithProvenance(g, p, path, findings, provenance);
    if !p.enabled || covered then base
    else Evaluation(base.violations + PathDenials(Hits(g, p.gherkinRequired.meta, Normalise(path)), true))
  }

  lemma PathDenialsStep(hits: seq<PathRule>, gherkin: bool, k: nat)
    requires k < |hits|
    ensures PathDenials(hits, gherkin)[..k + 1]
            == PathDenials(hits, gherkin)[..k]
               + [Violation(Deny, if gherkin then MissingGherkinEvidence(hits[k]) else ProtectedPath(hits[k]), None)]
  {
  }

  /** One denial per matching glob, the entry looked up by the glob's index. */
  method DenyPaths(g: Globs, table: GlobTable, path: string, gherkin: bool) returns (violations: seq<Violation>)
    requires table.Aligned()
    ensures violations == PathDenials(Hits(g, table.meta, path), gherkin)
  {
    var indices := MatchIndices(g, table.compiled, path);
    IndicesNameHits(g, table, path);
    violations := [];
    for k := 0 to |indices|
      invariant violations == PathDenials(Hits(g, table.meta, path), gherkin)[..k]
    {
      var entry := table.meta[indices[k]];
      PathDenialsStep(Hits(g, table.meta, path), gherkin, k);
      var cause := if gherkin then MissingGherkinEvidence(entry) else ProtectedPath(entry);
      violations := violations + [Violation(Deny, cause, None)];
    }
  }

  method EvaluateWithProvenance(
      g: Globs, p: AgentPolicy, path: string, findings: seq<Finding>, provenance: Provenance)
    returns (e: Evaluation)
    requires p.Valid()
    ensures e == EvaluatedWithProvenance(g, p, path, findings, provenance)
  {
    if !p.enabled {
      return Evaluation([]);
    }
    var threshold := p.ThresholdFor(provenance);
    var violations := DenyPaths(g, p.protectedPaths, Normalise(path), false);
    ghost var denials := violations;
    for i := 0 to |findings|
      invariant violations == denials + FindingViolations(p, threshold, findings[..i])
    {
      var f := findings[i];
      assert findings[..i + 1][..i] == findings[..i];
      var advisory := f.rule in p.advisoryRules;
      var blocking := f.rule in p.blockingRules;
      var escalate := f.rule in p.escalateRules;
      if !(blocking || escalate || AtLeast(f.severity, threshold)) {
        continue;
      }
      var enforcement, cause :=
        if advisory then Warn else if blocking then Deny else if escalate then Escalate else Deny,
        if advisory || blocking then BlockingRule else if escalate then Escalation else SeverityThreshold(threshold);
      violations := violations + [Violation(enforcement, cause, Some(f))];
    }
    assert findings[..|findings|] == findings;
    return Evaluation(violations);
  }

  method EvaluateWithEvidence(
      g: Globs, p: AgentPolicy, path: string, findings: seq<Finding>, provenance: Provenance, covered: bool)
    returns (e: Evaluation)
    requires p.Valid()
    ensures e == Evaluated(g, p, path, findings, provenance, covered)
  {
    e := EvaluateWithProvenance(g, p, path, findings, provenance);
    if !p.enabled || covered {
      return;
    }
    var missing := DenyPaths(g, p.gherkinRequired, Normalise(path), true);
    e := Evaluation(e.violations + missing);
  }

  /** The first `[[test_required]]` entry covering a path. */
  function TestRequiredReason(g: Globs, p: AgentPolicy, path: string): (r: Option<PathRule>)
    requires p.testRequired.Aligned()
    ensures r.Some? <==>
            exists i :: 0 <= i < |p.testRequired.meta| && g.matches(p.testRequired.meta[i].pattern, Normalise(path))
    ensures r.Some? ==>
            (exists i :: 0 <= i < |p.testRequired.meta| && r.value == p.testRequired.meta[i]
               && g.matches(p.testRequired.meta[i].pattern, Normalise(path))
               && forall j :: 0 <= j < i ==> !g.matches(p.testRequired.meta[j].pattern, Normalise(path)))
  {
    var indices := MatchIndices(g, p.testRequired.compiled, Normalise(path));
    if indices == [] then None
    else
      assert forall j :: 0 <= j < indices[0] && g.matches(p.testRequired.compiled[j], Normalise(path)) ==> j in indices;
      Some(p.testRequired.meta[indices[0]])
  }

  // ---------------------------------------------------------------------------
  // What a verdict says
  // ---------------------------------------------------------------------------

  predicate Blocks(p: AgentPolicy, threshold: Severity, f: Finding) {
    f.rule !in p.advisoryRules && Trips(p, threshold, f)
  }

  /** A finding no approval can lift. */
  predicate HardBlocks(p: AgentPolicy, threshold: Severity, f: Finding) {
    && f.rule !in p.advisoryRules
    && (f.rule in p.blockingRules || (f.rule !in p.escalateRules && AtLeast(f.severity, threshold)))
  }

  predicate Escalates(p: AgentPolicy, f: Finding) {
    f.rule !in p.advisoryRules && f.rule !in p.blockingRules && f.rule in p.escalateRules
  }

  predicate PathDenied(g: Globs, p: AgentPolicy, path: string, covered: bool) {
    || (exists i :: 0 <= i < |p.protectedPaths.meta| && g.matches(p.protectedPaths.meta[i].pattern, Normalise(path)))
    || (!covered &&
        exists i :: 0 <= i < |p.gherkinRequired.meta| && g.matches(p.gherkinRequired.meta[i].pattern, Normalise(path)))
  }

  lemma {:induction false} FindingViolationIff(
    p: AgentPolicy, threshold: Severity, findings: seq<Finding>, v: Violation)
    ensures v in FindingViolations(p, threshold, findings)
            <==> v.finding.Some? && v.finding.value in findings && Trips(p, threshold, v.finding.value)
                 && v == Judged(p, threshold, v.finding.value)
  {
    if findings != [] {
      FindingViolationIff(p, threshold, findings[..|findings| - 1], v);
    }
  }

  /** Every violation is a path denial without a finding, or the judgement of one reported finding. */
  lemma {:induction false} ViolationIff(
    g: Globs, p: AgentPolicy, path: string, findings: seq<Finding>, provenance: Provenance, covered: bool, v: Violation)
    requires p.enabled
    ensures v in Evaluated(g, p, path, findings, provenance, covered).violations
            <==>
            || (v.finding.None? && v.enforcement == Deny && v.cause.ProtectedPath?
                && v.cause.entry in p.protectedPaths.meta && g.matches(v.cause.entry.pattern, Normalise(path)))
            || (v.finding.None? && v.enforcement == Deny && v.cause.MissingGherkinEvidence? && !covered
                && v.cause.entry in p.gherkinRequired.meta && g.matches(v.cause.entry.pattern, Normalise(path)))
            || (v.finding.Some? && v.finding.value in findings && Trips(p, p.ThresholdFor(provenance), v.finding.value)
                && v == Judged(p, p.ThresholdFor(provenance), v.finding.value))
  {
    var np := Normalise(path);
    FindingViolationIff(p, p.ThresholdFor(provenance), findings, v);
    if v.cause.ProtectedPath? || v.cause.MissingGherkinEvidence? {
      HitsAreMatches(g, p.protectedPaths.meta, np, v.cause.entry);
      HitsAreMatches(g, p.gherkinRequired.meta, np, v.cause.entry);
    }
    PathDenialIff(Hits(g, p.protectedPaths.meta, np), false, v);
    PathDenialIff(Hits(g, p.gherkinRequired.meta, np), true, v);
  }

  lemma PathDenialIff(hits: seq<PathRule>, gherkin: bool, v: Violation)
    ensures v in PathDenials(hits, gherkin) <==>
            v.enforcement == Deny && v.finding.None?
            && (if gherkin then v.cause.MissingGherkinEvidence? else v.cause.ProtectedPath?)
            && v.cause.entry in hits
  {
    var denials := PathDenials(hits, gherkin);
    if v in denials {
      var i :| 0 <= i < |denials| && denials[i] == v;
      assert v.cause.entry == hits[i];
    }
    if v.enforcement == Deny && v.finding.None?
       && (if gherkin then v.cause.MissingGherkinEvidence? else v.cause.ProtectedPath?) && v.cause.entry in hits {
      var i :| 0 <= i < |hits| && hits[i] == v.cause.entry;
      assert denials[i] == v;
    }
  }

  /** When a write is blocked, when it is blocked beyond approval, and when it escalates. */
  lemma {:induction false} VerdictIff(
    g: Globs, p: AgentPolicy, path: string, findings: seq<Finding>, provenance: Provenance, covered: bool)
    requires p.enabled
    ensures var e := Evaluated(g, p, path, findings, provenance, covered);
            var t := p.ThresholdFor(provenance);
            && (e.IsDenied() <==> PathDenied(g, p, path, covered) || exists f :: f in findings && Blocks(p, t, f))
            && (e.HasHardDeny()
                <==> PathDenied(g, p, path, covered) || exists f :: f in findings && HardBlocks(p, t, f))
            && (forall f :: Violation(Escalate, Escalation, Some(f)) in e.violations
                            <==> f in findings && Escalates(p, f))
            && (forall v :: v in e.violations && v.enforcement == Escalate ==> v.cause == Escalation && v.finding.Some?)
  {
    var e := Evaluated(g, p, path, findings, provenance, covered);
    var t := p.ThresholdFor(provenance);
    forall v
      ensures v in e.violations && v.enforcement == Escalate ==> v.cause == Escalation && v.finding.Some?
      ensures v in e.violations && v.enforcement in {Deny, Escalate}
              ==> PathDenied(g, p, path, covered) || exists f :: f in findings && Blocks(p, t, f)
      ensures v in e.violations && v.enforcement == Deny
              ==> PathDenied(g, p, path, covered) || exists f :: f in findings && HardBlocks(p, t, f)
    {
      ViolationIff(g, p, path, findings, provenance, covered, v);
    }
    forall f
      ensures Violation(Escalate, Escalation, Some(f)) in e.violations <==> f in findings && Escalates(p, f)
      ensures f in findings && Blocks(p, t, f) ==> Judged(p, t, f) in e.violations
    {
      ViolationIff(g, p, path, findings, provenance, covered, Violation(Escalate, Escalation, Some(f)));
      ViolationIff(g, p, path, findings, provenance, covered, Judged(p, t, f));
    }
    if PathDenied(g, p, path, covered) {
      var v := PathDenialWitness(g, p, path, findings, provenance, covered);
      assert v in e.violations;
    }
    if f :| f in findings && Blocks(p, t, f) {
      assert Judged(p, t, f) in e.violations;
    }
    if f :| f in findings && HardBlocks(p, t, f) {
      assert Blocks(p, t, f) && Judged(p, t, f) in e.violations;
    }
  }

  /** A path written with backslashes is judged as the same path with slashes. */
  lemma BackslashIsSlash(
    g: Globs, p: AgentPolicy, a: string, b: string, findings: seq<Finding>, provenance: Provenance, covered: bool)
    ensures Evaluated(g, p, a + "\\" + b, findings, provenance, covered)
            == Evaluated(g, p, a + "/" + b, findings, provenance, covered)
  {
    NormaliseSplits(a, b);
  }

  /** Without findings, a path with no backslash is denied exactly when it matches an entry as it is written. */
  lemma PlainPathDeniedIff(g: Globs, p: AgentPolicy, path: string, provenance: Provenance, covered: bool)
    requires '\\' !in path
    ensures Evaluated(g, p, path, [], provenance, covered).IsDenied()
            <==>
            && p.enabled
            && (|| (exists e :: e in p.protectedPaths.meta && g.matches(e.pattern, path))
                || (!covered && exists e :: e in p.gherkinRequired.meta && g.matches(e.pattern, path)))
  {
    PlainPathIsNormal(path);
    if p.enabled {
      VerdictIff(g, p, path, [], provenance, covered);
    }
  }

  /**
   * The order of severities: on a path no glob denies, a finding of a rule on no list is denied
   * exactly when its severity comes no earlier in the list than the threshold for the path.
   */
  lemma ThresholdDeniesIff(
    g: Globs, p: AgentPolicy, path: string, f: Finding, covered: bool, severity: nat, base: nat, touched: nat)
    requires p.enabled && !PathDenied(g, p, path, covered)
    requires f.rule !in p.advisoryRules && f.rule !in p.blockingRules && f.rule !in p.escalateRules
    requires severity < 5 && base < 5 && touched < 5
    requires f.severity == [Info, Minor, Major, Critical, Blocker][severity]
    requires p.blockAtOrAbove == [Info, Minor, Major, Critical, Blocker][base]
    requires p.aiTouchedBlockAtOrAbove == [Info, Minor, Major, Critical, Blocker][touched]
    ensures Evaluated(g, p, path, [f], Unestablished, covered).IsDenied() <==> severity >= base
    ensures Evaluated(g, p, path, [f], AiTouched, covered).IsDenied() <==> severity >= touched
  {
    VerdictIff(g, p, path, [f], Unestablished, covered);
    VerdictIff(g, p, path, [f], AiTouched, covered);
    assert f in [f];
    RankIsPlace(severity);
    RankIsPlace(base);
    RankIsPlace(touched);
  }

  lemma RankIsPlace(i: nat)
    requires i < 5
    ensures Rank([Info, Minor, Major, Critical, Blocker][i]) == i
  {
  }

  /** What is made of a finding, cause included: advisory outranks blocking, blocking outranks escalation. */
  lemma JudgementTable(
    g: Globs, p: AgentPolicy, path: string, findings: seq<Finding>, provenance: Provenance, covered: bool, f: Finding,
    enforcement: Enforcement, cause: Cause)
    ensures var threshold := if provenance == AiTouched then p.aiTouchedBlockAtOrAbove else p.blockAtOrAbove;
            var listed := f.rule in p.blockingRules || f.rule in p.escalateRules;
            Violation(enforcement, cause, Some(f)) in Evaluated(g, p, path, findings, provenance, covered).violations
            <==>
            && p.enabled && f in findings && (listed || AtLeast(f.severity, threshold))
            && (if f.rule in p.advisoryRules then enforcement == Warn && cause == BlockingRule
                else if f.rule in p.blockingRules then enforcement == Deny && cause == BlockingRule
                else if f.rule in p.escalateRules then enforcement == Escalate && cause == Escalation
                else enforcement == Deny && cause == SeverityThreshold(threshold))
  {
    if p.enabled {
      ViolationIff(g, p, path, findings, provenance, covered, Violation(enforcement, cause, Some(f)));
    }
  }

  function Phase(v: Violation): nat {
    match v.cause
    case ProtectedPath(_) => 0
    case MissingGherkinEvidence(_) => 2
    case _ => 1
  }

  /** Protected paths come first, then findings, then missing evidence. */
  lemma EvaluationOrder(
    g: Globs, p: AgentPolicy, path: string, findings: seq<Finding>, provenance: Provenance, covered: bool, i: nat,
    j: nat)
    requires i < j < |Evaluated(g, p, path, findings, provenance, covered).violations|
    ensures var violations := Evaluated(g, p, path, findings, provenance, covered).violations;
            Phase(violations[i]) <= Phase(violations[j])
  {
    var np, t := Normalise(path), p.ThresholdFor(provenance);
    var a := PathDenials(Hits(g, p.protectedPaths.meta, np), false);
    var b := FindingViolations(p, t, findings);
    var c := if covered then [] else PathDenials(Hits(g, p.gherkinRequired.meta, np), true);
    assert Evaluated(g, p, path, findings, provenance, covered).violations == a + b + c;
    forall k | 0 <= k < |b|
      ensures Phase(b[k]) == 1
    {
      FindingViolationIff(p, t, findings, b[k]);
    }
  }

  lemma PathDenialWitness(
    g: Globs, p: AgentPolicy, path: string, findings: seq<Finding>, provenance: Provenance, covered: bool)
    returns (v: Violation)
    requires p.enabled && PathDenied(g, p, path, covered)
    ensures v in Evaluated(g, p, path, findings, provenance, covered).violations && v.enforcement == Deny
  {
    if i :| 0 <= i < |p.protectedPaths.meta| && g.matches(p.protectedPaths.meta[i].pattern, Normalise(path)) {
      v := Violation(Deny, ProtectedPath(p.protectedPaths.meta[i]), None);
    } else {
      var i :| 0 <= i < |p.gherkinRequired.meta| && g.matches(p.gherkinRequired.meta[i].pattern, Normalise(path));
      v := Violation(Deny, MissingGherkinEvidence(p.gherkinRequired.meta[i]), None);
    }
    ViolationIff(g, p, path, findings, provenance, covered, v);
  }

  function FindingsBehind(violations: seq<Violation>): seq<Finding> {
    if violations == [] then []
    else
      var last, rest := violations[|violations| - 1], FindingsBehind(violations[..|violations| - 1]);
      if last.finding.Some? then rest + [last.finding.value] else rest
  }

  function Tripping(p: AgentPolicy, threshold: Severity, findings: seq<Finding>): seq<Finding> {
    if findings == [] then []
    else
      var last, rest := findings[|findings| - 1], Tripping(p, threshold, findings[..|findings| - 1]);
      if Trips(p, threshold, last) then rest + [last] else rest
  }

  lemma {:induction false} FindingsBehindConcat(a: seq<Violation>, b: seq<Violation>)
    ensures FindingsBehind(a + b) == FindingsBehind(a) + FindingsBehind(b)
  {
    if b == [] {
      assert a + b == a;
    } else {
      assert (a + b)[..|a + b| - 1] == a + b[..|b| - 1];
      FindingsBehindConcat(a, b[..|b| - 1]);
    }
  }

  lemma {:induction false} NoFindingBehindPaths(hits: seq<PathRule>, gherkin: bool)
    ensures FindingsBehind(PathDenials(hits, gherkin)) == []
  {
    if hits != [] {
      var n := |hits| - 1;
      assert PathDenials(hits, gherkin)[..n] == PathDenials(hits[..n], gherkin);
      NoFindingBehindPaths(hits[..n], gherkin);
    }
  }

  /** The violations that carry a finding are the tripping findings, in report order, one each. */
  lemma {:induction false} OneViolationPerTrippingFinding(
    g: Globs, p: AgentPolicy, path: string, findings: seq<Finding>, provenance: Provenance, covered: bool)
    requires p.enabled
    ensures FindingsBehind(Evaluated(g, p, path, findings, provenance, covered).violations)
            == Tripping(p, p.ThresholdFor(provenance), findings)
  {
    var t := p.ThresholdFor(provenance);
    var a := PathDenials(Hits(g, p.protectedPaths.meta, Normalise(path)), false);
    var b := FindingViolations(p, t, findings);
    var c := if covered then [] else PathDenials(Hits(g, p.gherkinRequired.meta, Normalise(path)), true);
    assert Evaluated(g, p, path, findings, provenance, covered).violations == a + b + c;
    FindingsBehindConcat(a, b);
    FindingsBehindConcat(a + b, c);
    NoFindingBehindPaths(Hits(g, p.protectedPaths.meta, Normalise(path)), false);
    NoFindingBehindPaths(Hits(g, p.gherkinRequired.meta, Normalise(path)), true);
    FindingsBehindJudged(p, t, findings);
  }

  lemma {:induction false} FindingsBehindJudged(p: AgentPolicy, t: Severity, findings: seq<Finding>)
    ensures FindingsBehind(FindingViolations(p, t, findings)) == Tripping(p, t, findings)
  {
    if findings != [] {
      FindingsBehindJudged(p, t, findings[..|findings| - 1]);
      var last := findings[|findings| - 1];
      FindingsBehindConcat(FindingViolations(p, t, findings[..|findings| - 1]), [Judged(p, t, last)]);
    }
  }

  // ---------------------------------------------------------------------------
  // Provenance
  // ---------------------------------------------------------------------------

  function Escalations(violations: seq<Violation>): seq<Violation> {
    if violations == [] then []
    else
      var last, rest := violations[|violations| - 1], Escalations(violations[..|violations| - 1]);
      if last.enforcement == Escalate then rest + [last] else rest
  }

  lemma {:induction false} EscalationsConcat(a: seq<Violation>, b: seq<Violation>)
    ensures Escalations(a + b) == Escalations(a) + Escalations(b)
  {
    if b == [] {
      assert a + b == a;
    } else {
      assert (a + b)[..|a + b| - 1] == a + b[..|b| - 1];
      EscalationsConcat(a, b[..|b| - 1]);
    }
  }

  lemma {:induction false} EscalationsIgnoreThreshold(
    p: AgentPolicy, t1: Severity, t2: Severity, findings: seq<Finding>)
    ensures Escalations(FindingViolations(p, t1, findings)) == Escalations(FindingViolations(p, t2, findings))
  {
    if findings != [] {
      var rest, last := findings[..|findings| - 1], findings[|findings| - 1];
      EscalationsIgnoreThreshold(p, t1, t2, rest);
      EscalationsConcat(FindingViolations(p, t1, rest), [Judged(p, t1, last)]);
      EscalationsConcat(FindingViolations(p, t2, rest), [Judged(p, t2, last)]);
    }
  }

  /** Provenance moves the threshold only: the escalated part of an evaluation never depends on it. */
  lemma EscalationsIgnoreProvenance(
    g: Globs, p: AgentPolicy, path: string, findings: seq<Finding>, covered: bool, a: Provenance, b: Provenance)
    ensures Escalations(Evaluated(g, p, path, findings, a, covered).violations)
            == Escalations(Evaluated(g, p, path, findings, b, covered).violations)
  {
    if p.enabled {
      var prot := PathDenials(Hits(g, p.protectedPaths.meta, Normalise(path)), false);
      var gherkin := if covered then [] else PathDenials(Hits(g, p.gherkinRequired.meta, Normalise(path)), true);
      var fa := FindingViolations(p, p.ThresholdFor(a), findings);
      var fb := FindingViolations(p, p.ThresholdFor(b), findings);
      assert Evaluated(g, p, path, findings, a, covered).violations == prot + fa + gherkin;
      assert Evaluated(g, p, path, findings, b, covered).violations == prot + fb + gherkin;
      EscalationsConcat(prot, fa);
      EscalationsConcat(prot, fb);
      EscalationsConcat(prot + fa, gherkin);
      EscalationsConcat(prot + fb, gherkin);
      EscalationsIgnoreThreshold(p, p.ThresholdFor(a), p.ThresholdFor(b), findings);
    }
  }

  /** A stricter threshold keeps every denial, and every rule that was blocked. */
  lemma TighteningKeepsDenials(g: Globs, p: AgentPolicy, path: string, findings: seq<Finding>, covered: bool)
    requires p.Tightens()
    ensures var base := Evaluated(g, p, path, findings, Unestablished, covered);
            var strict := Evaluated(g, p, path, findings, AiTouched, covered);
            && (base.IsDenied() ==> strict.IsDenied())
            && (base.HasHardDeny() ==> strict.HasHardDeny())
            && BlockedRules(base) <= BlockedRules(strict)
  {
    if p.enabled {
      VerdictIff(g, p, path, findings, Unestablished, covered);
      VerdictIff(g, p, path, findings, AiTouched, covered);
      var base := Evaluated(g, p, path, findings, Unestablished, covered);
      var strict := Evaluated(g, p, path, findings, AiTouched, covered);
      forall r | r in BlockedRules(base)
        ensures r in BlockedRules(strict)
      {
        var v :| v in base.violations && v.enforcement in {Deny, Escalate}
          && v.finding.Some? && v.finding.value.rule == r;
        ViolationIff(g, p, path, findings, Unestablished, covered, v);
        var w := Judged(p, p.ThresholdFor(AiTouched), v.finding.value);
        ViolationIff(g, p, path, findings, AiTouched, covered, w);
        assert w in strict.violations;
      }
    }
  }

  /** The rules behind the blocking violations of an evaluation. */
  function BlockedRules(e: Evaluation): set<RuleId> {
    set v | v in e.violations && v.enforcement in {Deny, Escalate} && v.finding.Some? :: v.finding.value.rule
  }

  /** Exactly the rules of the findings that block, whether denied or escalated, and none twice. */
  lemma BlockedRulesIff(
    g: Globs, p: AgentPolicy, path: string, findings: seq<Finding>, provenance: Provenance, covered: bool, r: RuleId)
    ensures r in BlockedRules(Evaluated(g, p, path, findings, provenance, covered))
            <==> p.enabled && exists f :: f in findings && f.rule == r && Blocks(p, p.ThresholdFor(provenance), f)
  {
    if p.enabled {
      var e, t := Evaluated(g, p, path, findings, provenance, covered), p.ThresholdFor(provenance);
      forall v
        ensures v in e.violations && v.enforcement in {Deny, Escalate} && v.finding.Some?
                ==> v.finding.value in findings && Blocks(p, t, v.finding.value)
      {
        ViolationIff(g, p, path, findings, provenance, covered, v);
      }
      forall f | f in findings && Blocks(p, t, f)
        ensures f.rule in BlockedRules(e)
      {
        ViolationIff(g, p, path, findings, provenance, covered, Judged(p, t, f));
      }
    }
  }

  // ---------------------------------------------------------------------------
  // Role scopes
  // ---------------------------------------------------------------------------

  datatype RoleScope = RoleScope(
    protectedPaths: seq<PathRule>, blockingRules: seq<RuleId>, escalateRules: seq<RuleId>)

  function Concat(s: RoleScope, t: RoleScope): RoleScope {
    RoleScope(s.protectedPaths + t.protectedPaths,
              s.blockingRules + t.blockingRules,
              s.escalateRules + t.escalateRules)
  }

  function AddNew(base: seq<RuleId>, extra: seq<RuleId>): seq<RuleId> {
    if extra == [] then base
    else
      var last := extra[|extra| - 1];
      var rest := AddNew(base, extra[..|extra| - 1]);
      if last in rest then rest else rest + [last]
  }

  function Scoped(g: Globs, p: AgentPolicy, s: RoleScope): Result<AgentPolicy, GlobError> {
    match Compiled(g, p.protectedPaths.meta + s.protectedPaths)
    case Failure(error) => Failure(error)
    case Success(table) =>
      Success(p.(protectedPaths := table,
                 blockingRules := AddNew(p.blockingRules, s.blockingRules),
                 escalateRules := AddNew(p.escalateRules, s.escalateRules)))
  }

  method AddMissing(base: seq<RuleId>, extra: seq<RuleId>) returns (rules: seq<RuleId>)
    ensures rules == AddNew(base, extra)
    ensures base <= rules
    ensures forall r :: r in rules <==> r in base || r in extra
  {
    rules := base;
    for i := 0 to |extra|
      invariant rules == AddNew(base, extra[..i])
      invariant base <= rules
      invariant forall r :: r in rules <==> r in base || r in extra[..i]
    {
      assert extra[..i + 1][..i] == extra[..i];
      if extra[i] !in rules {
        rules := rules + [extra[i]];
      }
    }
    assert extra[..|extra|] == extra;
  }

  method WithRoleScope(g: Globs, p: AgentPolicy, s: RoleScope) returns (r: Result<AgentPolicy, GlobError>)
    requires p.Valid()
    ensures r == Scoped(g, p, s)
    ensures r.Success? ==> r.value.Valid()
  {
    var table := CompileTable(g, p.protectedPaths.meta + s.protectedPaths);
    if table.Failure? {
      return Failure(table.error);
    }
    var blocking := AddMissing(p.blockingRules, s.blockingRules);
    var escalating := AddMissing(p.escalateRules, s.escalateRules);
    return Success(p.(protectedPaths := table.value, blockingRules := blocking, escalateRules := escalating));
  }

  lemma {:induction false} AddNewMembers(base: seq<RuleId>, extra: seq<RuleId>, r: RuleId)
    ensures r in AddNew(base, extra) <==> r in base || r in extra
  {
    if extra != [] {
      AddNewMembers(base, extra[..|extra| - 1], r);
    }
  }

  lemma {:induction false} AddNewTwice(base: seq<RuleId>, a: seq<RuleId>, b: seq<RuleId>)
    ensures AddNew(AddNew(base, a), b) == AddNew(base, a + b)
  {
    if b == [] {
      assert a + b == a;
    } else {
      assert (a + b)[..|a + b| - 1] == a + b[..|b| - 1];
      AddNewTwice(base, a, b[..|b| - 1]);
    }
  }

  lemma {:induction false} FirstInvalidConcat(g: Globs, a: seq<PathRule>, b: seq<PathRule>)
    ensures FirstInvalid(g, a + b) == if FirstInvalid(g, a).Some? then FirstInvalid(g, a) else FirstInvalid(g, b)
  {
    if a == [] {
      assert a + b == b;
    } else {
      assert (a + b)[1..] == a[1..] + b;
      FirstInvalidConcat(g, a[1..], b);
    }
  }

  /**
   * Layering two scopes one after the other is layering their concatenation, errors included,
   * unless the intermediate set fails to build where the whole would have told otherwise.
   */
  lemma ScopesComposeIff(g: Globs, p: AgentPolicy, s: RoleScope, t: RoleScope)
    ensures var first := Scoped(g, p, s);
            var inner := p.protectedPaths.meta + s.protectedPaths;
            Scoped(g, p, Concat(s, t)) == (if first.Failure? then first else Scoped(g, first.value, t))
            <==>
            || FirstInvalid(g, inner).Some?
            || g.builds(Patterns(inner))
            || (FirstInvalid(g, t.protectedPaths).None? && !g.builds(Patterns(inner + t.protectedPaths)))
  {
    var meta := p.protectedPaths.meta;
    assert meta + (s.protectedPaths + t.protectedPaths) == (meta + s.protectedPaths) + t.protectedPaths;
    FirstInvalidConcat(g, meta + s.protectedPaths, t.protectedPaths);
    AddNewTwice(p.blockingRules, s.blockingRules, t.blockingRules);
    AddNewTwice(p.escalateRules, s.escalateRules, t.escalateRules);
  }

  /** The three facts about a scoped policy the theorems below need. */
  lemma ScopedRules(g: Globs, p: AgentPolicy, s: RoleScope, r: RuleId)
    requires Scoped(g, p, s).Success?
    ensures var q := Scoped(g, p, s).value;
            && (r in q.blockingRules <==> r in p.blockingRules || r in s.blockingRules)
            && (r in q.escalateRules <==> r in p.escalateRules || r in s.escalateRules)
  {
    AddNewMembers(p.blockingRules, s.blockingRules, r);
    AddNewMembers(p.escalateRules, s.escalateRules, r);
  }

  predicate ScopeDeniesPath(g: Globs, s: RoleScope, path: string) {
    exists i :: 0 <= i < |s.protectedPaths| && g.matches(s.protectedPaths[i].pattern, Normalise(path))
  }

  predicate ScopeNames(p: AgentPolicy, s: RoleScope, f: Finding) {
    f.rule !in p.advisoryRules && (f.rule in s.blockingRules || f.rule in s.escalateRules)
  }

  /** A scope adds its own paths to the denied ones. */
  lemma ScopedPathDeniedIff(g: Globs, p: AgentPolicy, s: RoleScope, path: string, covered: bool)
    requires Scoped(g, p, s).Success?
    ensures PathDenied(g, Scoped(g, p, s).value, path, covered)
            <==> PathDenied(g, p, path, covered) || ScopeDeniesPath(g, s, path)
  {
    var q, n := Scoped(g, p, s).value, |p.protectedPaths.meta|;
    assert forall i :: 0 <= i < n ==> q.protectedPaths.meta[i] == p.protectedPaths.meta[i];
    assert forall i :: 0 <= i < |s.protectedPaths| ==> q.protectedPaths.meta[n + i] == s.protectedPaths[i];
    assert forall i :: n <= i < |q.protectedPaths.meta| ==> q.protectedPaths.meta[i] == s.protectedPaths[i - n];
  }

  /** What a scope adds to the verdict on one finding. */
  lemma ScopedBlocksIff(g: Globs, p: AgentPolicy, s: RoleScope, t: Severity, f: Finding)
    requires Scoped(g, p, s).Success?
    ensures Blocks(Scoped(g, p, s).value, t, f) <==> Blocks(p, t, f) || ScopeNames(p, s, f)
  {
    ScopedRules(g, p, s, f.rule);
  }

  /** A scope puts its paths behind the base policy's and touches nothing but the three lists it extends. */
  lemma ScopeKeepsTheRest(g: Globs, p: AgentPolicy, s: RoleScope)
    requires Scoped(g, p, s).Success?
    ensures var q := Scoped(g, p, s).value;
            && q.protectedPaths.meta == p.protectedPaths.meta + s.protectedPaths
            && p.blockingRules <= q.blockingRules && p.escalateRules <= q.escalateRules
            && q.enabled == p.enabled && q.advisoryRules == p.advisoryRules
            && q.blockAtOrAbove == p.blockAtOrAbove && q.aiTouchedBlockAtOrAbove == p.aiTouchedBlockAtOrAbove
            && q.gherkinRequired == p.gherkinRequired && q.testRequired == p.testRequired
            && q.testCommandPatterns == p.testCommandPatterns
  {
    AddNewExtends(p.blockingRules, s.blockingRules);
    AddNewExtends(p.escalateRules, s.escalateRules);
  }

  lemma {:induction false} AddNewExtends(base: seq<RuleId>, extra: seq<RuleId>)
    ensures base <= AddNew(base, extra)
  {
    if extra != [] {
      AddNewExtends(base, extra[..|extra| - 1]);
    }
  }

  /** Everything the scope adds to the set of blocked writes: its paths and its rules, nothing else. */
  lemma ScopeAddsExactly(
    g: Globs, p: AgentPolicy, s: RoleScope, path: string, findings: seq<Finding>, provenance: Provenance, covered: bool)
    requires p.enabled && Scoped(g, p, s).Success?
    ensures Evaluated(g, Scoped(g, p, s).value, path, findings, provenance, covered).IsDenied()
            <==>
            || Evaluated(g, p, path, findings, provenance, covered).IsDenied()
            || ScopeDeniesPath(g, s, path)
            || (exists f :: f in findings && ScopeNames(p, s, f))
  {
    var q, t := Scoped(g, p, s).value, p.ThresholdFor(provenance);
    VerdictIff(g, p, path, findings, provenance, covered);
    VerdictIff(g, q, path, findings, provenance, covered);
    ScopedPathDeniedIff(g, p, s, path, covered);
    forall f
      ensures Blocks(q, t, f) <==> Blocks(p, t, f) || ScopeNames(p, s, f)
    {
      ScopedBlocksIff(g, p, s, t, f);
    }
  }

  /** A role scope only restricts: every write the base policy denies stays denied. */
  lemma ScopeIsMonotone(
    g: Globs, p: AgentPolicy, s: RoleScope, path: string, findings: seq<Finding>, provenance: Provenance, covered: bool)
    requires Scoped(g, p, s).Success?
    requires Evaluated(g, p, path, findings, provenance, covered).IsDenied()
    ensures Evaluated(g, Scoped(g, p, s).value, path, findings, provenance, covered).IsDenied()
  {
    ScopeAddsExactly(g, p, s, path, findings, provenance, covered);
  }

  /** An evaluation holds a violation of this strength for this finding. */
  predicate Answers(e: Evaluation, f: Finding, enforcement: Enforcement) {
    exists v: Violation :: v in e.violations && v.finding == Some(f) && v.enforcement == enforcement
  }

  lemma AnswersIff(
    g: Globs, p: AgentPolicy, path: string, findings: seq<Finding>, provenance: Provenance, covered: bool, f: Finding,
    enforcement: Enforcement)
    ensures var t := p.ThresholdFor(provenance);
            Answers(Evaluated(g, p, path, findings, provenance, covered), f, enforcement)
            <==> p.enabled && f in findings && Trips(p, t, f) && Judged(p, t, f).enforcement == enforcement
  {
    if p.enabled {
      var e, judged := Evaluated(g, p, path, findings, provenance, covered), Judged(p, p.ThresholdFor(provenance), f);
      forall v: Violation | v.finding == Some(f)
        ensures v in e.violations <==> f in findings && Trips(p, p.ThresholdFor(provenance), f) && v == judged
      {
        ViolationIff(g, p, path, findings, provenance, covered, v);
      }
      assert judged.finding == Some(f);
    }
  }

  /** Denied by the threshold alone, and newly escalated by a scope that does not block it. */
  predicate Softened(p: AgentPolicy, s: RoleScope, t: Severity, f: Finding) {
    && f.rule !in p.advisoryRules && f.rule !in p.blockingRules && f.rule !in p.escalateRules
    && AtLeast(f.severity, t)
    && f.rule in s.escalateRules && f.rule !in s.blockingRules
  }

  /**
   * The one way a scope softens a verdict: the denial of a finding under the base policy is an
   * approvable escalation under the scoped one exactly when only the threshold denied it, the scope
   * escalates its rule, and the rule is on neither blocking list.
   */
  lemma ScopeSoftensExactly(
    g: Globs, p: AgentPolicy, s: RoleScope, path: string, findings: seq<Finding>, provenance: Provenance, covered: bool,
    f: Finding)
    requires Scoped(g, p, s).Success?
    ensures Answers(Evaluated(g, p, path, findings, provenance, covered), f, Deny)
            && Answers(Evaluated(g, Scoped(g, p, s).value, path, findings, provenance, covered), f, Escalate)
            <==> p.enabled && f in findings && Softened(p, s, p.ThresholdFor(provenance), f)
  {
    AnswersIff(g, p, path, findings, provenance, covered, f, Deny);
    AnswersIff(g, Scoped(g, p, s).value, path, findings, provenance, covered, f, Escalate);
    ScopedRules(g, p, s, f.rule);
  }

  lemma ScopedHardBlocksIff(g: Globs, p: AgentPolicy, s: RoleScope, t: Severity, f: Finding)
    requires Scoped(g, p, s).Success?
    ensures HardBlocks(Scoped(g, p, s).value, t, f)
            <==>
            || (HardBlocks(p, t, f) && !Softened(p, s, t, f))
            || (f.rule !in p.advisoryRules && f.rule in s.blockingRules)
  {
    ScopedRules(g, p, s, f.rule);
  }

  /**
   * A write the base policy denies beyond approval is left to a human by the scoped one exactly when
   * no path denies it, every finding that denied it is softened, and no finding is of a rule the
   * scope blocks.
   */
  lemma ScopeMakesApprovableIff(
    g: Globs, p: AgentPolicy, s: RoleScope, path: string, findings: seq<Finding>, provenance: Provenance, covered: bool)
    requires Scoped(g, p, s).Success?
    requires Evaluated(g, p, path, findings, provenance, covered).HasHardDeny()
    ensures var scoped := Evaluated(g, Scoped(g, p, s).value, path, findings, provenance, covered);
            var t := p.ThresholdFor(provenance);
            scoped.IsDenied() && !scoped.HasHardDeny()
            <==>
            && !PathDenied(g, p, path, covered) && !ScopeDeniesPath(g, s, path)
            && (forall f :: f in findings && HardBlocks(p, t, f) ==> Softened(p, s, t, f))
            && (forall f :: f in findings && f.rule !in p.advisoryRules ==> f.rule !in s.blockingRules)
  {
    var q, t := Scoped(g, p, s).value, p.ThresholdFor(provenance);
    ScopeIsMonotone(g, p, s, path, findings, provenance, covered);
    VerdictIff(g, q, path, findings, provenance, covered);
    ScopedPathDeniedIff(g, p, s, path, covered);
    forall f
      ensures HardBlocks(q, t, f)
              <==> (|| (HardBlocks(p, t, f) && !Softened(p, s, t, f))
                    || (f.rule !in p.advisoryRules && f.rule in s.blockingRules))
    {
      ScopedHardBlocksIff(g, p, s, t, f);
    }
  }

  const NO_GLOBS := GlobTable([], [])

  /** A policy with a threshold and nothing else. */
  function ThresholdOnly(severity: Severity): AgentPolicy {
    AgentPolicy(true, severity, severity, [], [], [], NO_GLOBS, NO_GLOBS, NO_GLOBS, [])
  }

  /** A write that softens: any finding at the threshold, under a scope that escalates its rule. */
  lemma ScopeCanSoften(g: Globs, path: string, f: Finding)
    requires g.builds([])
    ensures var p, s := ThresholdOnly(f.severity), RoleScope([], [], [f.rule]);
            && Scoped(g, p, s).Success?
            && Evaluated(g, p, path, [f], Unestablished, true).HasHardDeny()
            && Evaluated(g, Scoped(g, p, s).value, path, [f], Unestablished, true).IsDenied()
            && !Evaluated(g, Scoped(g, p, s).value, path, [f], Unestablished, true).HasHardDeny()
  {
    var p, s := ThresholdOnly(f.severity), RoleScope([], [], [f.rule]);
    assert NO_GLOBS.meta + s.protectedPaths == [] && Patterns([]) == [];
    VerdictIff(g, p, path, [f], Unestablished, true);
    assert f in [f] && HardBlocks(p, f.severity, f);
    ScopeMakesApprovableIff(g, p, s, path, [f], Unestablished, true);
  }

  /** Swapping two scopes reorders the violations and changes nothing else. */
  lemma ScopesCommute(
    g: Globs, p: AgentPolicy, s: RoleScope, t: RoleScope, path: string, findings: seq<Finding>, provenance: Provenance,
    covered: bool)
    requires Scoped(g, p, Concat(s, t)).Success?
    ensures Scoped(g, p, Concat(t, s)).Success?
            <==> g.builds(Patterns(p.protectedPaths.meta + (t.protectedPaths + s.protectedPaths)))
    ensures Scoped(g, p, Concat(t, s)).Success?
            ==>
            multiset(Evaluated(g, Scoped(g, p, Concat(s, t)).value, path, findings, provenance, covered).violations)
            == multiset(Evaluated(g, Scoped(g, p, Concat(t, s)).value, path, findings, provenance, covered).violations)
  {
    var meta, np := p.protectedPaths.meta, Normalise(path);
    FirstInvalidConcat(g, meta, s.protectedPaths + t.protectedPaths);
    FirstInvalidConcat(g, meta, t.protectedPaths + s.protectedPaths);
    FirstInvalidConcat(g, s.protectedPaths, t.protectedPaths);
    FirstInvalidConcat(g, t.protectedPaths, s.protectedPaths);
    if Scoped(g, p, Concat(t, s)).Success? {
      var st, ts := Scoped(g, p, Concat(s, t)).value, Scoped(g, p, Concat(t, s)).value;
      forall r
        ensures (r in st.blockingRules <==> r in ts.blockingRules) && (r in st.escalateRules <==> r in ts.escalateRules)
      {
        ScopedRules(g, p, Concat(s, t), r);
        ScopedRules(g, p, Concat(t, s), r);
      }
      SameRulesSameViolations(st, ts, p.ThresholdFor(provenance), findings);
      SwappedDenials(g, meta, s.protectedPaths, t.protectedPaths, np);
    }
  }

  lemma SwappedDenials(g: Globs, base: seq<PathRule>, a: seq<PathRule>, b: seq<PathRule>, path: string)
    ensures multiset(PathDenials(Hits(g, base + (a + b), path), false))
            == multiset(PathDenials(Hits(g, base + (b + a), path), false))
  {
    HitsConcat(g, base, a + b, path);
    HitsConcat(g, base, b + a, path);
    HitsConcat(g, a, b, path);
    HitsConcat(g, b, a, path);
    var m, x, y := Hits(g, base, path), Hits(g, a, path), Hits(g, b, path);
    DenialsConcat(m, x + y);
    DenialsConcat(m, y + x);
    DenialsConcat(x, y);
    DenialsConcat(y, x);
  }

  lemma DenialsConcat(a: seq<PathRule>, b: seq<PathRule>)
    ensures PathDenials(a + b, false) == PathDenials(a, false) + PathDenials(b, false)
  {
  }

  lemma {:induction false} SameRulesSameViolations(p: AgentPolicy, q: AgentPolicy, t: Severity, findings: seq<Finding>)
    requires forall r :: r in p.blockingRules <==> r in q.blockingRules
    requires forall r :: r in p.escalateRules <==> r in q.escalateRules
    requires p.advisoryRules == q.advisoryRules
    ensures FindingViolations(p, t, findings) == FindingViolations(q, t, findings)
  {
    if findings != [] {
      SameRulesSameViolations(p, q, t, findings[..|findings| - 1]);
    }
  }
}
